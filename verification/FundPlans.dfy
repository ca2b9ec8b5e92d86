/** The funding plan: what every wallet still needs, what the deployer spends, and when not to run. */
module FundPlans {
  import opened Results
  import opened Positional
  import opened Decimals

  const HEADROOM_NUM: nat := 110
  const HEADROOM_DEN: nat := 100
  const BPS: nat := 10_000

  /** Balances of one address: lamports, raw quote units and whether its quote account exists. */
  datatype Account = Account(lamports: nat, spyx: nat, hasAta: bool)

  datatype Planned = Planned(role: string, pubkey: string, lamports: nat, spyx: nat, planKey: Option<string>)

  datatype WalletBalances = WalletBalances(role: string, pubkey: string, account: Account)

  /** `cost` is the mid-price estimate, in lamports, of buying an amount; the prices are floating point. */
  datatype Terms = Terms(
    hasPrices: bool,
    cost: nat -> nat,
    rent: nat,
    minDeployer: nat,
    feeBuffer: nat,
    marginBps: nat)

  datatype FundError = NoBalances(role: string) | WrongAddress(role: string) | NotAnInteger(planKey: string)

  /** What a wallet should hold. */
  datatype Goal = Goal(sol: nat, spyx: nat)

  datatype WalletPlan = WalletPlan(role: string, goal: Goal, account: Account)
  {
    /** The least that brings the wallet to its goal. */
    function SolToSend(): (n: nat)
      ensures account.lamports + n >= goal.sol && (n > 0 ==> account.lamports + n == goal.sol)
    {
      if account.lamports >= goal.sol then 0 else goal.sol - account.lamports
    }

    function SpyxToSend(): (n: nat)
      ensures account.spyx + n >= goal.spyx && (n > 0 ==> account.spyx + n == goal.spyx)
    {
      if account.spyx >= goal.spyx then 0 else goal.spyx - account.spyx
    }

    predicate NeedsAta() { goal.spyx > 0 && !account.hasAta }
  }

  datatype Abort = DeployerTooLow | DeployerCannotPay | NoPrices

  datatype FundPlan = FundPlan(
    wallets: seq<WalletPlan>,
    spyxToTransfer: nat,
    spyxToBuy: nat,
    solToSend: nat,
    atasToCreate: nat,
    swapEstimate: nat,
    deployerSpend: nat,
    deployerLeft: int,
    abort: Option<Abort>,
    complete: bool)

  // ------------------------------------------------------------ goals

  function LivePlanRaw(livePlan: map<string, string>, planKey: Option<string>): Result<nat, FundError> {
    match planKey
    case None => Ok(0)
    case Some(key) =>
      if key == "" || key !in livePlan then Ok(0)
      else
        var text := TrimEnd(TrimStart(livePlan[key]));
        if text == "" || !AllDigits(text) then Err(NotAnInteger(key)) else Ok(Value(Read(text), 10))
  }

  /**
   * The live requirement is nothing where the plan exports none, the number its digits spell whatever space
   * is around them, and an error for any other text.
   */
  lemma LiveRequirementIs(livePlan: map<string, string>, key: string, before: string, s: string, after: string)
    requires Blank(before) && Blank(after)
    requires s != "" ==> s[0] as int !in ECMA_SPACES && s[|s| - 1] as int !in ECMA_SPACES
    ensures LivePlanRaw(livePlan, None) == Ok(0)
    ensures key == "" || key !in livePlan ==> LivePlanRaw(livePlan, Some(key)) == Ok(0)
    ensures key != "" && key in livePlan && livePlan[key] == before + s + after ==>
              LivePlanRaw(livePlan, Some(key)) == if s != "" && AllDigits(s) then Ok(Value(Read(s), 10)) else Err(NotAnInteger(key))
  {
    Trimmed(before, s, after);
  }

  /** The live requirement with 10% on top, rounded up. */
  function WithHeadroom(live: nat): (r: nat)
    ensures 110 * live <= 100 * r < 110 * live + 100
  {
    (live * HEADROOM_NUM + HEADROOM_DEN - 1) / HEADROOM_DEN
  }

  function GoalOf(p: Planned, live: nat): (g: Goal)
    ensures g.sol == p.lamports && g.spyx >= p.spyx && g.spyx >= live
    ensures 100 * g.spyx >= 110 * live && (g.spyx == p.spyx || 100 * g.spyx < 110 * live + 100)
  {
    Goal(p.lamports, if p.spyx > WithHeadroom(live) then p.spyx else WithHeadroom(live))
  }

  /** The first wallet with the role. */
  function Find(wallets: seq<WalletBalances>, role: string): (r: Option<WalletBalances>)
    ensures r.Some? ==> r.value in wallets && r.value.role == role
    ensures r.None? ==> forall w :: w in wallets ==> w.role != role
  {
    if wallets == [] then None
    else if wallets[0].role == role then Some(wallets[0])
    else Find(wallets[1..], role)
  }

  function PlanWallet(p: Planned, wallets: seq<WalletBalances>, livePlan: map<string, string>): Result<WalletPlan, FundError> {
    match Find(wallets, p.role)
    case None => Err(NoBalances(p.role))
    case Some(b) =>
      if b.pubkey != p.pubkey then Err(WrongAddress(p.role))
      else match LivePlanRaw(livePlan, p.planKey)
        case Err(e) => Err(e)
        case Ok(live) => Ok(WalletPlan(p.role, GoalOf(p, live), b.account))
  }

  /** `wallets[i]` is the first with the role. */
  predicate FirstWith(wallets: seq<WalletBalances>, role: string, i: int) {
    0 <= i < |wallets| && wallets[i].role == role && forall j :: 0 <= j < i ==> wallets[j].role != role
  }

  lemma {:induction false} FindsFirst(wallets: seq<WalletBalances>, role: string) returns (i: nat)
    ensures if Find(wallets, role).Some? then FirstWith(wallets, role, i) && Find(wallets, role) == Some(wallets[i])
            else forall w :: w in wallets ==> w.role != role
  {
    i := 0;
    if wallets != [] && wallets[0].role != role {
      var k := FindsFirst(wallets[1..], role);
      i := k + 1;
    }
  }

  predicate RowFrom(r: Result<WalletPlan, FundError>, p: Planned, live: Result<nat, FundError>, b: WalletBalances) {
    if b.pubkey != p.pubkey then r == Err(WrongAddress(p.role))
    else if live.Err? then r == Err(live.error)
    else r == Ok(WalletPlan(p.role, GoalOf(p, live.value), b.account))
  }

  /**
   * A planned wallet is refused when no balances name its role, when the first that do are of another
   * address, or for its live requirement; else its row holds those balances.
   */
  lemma RowIs(p: Planned, wallets: seq<WalletBalances>, livePlan: map<string, string>)
    ensures var r, live := PlanWallet(p, wallets, livePlan), LivePlanRaw(livePlan, p.planKey);
            if forall w :: w in wallets ==> w.role != p.role then r == Err(NoBalances(p.role))
            else exists i :: FirstWith(wallets, p.role, i) && RowFrom(r, p, live, wallets[i])
  {
    var i := FindsFirst(wallets, p.role);
  }

  function PlanWallets(planned: seq<Planned>, wallets: seq<WalletBalances>, livePlan: map<string, string>)
    : (r: Result<seq<WalletPlan>, FundError>)
    ensures r.Ok? ==> |r.value| == |planned|
  {
    if planned == [] then Ok([])
    else
      WithRow(PlanWallets(planned[..|planned| - 1], wallets, livePlan),
              PlanWallet(planned[|planned| - 1], wallets, livePlan))
  }

  /** The first error, or the rows with one more. */
  function WithRow(rows: Result<seq<WalletPlan>, FundError>, row: Result<WalletPlan, FundError>)
    : Result<seq<WalletPlan>, FundError>
  {
    match rows
    case Err(e) => Err(e)
    case Ok(before) =>
      match row
      case Err(e) => Err(e)
      case Ok(w) => Ok(before + [w])
  }

  /** In a plan every planned wallet has its row. */
  lemma {:induction false} RowsAre(planned: seq<Planned>, wallets: seq<WalletBalances>, livePlan: map<string, string>, i: nat)
    requires i < |planned| && PlanWallets(planned, wallets, livePlan).Ok?
    ensures PlanWallet(planned[i], wallets, livePlan) == Ok(PlanWallets(planned, wallets, livePlan).value[i])
    decreases |planned|
  {
    if i < |planned| - 1 {
      RowsAre(planned[..|planned| - 1], wallets, livePlan, i);
    }
  }

  /** Without a plan, the first planned wallet that is refused says why. */
  lemma {:induction false} FirstRefused(planned: seq<Planned>, wallets: seq<WalletBalances>, livePlan: map<string, string>)
    returns (i: nat)
    requires PlanWallets(planned, wallets, livePlan).Err?
    ensures i < |planned| && PlanWallet(planned[i], wallets, livePlan) == Err(PlanWallets(planned, wallets, livePlan).error)
    ensures PlanWallets(planned[..i], wallets, livePlan).Ok?
    decreases |planned|
  {
    var init := planned[..|planned| - 1];
    if PlanWallets(init, wallets, livePlan).Ok? {
      i := |init|;
    } else {
      i := FirstRefused(init, wallets, livePlan);
      assert init[..i] == planned[..i];
    }
  }

  // ------------------------------------------------------------ totals

  function SolToSend(rows: seq<WalletPlan>): nat {
    if rows == [] then 0 else SolToSend(rows[..|rows| - 1]) + rows[|rows| - 1].SolToSend()
  }

  function SpyxToSend(rows: seq<WalletPlan>): nat {
    if rows == [] then 0 else SpyxToSend(rows[..|rows| - 1]) + rows[|rows| - 1].SpyxToSend()
  }

  function MissingAtas(rows: seq<WalletPlan>): nat {
    if rows == [] then 0 else MissingAtas(rows[..|rows| - 1]) + (if rows[|rows| - 1].NeedsAta() then 1 else 0)
  }

  lemma {:induction false} MissingAtasAre(rows: seq<WalletPlan>)
    ensures MissingAtas(rows) == |set i | 0 <= i < |rows| && rows[i].goal.spyx > 0 && !rows[i].account.hasAta|
    decreases |rows|
  {
    var all := set i | 0 <= i < |rows| && rows[i].goal.spyx > 0 && !rows[i].account.hasAta;
    if rows == [] {
      assert all == {};
    } else {
      var n := |rows| - 1;
      MissingAtasAre(rows[..n]);
      var init := set i | 0 <= i < |rows[..n]| && rows[..n][i].goal.spyx > 0 && !rows[..n][i].account.hasAta;
      assert all == init + if rows[n].NeedsAta() then {n} else {};
    }
  }

  function Missing(need: nat, have: nat): nat { if need > have then need - have else 0 }

  function SwapEstimate(toBuy: nat, terms: Terms): nat {
    if toBuy == 0 then 0 else terms.cost(toBuy) * (BPS + terms.marginBps) / BPS
  }

  function SpendOf(sol: nat, atas: nat, estimate: nat, terms: Terms): nat {
    sol + terms.rent * atas + estimate + terms.feeBuffer
  }

  function AbortOf(lamports: nat, spend: nat, terms: Terms): Option<Abort> {
    if !terms.hasPrices then Some(NoPrices)
    else if lamports < spend then Some(DeployerCannotPay)
    else if lamports - spend < terms.minDeployer then Some(DeployerTooLow)
    else None
  }

  function Summary(rows: seq<WalletPlan>, deployer: Account, terms: Terms): FundPlan {
    var toTransfer, sol := SpyxToSend(rows), SolToSend(rows);
    var toBuy := Missing(toTransfer, deployer.spyx);
    var atas := MissingAtas(rows) + (if deployer.hasAta then 0 else 1);
    var estimate := SwapEstimate(toBuy, terms);
    var spend := SpendOf(sol, atas, estimate, terms);
    FundPlan(rows, toTransfer, toBuy, sol, atas, estimate, spend, deployer.lamports - spend,
             AbortOf(deployer.lamports, spend, terms), sol == 0 && toTransfer == 0)
  }

  function PlanOf(planned: seq<Planned>, wallets: seq<WalletBalances>, deployer: Account, livePlan: map<string, string>,
                  terms: Terms): Result<FundPlan, FundError> {
    match PlanWallets(planned, wallets, livePlan)
    case Err(e) => Err(e)
    case Ok(rows) => Ok(Summary(rows, deployer, terms))
  }

  /** What the swaps may cost at worst: the price estimate and the margin on top, to the last lamport. */
  predicate MayCost(x: nat, toBuy: nat, terms: Terms) {
    if toBuy == 0 then x == 0 else x * 10_000 <= terms.cost(toBuy) * (10_000 + terms.marginBps)
  }

  lemma EstimateIsWorst(x: nat, toBuy: nat, terms: Terms)
    ensures MayCost(SwapEstimate(toBuy, terms), toBuy, terms)
    ensures MayCost(x, toBuy, terms) ==> x <= SwapEstimate(toBuy, terms)
  {
    if toBuy > 0 {
      var worst := terms.cost(toBuy) * (10_000 + terms.marginBps);
      assert SwapEstimate(toBuy, terms) == worst / 10_000;
    }
  }

  /** What the deployer keeps of its lamports when the swaps cost `x`: transfers, rent and the fee buffer are set aside. */
  function Keeps(rows: seq<WalletPlan>, deployer: Account, terms: Terms, x: nat): int {
    var atas := MissingAtas(rows) + (if deployer.hasAta then 0 else 1);
    deployer.lamports - SolToSend(rows) - terms.rent * atas - terms.feeBuffer - x
  }

  /**
   * With prices, a plan is refused exactly when swaps at their worst would leave the deployer below its
   * minimum, for want of lamports exactly when they would take more than it holds; without, always.
   */
  lemma RefusedIff(rows: seq<WalletPlan>, deployer: Account, terms: Terms)
    ensures var plan, toBuy := Summary(rows, deployer, terms), Missing(SpyxToSend(rows), deployer.spyx);
            && (plan.abort == Some(NoPrices) <==> !terms.hasPrices)
            && (plan.abort == Some(DeployerCannotPay) <==>
                  terms.hasPrices && exists x: nat :: MayCost(x, toBuy, terms) && Keeps(rows, deployer, terms, x) < 0)
            && (terms.hasPrices ==> (plan.abort.Some? <==>
                  exists x: nat :: MayCost(x, toBuy, terms) && Keeps(rows, deployer, terms, x) < terms.minDeployer))
  {
    var toBuy := Missing(SpyxToSend(rows), deployer.spyx);
    var worst := SwapEstimate(toBuy, terms);
    EstimateIsWorst(worst, toBuy, terms);
    assert Keeps(rows, deployer, terms, worst) == Summary(rows, deployer, terms).deployerLeft;
    forall x: nat | MayCost(x, toBuy, terms)
      ensures Keeps(rows, deployer, terms, x) >= Keeps(rows, deployer, terms, worst)
    {
      EstimateIsWorst(x, toBuy, terms);
    }
  }

  /** An error for one planned wallet stops the plan, whatever comes after it. */
  lemma {:induction false} ErrorsStop(planned: seq<Planned>, i: nat, wallets: seq<WalletBalances>, livePlan: map<string, string>)
    requires i <= |planned| && PlanWallets(planned[..i], wallets, livePlan).Err?
    ensures PlanWallets(planned, wallets, livePlan) == PlanWallets(planned[..i], wallets, livePlan)
    decreases |planned|
  {
    if i == |planned| {
      assert planned[..i] == planned;
    } else {
      var init := planned[..|planned| - 1];
      assert init[..i] == planned[..i];
      ErrorsStop(init, i, wallets, livePlan);
    }
  }

  method BuildRows(planned: seq<Planned>, wallets: seq<WalletBalances>, livePlan: map<string, string>)
    returns (r: Result<seq<WalletPlan>, FundError>)
    ensures r == PlanWallets(planned, wallets, livePlan)
  {
    var rows: seq<WalletPlan> := [];
    for i := 0 to |planned|
      invariant PlanWallets(planned[..i], wallets, livePlan) == Ok(rows)
    {
      assert planned[..i + 1][..i] == planned[..i];
      var row := PlanWallet(planned[i], wallets, livePlan);
      if row.Err? {
        ErrorsStop(planned, i + 1, wallets, livePlan);
        return Err(row.error);
      }
      rows := rows + [row.value];
    }
    assert planned[..|planned|] == planned;
    return Ok(rows);
  }

  /** The plan as the script builds it: rows one by one, then the totals, then the reasons not to run. */
  method BuildFundPlan(planned: seq<Planned>, wallets: seq<WalletBalances>, deployer: Account,
                       livePlan: map<string, string>, terms: Terms) returns (r: Result<FundPlan, FundError>)
    ensures r == PlanOf(planned, wallets, deployer, livePlan, terms)
  {
    var rows := BuildRows(planned, wallets, livePlan);
    if rows.Err? { return Err(rows.error); }
    var sol, toTransfer := SolToSend(rows.value), SpyxToSend(rows.value);
    var toBuy := if toTransfer > deployer.spyx then toTransfer - deployer.spyx else 0;
    var atas := MissingAtas(rows.value) + (if deployer.hasAta then 0 else 1);
    var estimate := SwapEstimate(toBuy, terms);
    var spend := SpendOf(sol, atas, estimate, terms);
    var remainder := deployer.lamports - spend;
    var abort: Option<Abort> := None;
    if remainder < terms.minDeployer { abort := Some(DeployerTooLow); }
    if deployer.lamports < spend { abort := Some(DeployerCannotPay); }
    if !terms.hasPrices { abort := Some(NoPrices); }
    return Ok(FundPlan(rows.value, toTransfer, toBuy, sol, atas, estimate, spend, remainder, abort,
                       sol == 0 && toTransfer == 0));
  }

  // ------------------------------------------------------------ the end state

  datatype Shortfall = SolShort(role: string, amount: nat) | SpyxShort(role: string, amount: nat) | DeployerShort

  function ShortfallsOf(rows: seq<WalletPlan>): seq<Shortfall> {
    if rows == [] then [] else ShortfallsOf(rows[..|rows| - 1]) + ShortOf(rows[|rows| - 1])
  }

  function ShortOf(w: WalletPlan): seq<Shortfall> {
    (if w.account.lamports < w.goal.sol then [SolShort(w.role, w.goal.sol - w.account.lamports)] else [])
    + (if w.account.spyx < w.goal.spyx then [SpyxShort(w.role, w.goal.spyx - w.account.spyx)] else [])
  }

  method VerifyEndState(rows: seq<WalletPlan>, deployer: Account, minDeployer: nat) returns (shortfalls: seq<Shortfall>)
    ensures shortfalls == ShortfallsOf(rows) + (if deployer.lamports < minDeployer then [DeployerShort] else [])
  {
    shortfalls := [];
    for i := 0 to |rows|
      invariant shortfalls == ShortfallsOf(rows[..i])
    {
      assert rows[..i + 1][..i] == rows[..i];
      var w := rows[i];
      ghost var before := shortfalls;
      if w.account.lamports < w.goal.sol {
        shortfalls := shortfalls + [SolShort(w.role, w.goal.sol - w.account.lamports)];
      }
      if w.account.spyx < w.goal.spyx {
        shortfalls := shortfalls + [SpyxShort(w.role, w.goal.spyx - w.account.spyx)];
      }
      assert shortfalls == before + ShortOf(w);
    }
    assert rows[..|rows|] == rows;
    if deployer.lamports < minDeployer { shortfalls := shortfalls + [DeployerShort]; }
  }

  /** A complete plan and an end state without shortfalls are the same thing: every wallet meets its goal. */
  lemma {:induction false} CompleteIff(rows: seq<WalletPlan>)
    ensures ShortfallsOf(rows) == [] <==> SolToSend(rows) == 0 && SpyxToSend(rows) == 0
    ensures ShortfallsOf(rows) == [] <==>
            forall i :: 0 <= i < |rows| ==>
              rows[i].account.lamports >= rows[i].goal.sol && rows[i].account.spyx >= rows[i].goal.spyx
    decreases |rows|
  {
    if rows != [] {
      var init := rows[..|rows| - 1];
      CompleteIff(init);
      assert forall i :: 0 <= i < |init| ==> init[i] == rows[i];
    }
  }

  /** The shortfalls name exactly the wallets below their goals, with exactly what they lack. */
  lemma {:induction false} ShortfallIff(rows: seq<WalletPlan>, short: Shortfall)
    ensures short in ShortfallsOf(rows) <==> exists w :: w in rows && Lacks(w, short)
    decreases |rows|
  {
    if rows != [] {
      var n := |rows| - 1;
      ShortfallIff(rows[..n], short);
      LacksIff(rows[n], short);
      assert rows == rows[..n] + [rows[n]];
    }
  }

  predicate Lacks(w: WalletPlan, short: Shortfall) {
    match short
    case SolShort(role, amount) => w.role == role && amount > 0 && w.account.lamports + amount == w.goal.sol
    case SpyxShort(role, amount) => w.role == role && amount > 0 && w.account.spyx + amount == w.goal.spyx
    case DeployerShort => false
  }

  lemma LacksIff(w: WalletPlan, short: Shortfall)
    ensures short in ShortOf(w) <==> Lacks(w, short)
  {
  }

  /**
   * What a plan buys is what the wallets lack and the deployer does not hold, it pays for the accounts
   * that are missing, and it is complete exactly when every wallet meets its goal.
   */
  lemma SummaryIs(rows: seq<WalletPlan>, deployer: Account, terms: Terms)
    ensures var plan := Summary(rows, deployer, terms);
            && (plan.spyxToTransfer <= deployer.spyx ==> plan.spyxToBuy == 0)
            && (plan.spyxToTransfer > deployer.spyx ==> deployer.spyx + plan.spyxToBuy == plan.spyxToTransfer)
            && plan.atasToCreate == (if deployer.hasAta then 0 else 1)
                 + |set i | 0 <= i < |rows| && rows[i].goal.spyx > 0 && !rows[i].account.hasAta|
            && (plan.complete <==>
                  forall i :: 0 <= i < |rows| ==>
                    rows[i].account.lamports >= rows[i].goal.sol && rows[i].account.spyx >= rows[i].goal.spyx)
  {
    MissingAtasAre(rows);
    CompleteIff(rows);
  }
}
