/** Resuming a funding run: what has been sent, and the plan built on the new balances. */
module FundResume {
  import opened Results
  import opened FundPlans
  import opened FundRuns

  // ------------------------------------------------------------ crashes and resumes

  /** One process: it survives `fuel` transactions of whatever steps it takes. */
  datatype Attempt = Attempt(steps: seq<Step>, fuel: nat)

  predicate AttemptsFit(s: State, attempts: seq<Attempt>) {
    Shaped(s) && forall k :: 0 <= k < |attempts| ==> AllFit(s, attempts[k].steps)
  }

  lemma FitsCarries(s: State, t: State, attempts: seq<Attempt>)
    requires AttemptsFit(s, attempts) && Shaped(t) && |t.rows| == |s.rows|
    ensures AttemptsFit(t, attempts)
  {
    forall k | 0 <= k < |attempts| ensures AllFit(t, attempts[k].steps) {
      var steps := attempts[k].steps;
      assert AllFit(s, steps);
      forall i | 0 <= i < |steps| ensures Fits(t, steps[i]) {
        assert Fits(s, steps[i]);
      }
    }
  }

  function Attempted(s: State, costs: Costs, a: Attempt): (t: State)
    requires AllFit(s, a.steps)
    ensures Shaped(t) && |t.rows| == |s.rows|
  {
    var started := s.(fuel := a.fuel);
    assert AllFit(started, a.steps) by { assert forall i :: 0 <= i < |a.steps| ==> Fits(s, a.steps[i]) ==> Fits(started, a.steps[i]); }
    Execute(started, costs, a.steps).state
  }

  function Resumed(s: State, costs: Costs, attempts: seq<Attempt>): (t: State)
    requires AttemptsFit(s, attempts)
    ensures Shaped(t) && |t.rows| == |s.rows|
    decreases |attempts|
  {
    if attempts == [] then s
    else
      var t := Attempted(s, costs, attempts[0]);
      FitsCarries(s, t, attempts[1..]);
      Resumed(t, costs, attempts[1..])
  }

  lemma {:induction false} ResumedConserves(s: State, costs: Costs, attempts: seq<Attempt>)
    requires AttemptsFit(s, attempts)
    ensures Conserves(s, Resumed(s, costs, attempts), costs.rent)
    decreases |attempts|
  {
    if attempts != [] {
      var t := Attempted(s, costs, attempts[0]);
      AttemptConserves(s, costs, attempts[0]);
      FitsCarries(s, t, attempts[1..]);
      ResumedConserves(t, costs, attempts[1..]);
      ConservesChain(s, t, Resumed(t, costs, attempts[1..]), costs.rent);
    }
  }

  lemma AttemptConserves(s: State, costs: Costs, a: Attempt)
    requires AllFit(s, a.steps)
    ensures Conserves(s, Attempted(s, costs, a), costs.rent)
  {
    var started := s.(fuel := a.fuel);
    assert forall i :: 0 <= i < |a.steps| ==> Fits(s, a.steps[i]) ==> Fits(started, a.steps[i]);
    ExecuteConserves(started, costs, a.steps);
    FuelDoesNotCount(s, started, Execute(started, costs, a.steps).state, costs.rent);
  }

  lemma FuelDoesNotCount(s: State, started: State, t: State, rent: nat)
    requires started == s.(fuel := started.fuel) && Shaped(s) && Conserves(started, t, rent)
    ensures Conserves(s, t, rent)
  {
  }

  /** Nothing has been sent yet. */
  predicate Untouched(s: State) {
    && Shaped(s) && s.fees == s.spent == s.bought == 0
    && forall i :: 0 <= i < |s.rows| ==> s.solSent[i] == 0 && s.spyxSent[i] == 0
  }

  /**
   * Resume exactness: however often the process dies and restarts, whatever steps each attempt got
   * through, each wallet has been sent either nothing or exactly its first shortfall, and what the
   * plan on the present balances still wants to send is exactly the rest.
   */
  lemma ResumeIsExact(s: State, costs: Costs, attempts: seq<Attempt>, i: nat)
    requires Untouched(s) && AttemptsFit(s, attempts) && i < |s.rows|
    ensures var t := Resumed(s, costs, attempts);
            && t.solSent[i] + t.rows[i].SolToSend() == s.rows[i].SolToSend()
            && t.spyxSent[i] + t.rows[i].SpyxToSend() == s.rows[i].SpyxToSend()
            && (t.solSent[i] == 0 || t.solSent[i] == s.rows[i].SolToSend())
            && (t.spyxSent[i] == 0 || t.spyxSent[i] == s.rows[i].SpyxToSend())
  {
    ResumedConserves(s, costs, attempts);
    var t := Resumed(s, costs, attempts);
    assert WalletConserved(s.rows[i], s.solSent[i], s.spyxSent[i], t.rows[i], t.solSent[i], t.spyxSent[i]);
  }

  // ------------------------------------------------------------ the plan on the new balances

  /** What reading every planned wallet finds. */
  function ReadBack(planned: seq<Planned>, rows: seq<WalletPlan>): (ws: seq<WalletBalances>)
    requires |rows| == |planned|
    ensures |ws| == |planned|
    ensures forall i :: 0 <= i < |ws| ==> ws[i] == WalletBalances(planned[i].role, planned[i].pubkey, rows[i].account)
  {
    if planned == [] then []
    else [WalletBalances(planned[0].role, planned[0].pubkey, rows[0].account)] + ReadBack(planned[1..], rows[1..])
  }

  predicate DistinctRoles(planned: seq<Planned>) {
    forall i, j :: 0 <= i < j < |planned| ==> planned[i].role != planned[j].role
  }

  lemma {:induction false} FindAt(ws: seq<WalletBalances>, i: nat)
    requires i < |ws| && forall j :: 0 <= j < i ==> ws[j].role != ws[i].role
    ensures Find(ws, ws[i].role) == Some(ws[i])
  {
    if i > 0 {
      assert ws[0].role != ws[i].role;
      FindAt(ws[1..], i - 1);
    }
  }

  predicate SameGoals(rows: seq<WalletPlan>, was: seq<WalletPlan>) {
    |rows| == |was| && forall i :: 0 <= i < |rows| ==> rows[i].goal == was[i].goal && rows[i].role == was[i].role
  }

  /** Goals come from the plan table and the live requirements, never from balances. */
  lemma {:induction false} ReplannedRows(planned: seq<Planned>, n: nat, wallets: seq<WalletBalances>,
                                         livePlan: map<string, string>, was: seq<WalletPlan>, rows: seq<WalletPlan>)
    requires DistinctRoles(planned) && n <= |planned| == |rows| && SameGoals(rows, was)
    requires PlanWallets(planned[..n], wallets, livePlan) == Ok(was[..n])
    ensures PlanWallets(planned[..n], ReadBack(planned, rows), livePlan) == Ok(rows[..n])
    decreases n
  {
    if n == 0 {
      assert planned[..0] == [] && rows[..0] == [];
    } else {
      var i := n - 1;
      assert planned[..n][..i] == planned[..i] && rows[..n] == rows[..i] + [rows[i]];
      assert was[..n][..i] == was[..i] && was[..n][i] == was[i];
      PlannedPrefix(planned[..n], wallets, livePlan, was[..n]);
      ReplannedRows(planned, i, wallets, livePlan, was, rows);
      ReplannedRow(planned, i, wallets, livePlan, was[i], rows);
    }
  }

  lemma ReplannedRow(planned: seq<Planned>, i: nat, wallets: seq<WalletBalances>, livePlan: map<string, string>,
                     was: WalletPlan, rows: seq<WalletPlan>)
    requires DistinctRoles(planned) && i < |planned| == |rows|
    requires PlanWallet(planned[i], wallets, livePlan) == Ok(was) && rows[i].goal == was.goal && rows[i].role == was.role
    ensures PlanWallet(planned[i], ReadBack(planned, rows), livePlan) == Ok(rows[i])
  {
    FindAt(ReadBack(planned, rows), i);
  }

  lemma PlannedPrefix(planned: seq<Planned>, wallets: seq<WalletBalances>, livePlan: map<string, string>, rows: seq<WalletPlan>)
    requires planned != [] && PlanWallets(planned, wallets, livePlan) == Ok(rows)
    ensures |rows| == |planned|
    ensures PlanWallets(planned[..|planned| - 1], wallets, livePlan) == Ok(rows[..|planned| - 1])
    ensures PlanWallet(planned[|planned| - 1], wallets, livePlan) == Ok(rows[|planned| - 1])
  {
    var init := PlanWallets(planned[..|planned| - 1], wallets, livePlan);
    assert init.Ok? && rows == init.value + [rows[|planned| - 1]];
  }

  /** Planning again after any interrupted funding gives the summary of the rows as they now stand. */
  lemma ReplanIsSummary(planned: seq<Planned>, wallets: seq<WalletBalances>, livePlan: map<string, string>, terms: Terms,
                        was: seq<WalletPlan>, s: State)
    requires DistinctRoles(planned) && PlanWallets(planned, wallets, livePlan) == Ok(was) && SameGoals(s.rows, was)
    ensures PlanOf(planned, ReadBack(planned, s.rows), s.deployer, livePlan, terms) == Ok(Summary(s.rows, s.deployer, terms))
  {
    var n := |planned|;
    assert planned[..n] == planned && was[..n] == was && s.rows[..n] == s.rows;
    ReplannedRows(planned, n, wallets, livePlan, was, s.rows);
  }

  lemma {:induction false} RentIsProduct(rent: nat, n: nat)
    ensures RentFor(rent, n) == rent * n
  {
    if n > 0 {
      RentIsProduct(rent, n - 1);
      RentTimes(rent, n - 1);
    }
  }

  lemma RentTimes(rent: nat, n: nat)
    ensures rent * (n + 1) == rent * n + rent
  {
  }

  lemma SummaryLeft(s: State, terms: Terms)
    ensures Summary(s.rows, s.deployer, terms).deployerLeft
         == Left(s, terms.rent) - SwapEstimate(Missing(SpyxToSend(s.rows), s.deployer.spyx), terms) - terms.feeBuffer
  {
    RentIsProduct(terms.rent, AtasLeft(s));
  }

  /**
   * SOL, account and quote transfers leave what is to be bought and its estimate unchanged, and what
   * the plan leaves the deployer falls by exactly the fees paid.
   */
  lemma TransfersKeepThePlan(s: State, t: State, terms: Terms)
    requires Conserves(s, t, terms.rent) && t.bought == s.bought && t.spent == s.spent
    ensures var was, now := Summary(s.rows, s.deployer, terms), Summary(t.rows, t.deployer, terms);
            && now.spyxToBuy == was.spyxToBuy && now.swapEstimate == was.swapEstimate
            && now.deployerLeft == was.deployerLeft - (t.fees - s.fees)
  {
    SummaryLeft(s, terms);
    SummaryLeft(t, terms);
    assert Missing(SpyxToSend(t.rows), t.deployer.spyx) == Missing(SpyxToSend(s.rows), s.deployer.spyx);
  }

  lemma AbortIff(s: State, terms: Terms)
    requires terms.hasPrices
    ensures var plan := Summary(s.rows, s.deployer, terms);
            plan.abort.None? <==> plan.deployerLeft >= terms.minDeployer
  {
  }

  /**
   * Whatever happened in between, a resume is refused exactly when the fees paid, the lamports swapped
   * and the growth of the swap estimate together exceed the margin the first plan left: the fee buffer
   * is set aside anew, and a swap lowers the estimate only by what it bought.
   */
  lemma ResumeAbortsIff(s: State, t: State, terms: Terms)
    requires Conserves(s, t, terms.rent) && Summary(s.rows, s.deployer, terms).abort.None?
    ensures var was, now := Summary(s.rows, s.deployer, terms), Summary(t.rows, t.deployer, terms);
            now.abort.Some? <==>
              (t.fees - s.fees) + (t.spent - s.spent) + now.swapEstimate - was.swapEstimate
              > was.deployerLeft - terms.minDeployer
  {
    SummaryLeft(s, terms);
    SummaryLeft(t, terms);
    AbortIff(s, terms);
    AbortIff(t, terms);
  }

  /** Without a swap in between, the fees alone decide. */
  lemma TransfersAbortIff(s: State, t: State, terms: Terms)
    requires Conserves(s, t, terms.rent) && t.bought == s.bought && t.spent == s.spent
    requires Summary(s.rows, s.deployer, terms).abort.None?
    ensures Summary(t.rows, t.deployer, terms).abort.Some? <==>
            t.fees - s.fees > Summary(s.rows, s.deployer, terms).deployerLeft - terms.minDeployer
  {
    ResumeAbortsIff(s, t, terms);
    TransfersKeepThePlan(s, t, terms);
  }
}
