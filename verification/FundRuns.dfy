/** Funding runs: the stages that send what the plan says, cut short anywhere and resumed from balances. */
module FundRuns {
  import opened Results
  import opened FundPlans

  /**
   * One transaction the stages may send, or the question before the main swap. A swap pays `lamports` and
   * delivers `received` quote units.
   */
  datatype Step =
    | SendSol(wallet: nat)
    | CreateDeployerAta
    | CreateAta(wallet: nat)
    | SendSpyx(wallet: nat)
    | Swap(lamports: nat, received: nat)
    | Confirm(yes: bool)

  datatype Failure = Crashed | CannotPay | LeavesTooLittle | Declined | SpyxMissing(wallet: nat) | NoAccount(wallet: nat)

  /**
   * The chain as funding sees it (the plan's rows with their live balances, and the deployer), what has
   * been sent so far, and how many more transactions the process survives.
   */
  datatype State = State(
    rows: seq<WalletPlan>,
    deployer: Account,
    solSent: seq<nat>,
    spyxSent: seq<nat>,
    fees: nat,
    spent: nat,
    bought: nat,
    fuel: nat)

  datatype Progress = Progress(state: State, failure: Option<Failure>)

  /** Account rent, the fee of each transaction, and what no swap may leave the deployer below. */
  datatype Costs = Costs(rent: nat, fee: Step -> nat, minDeployer: nat)

  predicate Shaped(s: State) { |s.solSent| == |s.rows| && |s.spyxSent| == |s.rows| }

  predicate Fits(s: State, step: Step) {
    match step
    case SendSol(i) => i < |s.rows|
    case CreateAta(i) => i < |s.rows|
    case SendSpyx(i) => i < |s.rows|
    case _ => true
  }

  function WithAccount(rows: seq<WalletPlan>, i: nat, a: Account): seq<WalletPlan>
    requires i < |rows|
  {
    rows[i := rows[i].(account := a)]
  }

  /** The deployer pays an amount and a fee, unless the process dies first or the money is short. */
  function Pay(s: State, amount: nat, fee: nat): Progress {
    if s.fuel == 0 then Progress(s, Some(Crashed))
    else if s.deployer.lamports < amount + fee then Progress(s, Some(CannotPay))
    else Progress(s.(deployer := s.deployer.(lamports := s.deployer.lamports - amount - fee),
                     fees := s.fees + fee, fuel := s.fuel - 1), None)
  }

  /** One stage step: skipped when its target is already met, else one transaction. */
  function Do(s: State, costs: Costs, step: Step): Progress
    requires Shaped(s) && Fits(s, step)
  {
    match step
    case SendSol(i) =>
      var w := s.rows[i];
      var amount := w.SolToSend();
      if amount == 0 then Progress(s, None)
      else
        var p := Pay(s, amount, costs.fee(step));
        if p.failure.Some? then p
        else Progress(p.state.(rows := WithAccount(s.rows, i, w.account.(lamports := w.account.lamports + amount)),
                               solSent := s.solSent[i := s.solSent[i] + amount]), None)
    case CreateDeployerAta =>
      if s.deployer.hasAta then Progress(s, None)
      else
        var p := Pay(s, costs.rent, costs.fee(step));
        if p.failure.Some? then p else Progress(p.state.(deployer := p.state.deployer.(hasAta := true)), None)
    case CreateAta(i) =>
      var w := s.rows[i];
      if !w.NeedsAta() then Progress(s, None)
      else
        var p := Pay(s, costs.rent, costs.fee(step));
        if p.failure.Some? then p
        else Progress(p.state.(rows := WithAccount(s.rows, i, w.account.(hasAta := true))), None)
    case SendSpyx(i) =>
      var w := s.rows[i];
      var amount := w.SpyxToSend();
      if amount == 0 then Progress(s, None)
      else if !w.account.hasAta then Progress(s, Some(NoAccount(i)))
      else if s.deployer.spyx < amount then Progress(s, Some(SpyxMissing(i)))
      else
        var p := Pay(s, 0, costs.fee(step));
        if p.failure.Some? then p
        else Progress(p.state.(rows := WithAccount(s.rows, i, w.account.(spyx := w.account.spyx + amount)),
                               deployer := p.state.deployer.(spyx := s.deployer.spyx - amount),
                               spyxSent := s.spyxSent[i := s.spyxSent[i] + amount]), None)
    case Swap(lamports, received) =>
      if s.deployer.lamports - lamports < costs.minDeployer then Progress(s, Some(LeavesTooLittle))
      else
      var p := Pay(s, lamports, costs.fee(step));
      if p.failure.Some? then p
      else Progress(p.state.(deployer := p.state.deployer.(spyx := s.deployer.spyx + received),
                             spent := s.spent + lamports, bought := s.bought + received), None)
    case Confirm(yes) => Progress(s, if yes then None else Some(Declined))
  }

  /** Whether a step sends a transaction, or finds its target met and is skipped. */
  predicate Sends(s: State, step: Step)
    requires Fits(s, step)
  {
    match step
    case SendSol(i) => s.rows[i].SolToSend() > 0
    case CreateDeployerAta => !s.deployer.hasAta
    case CreateAta(i) => s.rows[i].NeedsAta()
    case SendSpyx(i) => s.rows[i].SpyxToSend() > 0
    case Swap(_, _) => true
    case Confirm(_) => false
  }

  /** What a step that sends takes from the deployer, besides its fee. */
  function Amount(s: State, costs: Costs, step: Step): nat
    requires Fits(s, step)
  {
    match step
    case SendSol(i) => s.rows[i].SolToSend()
    case Swap(lamports, _) => lamports
    case SendSpyx(_) => 0
    case Confirm(_) => 0
    case _ => costs.rent
  }

  /** A transfer the deployer cannot make: no account to send to, or too few quote units. */
  predicate CannotSend(s: State, step: Step)
    requires Fits(s, step)
  {
    step.SendSpyx? && (!s.rows[step.wallet].account.hasAta || s.deployer.spyx < s.rows[step.wallet].SpyxToSend())
  }

  /** A swap that would leave the deployer below its minimum. */
  predicate TakesTooMuch(s: State, costs: Costs, step: Step) {
    step.Swap? && s.deployer.lamports < step.lamports + costs.minDeployer
  }

  predicate Fails(s: State, costs: Costs, step: Step)
    requires Fits(s, step)
  {
    || CannotSend(s, step) || TakesTooMuch(s, costs, step)
    || s.fuel == 0 || s.deployer.lamports < Amount(s, costs, step) + costs.fee(step)
  }

  /**
   * A step fails exactly when it is declined, or has something to send and cannot, and then changes
   * nothing; a step that sends costs its amount, its fee and one transaction, any other step nothing.
   */
  lemma FailsIff(s: State, costs: Costs, step: Step)
    requires Shaped(s) && Fits(s, step)
    ensures var p := Do(s, costs, step);
            && (p.failure.Some? <==> step == Confirm(false) || (Sends(s, step) && Fails(s, costs, step)))
            && (p.failure.Some? || !Sends(s, step) ==> p.state == s)
            && (p.failure.None? && Sends(s, step) ==>
                  && p.state.deployer.lamports == s.deployer.lamports - Amount(s, costs, step) - costs.fee(step)
                  && p.state.fees == s.fees + costs.fee(step) && p.state.fuel == s.fuel - 1)
            && (p.failure == Some(LeavesTooLittle) <==> TakesTooMuch(s, costs, step))
            && (p.failure == Some(CannotPay) ==> s.deployer.lamports < Amount(s, costs, step) + costs.fee(step))
            && (p.failure == Some(Crashed) ==> s.fuel == 0)
            && (step.SendSpyx? && Sends(s, step) ==>
                  && (p.failure == Some(NoAccount(step.wallet)) <==> !s.rows[step.wallet].account.hasAta)
                  && (p.failure == Some(SpyxMissing(step.wallet)) <==>
                        s.rows[step.wallet].account.hasAta && s.deployer.spyx < s.rows[step.wallet].SpyxToSend()))
  {
  }

  predicate AllFit(s: State, steps: seq<Step>) {
    Shaped(s) && forall i :: 0 <= i < |steps| ==> Fits(s, steps[i])
  }

  lemma DoKeepsShape(s: State, costs: Costs, step: Step)
    requires Shaped(s) && Fits(s, step)
    ensures Shaped(Do(s, costs, step).state) && |Do(s, costs, step).state.rows| == |s.rows|
  {
  }

  /** The steps in order, up to the first failure. */
  function Execute(s: State, costs: Costs, steps: seq<Step>): (p: Progress)
    requires AllFit(s, steps)
    ensures Shaped(p.state) && |p.state.rows| == |s.rows|
    decreases |steps|
  {
    if steps == [] then Progress(s, None)
    else
      DoKeepsShape(s, costs, steps[0]);
      var p := Do(s, costs, steps[0]);
      if p.failure.Some? then p else Execute(p.state, costs, steps[1..])
  }

  // ------------------------------------------------------------ what every step conserves

  lemma {:induction false} TotalsAfter(rows: seq<WalletPlan>, i: nat, a: Account)
    requires i < |rows|
    ensures var now, was := rows[i].(account := a), rows[i];
            && SolToSend(WithAccount(rows, i, a)) + was.SolToSend() == SolToSend(rows) + now.SolToSend()
            && SpyxToSend(WithAccount(rows, i, a)) + was.SpyxToSend() == SpyxToSend(rows) + now.SpyxToSend()
            && MissingAtas(WithAccount(rows, i, a)) + (if was.NeedsAta() then 1 else 0)
               == MissingAtas(rows) + (if now.NeedsAta() then 1 else 0)
    decreases |rows|
  {
    var n := |rows| - 1;
    var next := WithAccount(rows, i, a);
    if i < n {
      assert next[..n] == WithAccount(rows[..n], i, a);
      TotalsAfter(rows[..n], i, a);
    } else {
      assert next[..n] == rows[..n];
    }
  }

  function RentFor(rent: nat, accounts: nat): nat {
    if accounts == 0 then 0 else rent + RentFor(rent, accounts - 1)
  }

  function AtasLeft(s: State): nat { MissingAtas(s.rows) + (if s.deployer.hasAta then 0 else 1) }

  /** What the deployer has left after everything still to be sent and created, before swaps and fees. */
  function Left(s: State, rent: nat): int {
    s.deployer.lamports - SolToSend(s.rows) - RentFor(rent, AtasLeft(s))
  }

  /** The quote units the deployer holds beyond what is still to be sent. */
  function Spare(s: State): int { s.deployer.spyx - SpyxToSend(s.rows) }

  /** One wallet: sent plus lacking is constant for both assets, and a wallet that was sent anything lacks nothing. */
  predicate WalletConserved(w: WalletPlan, sol: nat, spyx: nat, v: WalletPlan, sol2: nat, spyx2: nat) {
    && v.goal == w.goal && v.role == w.role
    && sol2 + v.SolToSend() == sol + w.SolToSend()
    && spyx2 + v.SpyxToSend() == spyx + w.SpyxToSend()
    && (sol2 == sol || v.SolToSend() == 0)
    && (spyx2 == spyx || v.SpyxToSend() == 0)
    && v.SolToSend() <= w.SolToSend() && v.SpyxToSend() <= w.SpyxToSend()
    && (w.account.hasAta ==> v.account.hasAta)
  }

  predicate WalletsConserved(s: State, t: State)
    requires Shaped(s) && Shaped(t)
  {
    && |t.rows| == |s.rows|
    && forall i :: 0 <= i < |s.rows| ==>
         WalletConserved(s.rows[i], s.solSent[i], s.spyxSent[i], t.rows[i], t.solSent[i], t.spyxSent[i])
  }

  /** What the deployer has left falls by fees and swaps only; its spare quote units grow by swaps only. */
  predicate MoneyConserved(s: State, t: State, rent: nat) {
    && Left(t, rent) + t.fees + t.spent == Left(s, rent) + s.fees + s.spent
    && Spare(t) - t.bought == Spare(s) - s.bought
    && t.fees >= s.fees && t.spent >= s.spent && t.bought >= s.bought
    && (s.deployer.hasAta ==> t.deployer.hasAta)
  }

  predicate Conserves(s: State, t: State, rent: nat) {
    Shaped(s) && Shaped(t) && WalletsConserved(s, t) && MoneyConserved(s, t, rent)
  }

  lemma SolKeepsWallets(s: State, costs: Costs, i: nat)
    requires Shaped(s) && i < |s.rows|
    ensures WalletsConserved(s, Do(s, costs, SendSol(i)).state)
  {
  }

  lemma SolKeepsMoney(s: State, costs: Costs, i: nat)
    requires Shaped(s) && i < |s.rows|
    ensures MoneyConserved(s, Do(s, costs, SendSol(i)).state, costs.rent)
  {
    var w := s.rows[i];
    TotalsAfter(s.rows, i, w.account.(lamports := w.account.lamports + w.SolToSend()));
  }

  lemma AtaKeepsWallets(s: State, costs: Costs, i: nat)
    requires Shaped(s) && i < |s.rows|
    ensures WalletsConserved(s, Do(s, costs, CreateAta(i)).state)
  {
  }

  lemma AtaKeepsMoney(s: State, costs: Costs, i: nat)
    requires Shaped(s) && i < |s.rows|
    ensures MoneyConserved(s, Do(s, costs, CreateAta(i)).state, costs.rent)
  {
    var w := s.rows[i];
    TotalsAfter(s.rows, i, w.account.(hasAta := true));
  }

  lemma SpyxKeepsWallets(s: State, costs: Costs, i: nat)
    requires Shaped(s) && i < |s.rows|
    ensures WalletsConserved(s, Do(s, costs, SendSpyx(i)).state)
  {
  }

  lemma SpyxKeepsMoney(s: State, costs: Costs, i: nat)
    requires Shaped(s) && i < |s.rows|
    ensures MoneyConserved(s, Do(s, costs, SendSpyx(i)).state, costs.rent)
  {
    var w := s.rows[i];
    TotalsAfter(s.rows, i, w.account.(spyx := w.account.spyx + w.SpyxToSend()));
  }

  lemma DeployerAtaConserves(s: State, costs: Costs)
    requires Shaped(s)
    ensures Conserves(s, Do(s, costs, CreateDeployerAta).state, costs.rent)
  {
  }

  lemma SwapConserves(s: State, costs: Costs, lamports: nat, received: nat)
    requires Shaped(s)
    ensures Conserves(s, Do(s, costs, Swap(lamports, received)).state, costs.rent)
  {
  }

  lemma ConfirmConserves(s: State, costs: Costs, yes: bool)
    requires Shaped(s)
    ensures Conserves(s, Do(s, costs, Confirm(yes)).state, costs.rent)
  {
  }

  lemma DoConserves(s: State, costs: Costs, step: Step)
    requires Shaped(s) && Fits(s, step)
    ensures Conserves(s, Do(s, costs, step).state, costs.rent)
  {
    DoKeepsShape(s, costs, step);
    if step.SendSol? {
      SolKeepsWallets(s, costs, step.wallet);
      SolKeepsMoney(s, costs, step.wallet);
    } else if step.CreateAta? {
      AtaKeepsWallets(s, costs, step.wallet);
      AtaKeepsMoney(s, costs, step.wallet);
    } else if step.SendSpyx? {
      SpyxKeepsWallets(s, costs, step.wallet);
      SpyxKeepsMoney(s, costs, step.wallet);
    } else if step.Swap? {
      SwapConserves(s, costs, step.lamports, step.received);
    } else if step.Confirm? {
      ConfirmConserves(s, costs, step.yes);
    } else {
      DeployerAtaConserves(s, costs);
    }
  }

  lemma ConservesChain(s: State, t: State, u: State, rent: nat)
    requires Conserves(s, t, rent) && Conserves(t, u, rent)
    ensures Conserves(s, u, rent)
  {
    forall i | 0 <= i < |s.rows|
      ensures WalletConserved(s.rows[i], s.solSent[i], s.spyxSent[i], u.rows[i], u.solSent[i], u.spyxSent[i])
    {
      assert WalletConserved(s.rows[i], s.solSent[i], s.spyxSent[i], t.rows[i], t.solSent[i], t.spyxSent[i]);
      assert WalletConserved(t.rows[i], t.solSent[i], t.spyxSent[i], u.rows[i], u.solSent[i], u.spyxSent[i]);
    }
  }

  lemma {:induction false} ExecuteConserves(s: State, costs: Costs, steps: seq<Step>)
    requires AllFit(s, steps)
    ensures Conserves(s, Execute(s, costs, steps).state, costs.rent)
    decreases |steps|
  {
    if steps != [] {
      var p := Do(s, costs, steps[0]);
      DoConserves(s, costs, steps[0]);
      if p.failure.None? {
        ExecuteConserves(p.state, costs, steps[1..]);
        ConservesChain(s, p.state, Execute(p.state, costs, steps[1..]).state, costs.rent);
      }
    }
  }
}
