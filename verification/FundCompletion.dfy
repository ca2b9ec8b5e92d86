/** A plan that may run, with its fees inside the buffer and its swaps inside the estimate, funds every wallet. */
module FundCompletion {
  import opened Results
  import opened FundPlans
  import opened FundRuns
  import opened FundResume
  import opened FundStages

  // ------------------------------------------------------------ what a run costs

  /** Fees and number of the transactions that steps send; skipped steps cost nothing. */
  datatype Charge = Charge(fees: nat, txs: nat)

  function StepCharge(s: State, costs: Costs, step: Step): Charge
    requires Fits(s, step)
  {
    if Sends(s, step) then Charge(costs.fee(step), 1) else Charge(0, 0)
  }

  function Plus(a: Charge, b: Charge): Charge { Charge(a.fees + b.fees, a.txs + b.txs) }

  function Charged(s: State, costs: Costs, steps: seq<Step>): Charge
    requires AllFit(s, steps)
    decreases |steps|
  {
    if steps == [] then Charge(0, 0)
    else
      DoKeepsShape(s, costs, steps[0]);
      var p := Do(s, costs, steps[0]);
      Plus(StepCharge(s, costs, steps[0]), if p.failure.Some? then Charge(0, 0) else Charged(p.state, costs, steps[1..]))
  }

  lemma {:induction false} ChargedJoin(s: State, costs: Costs, a: seq<Step>, b: seq<Step>)
    requires AllFit(s, a) && AllFit(s, b)
    ensures AllFit(s, a + b) && AllFit(Execute(s, costs, a).state, b)
    ensures var p := Execute(s, costs, a);
            Charged(s, costs, a + b)
            == Plus(Charged(s, costs, a), if p.failure.Some? then Charge(0, 0) else Charged(p.state, costs, b))
    decreases |a|
  {
    FitsJoin(s, a, b);
    FitsSameShape(s, Execute(s, costs, a).state, b);
    if a == [] {
      assert a + b == b;
    } else {
      var p := Do(s, costs, a[0]);
      assert (a + b)[0] == a[0] && (a + b)[1..] == a[1..] + b;
      DoKeepsShape(s, costs, a[0]);
      if p.failure.None? {
        FitsSameShape(s, p.state, a[1..]);
        FitsSameShape(s, p.state, b);
        ChargedJoin(p.state, costs, a[1..], b);
      }
    }
  }

  function SwapCost(step: Step): nat { if step.Swap? then step.lamports else 0 }

  function SwapSum(steps: seq<Step>): nat {
    if steps == [] then 0 else SwapCost(steps[0]) + SwapSum(steps[1..])
  }

  function Delivered(steps: seq<Step>): nat {
    if steps == [] then 0 else (if steps[0].Swap? then steps[0].received else 0) + Delivered(steps[1..])
  }

  lemma {:induction false} SwapSumJoin(a: seq<Step>, b: seq<Step>)
    ensures SwapSum(a + b) == SwapSum(a) + SwapSum(b)
    decreases |a|
  {
    if a == [] {
      assert a + b == b;
    } else {
      assert (a + b)[1..] == a[1..] + b;
      SwapSumJoin(a[1..], b);
    }
  }

  lemma {:induction false} NoSwaps(steps: seq<Step>)
    requires forall i :: 0 <= i < |steps| ==> !steps[i].Swap?
    ensures SwapSum(steps) == 0 && Delivered(steps) == 0
  {
    if steps != [] {
      NoSwaps(steps[1..]);
    }
  }

  // ------------------------------------------------------------ affordable steps succeed

  /** Beyond everything still to be sent, the deployer has its minimum and `budget` more. */
  predicate Affords(s: State, costs: Costs, budget: int) {
    Shaped(s) && Left(s, costs.rent) >= costs.minDeployer + budget
  }

  lemma {:induction false} PartOfTotal(rows: seq<WalletPlan>, i: nat)
    requires i < |rows|
    ensures rows[i].SolToSend() <= SolToSend(rows) && rows[i].SpyxToSend() <= SpyxToSend(rows)
    ensures rows[i].NeedsAta() ==> MissingAtas(rows) >= 1
    decreases |rows|
  {
    if i < |rows| - 1 {
      PartOfTotal(rows[..|rows| - 1], i);
    }
  }

  /** A wallet whose quote transfer would be skipped or finds its account. */
  predicate HasAccount(s: State, i: nat)
    requires i < |s.rows|
  {
    s.rows[i].account.hasAta || s.rows[i].SpyxToSend() == 0
  }

  /** What a step needs besides money. */
  predicate Ready(s: State, step: Step)
    requires Fits(s, step)
  {
    && (step.SendSpyx? ==> Spare(s) >= 0 && HasAccount(s, step.wallet))
    && (step.Confirm? ==> step.yes)
  }

  /** The step succeeded at its charge and its swap, and `budget` is left. */
  predicate Succeeded(s: State, costs: Costs, step: Step, budget: nat)
    requires Shaped(s) && Fits(s, step)
  {
    var p := Do(s, costs, step);
    && p.failure.None? && Affords(p.state, costs, budget) && |p.state.rows| == |s.rows|
    && p.state.fuel == s.fuel - StepCharge(s, costs, step).txs
  }

  /** An affordable step succeeds, and costs its charge and its swap. */
  lemma StepSucceeds(s: State, costs: Costs, step: Step, budget: nat)
    requires Fits(s, step) && Ready(s, step) && s.fuel >= StepCharge(s, costs, step).txs
    requires Affords(s, costs, budget + StepCharge(s, costs, step).fees + SwapCost(step))
    ensures Succeeded(s, costs, step, budget)
  {
    match step
    case SendSol(i) => SolSucceeds(s, costs, i, budget);
    case SendSpyx(i) => SpyxSucceeds(s, costs, i, budget);
    case CreateAta(i) => AccountSucceeds(s, costs, i, budget);
    case _ => DoConserves(s, costs, step);
  }

  lemma SolSucceeds(s: State, costs: Costs, i: nat, budget: nat)
    requires i < |s.rows| && s.fuel >= StepCharge(s, costs, SendSol(i)).txs
    requires Affords(s, costs, budget + StepCharge(s, costs, SendSol(i)).fees)
    ensures Succeeded(s, costs, SendSol(i), budget)
  {
    DoConserves(s, costs, SendSol(i));
    PartOfTotal(s.rows, i);
  }

  lemma SpyxSucceeds(s: State, costs: Costs, i: nat, budget: nat)
    requires i < |s.rows| && Ready(s, SendSpyx(i)) && s.fuel >= StepCharge(s, costs, SendSpyx(i)).txs
    requires Affords(s, costs, budget + StepCharge(s, costs, SendSpyx(i)).fees)
    ensures Succeeded(s, costs, SendSpyx(i), budget)
  {
    DoConserves(s, costs, SendSpyx(i));
    PartOfTotal(s.rows, i);
  }

  lemma AccountSucceeds(s: State, costs: Costs, i: nat, budget: nat)
    requires i < |s.rows| && s.fuel >= StepCharge(s, costs, CreateAta(i)).txs
    requires Affords(s, costs, budget + StepCharge(s, costs, CreateAta(i)).fees)
    ensures Succeeded(s, costs, CreateAta(i), budget)
  {
    DoConserves(s, costs, CreateAta(i));
    PartOfTotal(s.rows, i);
  }

  /** Every quote transfer comes after its account step, or finds the account there. */
  predicate AccountsFirst(s: State, steps: seq<Step>)
    requires AllFit(s, steps)
  {
    forall k :: 0 <= k < |steps| && steps[k].SendSpyx? ==>
      Fits(s, steps[k]) && (HasAccount(s, steps[k].wallet) || CreateAta(steps[k].wallet) in steps[..k])
  }

  lemma AccountStays(s: State, t: State, rent: nat, i: nat)
    requires Conserves(s, t, rent) && i < |s.rows| && HasAccount(s, i)
    ensures HasAccount(t, i)
  {
    assert WalletConserved(s.rows[i], s.solSent[i], s.spyxSent[i], t.rows[i], t.solSent[i], t.spyxSent[i]);
  }

  lemma CreatesAccount(s: State, costs: Costs, i: nat)
    requires Shaped(s) && i < |s.rows| && Do(s, costs, CreateAta(i)).failure.None?
    ensures |Do(s, costs, CreateAta(i)).state.rows| == |s.rows| && HasAccount(Do(s, costs, CreateAta(i)).state, i)
  {
  }

  lemma AccountsFirstLater(s: State, costs: Costs, steps: seq<Step>)
    requires steps != [] && AllFit(s, steps) && AccountsFirst(s, steps)
    requires Fits(s, steps[0]) && Do(s, costs, steps[0]).failure.None?
    ensures var next := Do(s, costs, steps[0]).state;
            AllFit(next, steps[1..]) && AccountsFirst(next, steps[1..])
  {
    var next, rest := Do(s, costs, steps[0]).state, steps[1..];
    DoConserves(s, costs, steps[0]);
    FitsSameShape(s, next, steps);
    assert forall k :: 0 <= k < |rest| ==> rest[k] == steps[k + 1] && Fits(next, rest[k]);
    forall k | 0 <= k < |rest| && rest[k].SendSpyx?
      ensures HasAccount(next, rest[k].wallet) || CreateAta(rest[k].wallet) in rest[..k]
    {
      var i := rest[k].wallet;
      if HasAccount(s, i) {
        AccountStays(s, next, costs.rent, i);
      } else {
        assert CreateAta(i) in steps[..k + 1];
        assert steps[..k + 1] == [steps[0]] + rest[..k];
        if steps[0] == CreateAta(i) {
          CreatesAccount(s, costs, i);
        }
      }
    }
  }

  predicate NoTransfers(steps: seq<Step>) { forall i :: 0 <= i < |steps| ==> !steps[i].SendSpyx? }

  /** Every question among the steps is answered yes. */
  predicate NoneDeclined(steps: seq<Step>) { forall i :: 0 <= i < |steps| && steps[i].Confirm? ==> steps[i].yes }

  /** A question answered no ends a run, if nothing ended it before. */
  lemma {:induction false} DeclinedFails(s: State, costs: Costs, steps: seq<Step>)
    requires AllFit(s, steps) && !NoneDeclined(steps)
    ensures Execute(s, costs, steps).failure.Some?
    decreases |steps|
  {
    var i :| 0 <= i < |steps| && steps[i].Confirm? && !steps[i].yes;
    assert Fits(s, steps[0]);
    DoKeepsShape(s, costs, steps[0]);
    var p := Do(s, costs, steps[0]);
    if i > 0 && p.failure.None? {
      FitsSameShape(s, p.state, steps);
      assert steps[1..][i - 1] == steps[i];
      DeclinedFails(p.state, costs, steps[1..]);
    }
  }

  /** Steps that the deployer can afford in all succeed one after the other. */
  lemma {:induction false} PartSucceeds(s: State, costs: Costs, steps: seq<Step>, budget: nat)
    requires AllFit(s, steps) && AccountsFirst(s, steps) && (NoTransfers(steps) || Spare(s) >= 0) && NoneDeclined(steps)
    requires s.fuel >= Charged(s, costs, steps).txs
    requires Affords(s, costs, budget + Charged(s, costs, steps).fees + SwapSum(steps))
    ensures var p := Execute(s, costs, steps);
            && p.failure.None? && Affords(p.state, costs, budget)
            && p.state.fuel == s.fuel - Charged(s, costs, steps).txs
    decreases |steps|
  {
    if steps != [] {
      assert Fits(s, steps[0]);
      var step, rest := steps[0], steps[1..];
      DoKeepsShape(s, costs, step);
      var later: nat := Charged(s, costs, steps).fees - StepCharge(s, costs, step).fees;
      assert steps[..0] == [];
      StepSucceeds(s, costs, step, budget + later + SwapSum(rest));
      AccountsFirstLater(s, costs, steps);
      SpareNeverFalls(s, costs, step);
      PartSucceeds(Do(s, costs, step).state, costs, rest, budget);
    }
  }

  lemma SpareNeverFalls(s: State, costs: Costs, step: Step)
    requires Shaped(s) && Fits(s, step)
    ensures Spare(Do(s, costs, step).state) >= Spare(s)
  {
    DoConserves(s, costs, step);
  }

  // ------------------------------------------------------------ the SOL stage

  predicate SolMet(s: State, n: nat)
    requires n <= |s.rows|
  {
    forall i :: 0 <= i < n ==> s.rows[i].SolToSend() == 0
  }

  lemma MetStays(s: State, t: State, rent: nat, n: nat)
    requires Conserves(s, t, rent) && n <= |s.rows| && SolMet(s, n)
    ensures SolMet(t, n)
  {
    forall i | 0 <= i < n ensures t.rows[i].SolToSend() == 0 {
      assert WalletConserved(s.rows[i], s.solSent[i], s.spyxSent[i], t.rows[i], t.solSent[i], t.spyxSent[i]);
    }
  }

  lemma OneStep(s: State, costs: Costs, step: Step)
    requires AllFit(s, [step])
    ensures Execute(s, costs, [step]) == Do(s, costs, step)
  {
    assert Fits(s, [step][0]);
    DoKeepsShape(s, costs, step);
    assert [step][1..] == [];
  }

  /** One more wallet's SOL, after the ones before it. */
  lemma LastSolStep(s: State, costs: Costs, n: nat)
    requires Shaped(s) && n < |s.rows| && SolMet(s, n) && Do(s, costs, SendSol(n)).failure.None?
    ensures Shaped(Do(s, costs, SendSol(n)).state) && |Do(s, costs, SendSol(n)).state.rows| == |s.rows|
    ensures SolMet(Do(s, costs, SendSol(n)).state, n + 1)
  {
    var t := Do(s, costs, SendSol(n)).state;
    DoConserves(s, costs, SendSol(n));
    MetStays(s, t, costs.rent, n);
  }

  lemma {:induction false} SolStageMeets(s: State, costs: Costs, n: nat)
    requires Shaped(s) && n <= |s.rows| && AllFit(s, SolSteps(n))
    ensures var p := Execute(s, costs, SolSteps(n));
            p.failure.None? ==> SolMet(p.state, n)
    decreases n
  {
    if n > 0 {
      SolStepsSplit(s, costs, n);
      SolStageMeets(s, costs, n - 1);
      var p := Execute(s, costs, SolSteps(n - 1));
      if p.failure.None? && Do(p.state, costs, SendSol(n - 1)).failure.None? {
        LastSolStep(p.state, costs, n - 1);
      }
    }
  }

  lemma SolStepsSplit(s: State, costs: Costs, n: nat)
    requires Shaped(s) && 0 < n <= |s.rows| && AllFit(s, SolSteps(n))
    ensures AllFit(s, SolSteps(n - 1))
    ensures var p := Execute(s, costs, SolSteps(n - 1));
            Execute(s, costs, SolSteps(n)) == if p.failure.Some? then p else Do(p.state, costs, SendSol(n - 1))
  {
    var one := [SendSol(n - 1)];
    assert forall i :: 0 <= i < n - 1 ==> SolSteps(n - 1)[i] == SolSteps(n)[i];
    assert AllFit(s, one);
    ExecuteJoin(s, costs, SolSteps(n - 1), one);
    OneStep(Execute(s, costs, SolSteps(n - 1)).state, costs, SendSol(n - 1));
  }

  // ------------------------------------------------------------ the quote stage

  predicate SpyxMet(s: State, n: nat)
    requires n <= |s.rows|
  {
    forall i :: 0 <= i < n ==> s.rows[i].SpyxToSend() == 0
  }

  lemma SpyxMetStays(s: State, t: State, rent: nat, n: nat)
    requires Conserves(s, t, rent) && n <= |s.rows| && SpyxMet(s, n)
    ensures SpyxMet(t, n)
  {
    forall i | 0 <= i < n ensures t.rows[i].SpyxToSend() == 0 {
      assert WalletConserved(s.rows[i], s.solSent[i], s.spyxSent[i], t.rows[i], t.solSent[i], t.spyxSent[i]);
    }
  }

  function WalletSteps(i: nat): seq<Step> { [CreateAta(i), SendSpyx(i)] }

  /** The account step, then the transfer. */
  lemma WalletStepsAre(s: State, costs: Costs, i: nat)
    requires Shaped(s) && i < |s.rows|
    ensures AllFit(s, WalletSteps(i))
    ensures var p := Do(s, costs, CreateAta(i));
            && Shaped(p.state) && |p.state.rows| == |s.rows|
            && Execute(s, costs, WalletSteps(i)) == (if p.failure.Some? then p else Do(p.state, costs, SendSpyx(i)))
  {
    var one, two := [CreateAta(i)], [SendSpyx(i)];
    assert AllFit(s, one) && AllFit(s, two) && WalletSteps(i) == one + two;
    ExecuteJoin(s, costs, one, two);
    OneStep(s, costs, CreateAta(i));
    DoKeepsShape(s, costs, CreateAta(i));
    OneStep(Do(s, costs, CreateAta(i)).state, costs, SendSpyx(i));
  }

  lemma TransferStep(s: State, costs: Costs, i: nat)
    requires Shaped(s) && i < |s.rows| && SpyxMet(s, i) && Do(s, costs, SendSpyx(i)).failure.None?
    ensures var t := Do(s, costs, SendSpyx(i)).state;
            Shaped(t) && |t.rows| == |s.rows| && SpyxMet(t, i + 1) && Spare(t) == Spare(s)
  {
    DoConserves(s, costs, SendSpyx(i));
    SpyxMetStays(s, Do(s, costs, SendSpyx(i)).state, costs.rent, i);
  }

  lemma SpyxStepsSplit(s: State, costs: Costs, n: nat)
    requires Shaped(s) && 0 < n <= |s.rows| && AllFit(s, SpyxSteps(n))
    ensures AllFit(s, SpyxSteps(n - 1))
    ensures var p := Execute(s, costs, SpyxSteps(n - 1));
            && AllFit(p.state, WalletSteps(n - 1))
            && Execute(s, costs, SpyxSteps(n)) == (if p.failure.Some? then p else Execute(p.state, costs, WalletSteps(n - 1)))
  {
    var before, pair := SpyxSteps(n - 1), WalletSteps(n - 1);
    assert SpyxSteps(n) == before + pair;
    assert forall i :: 0 <= i < |before| ==> before[i] == SpyxSteps(n)[i];
    assert AllFit(s, pair);
    ExecuteJoin(s, costs, before, pair);
  }

  lemma SpyxStepsOpenAccounts(s: State, n: nat)
    requires Shaped(s) && n <= |s.rows| && AllFit(s, SpyxSteps(n))
    ensures AccountsFirst(s, SpyxSteps(n))
  {
    var steps := SpyxSteps(n);
    SpyxLength(n);
    forall k | 0 <= k < |steps| && steps[k].SendSpyx?
      ensures Fits(s, steps[k]) && CreateAta(steps[k].wallet) in steps[..k]
    {
      SpyxPrefix(k / 2, n);
      assert k == 2 * (k / 2) + 1;
      assert steps[..k][k - 1] == CreateAta(steps[k].wallet);
    }
  }

  /** The first `n` wallets hold their targets, and the deployer no more to spare than before. */
  predicate QuoteStageDone(s: State, t: State, n: nat) {
    n <= |t.rows| && SpyxMet(t, n) && Spare(t) == Spare(s)
  }

  lemma QuoteStageNext(s: State, t: State, u: State, i: nat)
    requires QuoteStageDone(s, t, i) && i < |u.rows| && SpyxMet(u, i + 1) && Spare(u) == Spare(t)
    ensures QuoteStageDone(s, u, i + 1)
  {
  }

  /** However a quote stage succeeded, every wallet it passed holds its target. */
  lemma {:induction false} SpyxStageMeets(s: State, costs: Costs, n: nat)
    requires Shaped(s) && n <= |s.rows| && AllFit(s, SpyxSteps(n)) && Execute(s, costs, SpyxSteps(n)).failure.None?
    ensures QuoteStageDone(s, Execute(s, costs, SpyxSteps(n)).state, n)
    decreases n
  {
    if n > 0 {
      SpyxStepsSplit(s, costs, n);
      var t := Execute(s, costs, SpyxSteps(n - 1)).state;
      SpyxStageMeets(s, costs, n - 1);
      WalletStageMeets(t, costs, n - 1);
      QuoteStageNext(s, t, Execute(t, costs, WalletSteps(n - 1)).state, n - 1);
    }
  }

  lemma WalletStageMeets(s: State, costs: Costs, i: nat)
    requires Shaped(s) && i < |s.rows| && SpyxMet(s, i) && AllFit(s, WalletSteps(i))
    requires Execute(s, costs, WalletSteps(i)).failure.None?
    ensures var t := Execute(s, costs, WalletSteps(i)).state;
            SpyxMet(t, i + 1) && Spare(t) == Spare(s)
  {
    WalletStepsAre(s, costs, i);
    DoConserves(s, costs, CreateAta(i));
    var t := Do(s, costs, CreateAta(i)).state;
    SpyxMetStays(s, t, costs.rent, i);
    TransferStep(t, costs, i);
  }

  // ------------------------------------------------------------ the swaps

  lemma {:induction false} BoughtIs(s: State, costs: Costs, steps: seq<Step>)
    requires AllFit(s, steps) && Execute(s, costs, steps).failure.None?
    ensures Execute(s, costs, steps).state.bought == s.bought + Delivered(steps)
    decreases |steps|
  {
    if steps != [] {
      assert Fits(s, steps[0]);
      DoKeepsShape(s, costs, steps[0]);
      FitsSameShape(s, Do(s, costs, steps[0]).state, steps);
      BoughtIs(Do(s, costs, steps[0]).state, costs, steps[1..]);
    }
  }

  /** The main swap's check: what arrives covers what the stage must deliver. */
  ghost predicate Delivers(m: Market) {
    forall n: nat :: m.main(n).received >= n
  }

  /** No settled main swap leaves a shortage behind: one that landed in an interrupted run is not topped up. */
  predicate Covered(have: nat, needed: nat, settled: Settled, m: Market) {
    settled.main && needed > have ==> needed <= AfterTest(have, settled, m)
  }

  lemma SwapsDeliver(a: seq<Step>, b: seq<Step>)
    requires |a| <= 1 && |b| <= 1
    ensures Delivered(a + b) == Delivered(a) + Delivered(b)
  {
    if a == [] {
      assert a + b == b;
    } else {
      assert (a + b)[1..] == b && a[1..] == [];
    }
  }

  lemma OneSwap(b: Buy)
    ensures Delivered([SwapOf(b)]) == b.received
  {
    assert [SwapOf(b)][1..] == [];
  }

  /** Test and main swap together deliver what is missing, exactly unless a settled main swap fell short. */
  lemma BuysEnoughIff(have: nat, needed: nat, settled: Settled, m: Market)
    requires Delivers(m)
    ensures have + Delivered(BuySteps(have, needed, settled, m)) >= needed <==> Covered(have, needed, settled, m)
  {
    if needed > have {
      var after := AfterTest(have, settled, m);
      var test: seq<Step> := if settled.test then [] else [SwapOf(m.test)];
      var main: seq<Step> := if needed > after && !settled.main then [SwapOf(m.main(needed - after))] else [];
      SwapsDeliver(test, main);
      OneSwap(m.test);
      if needed > after {
        OneSwap(m.main(needed - after));
        assert m.main(needed - after).received >= needed - after;
      }
    }
  }

  predicate CoveredFor(s: State, settled: Settled, m: Market) {
    Covered(s.deployer.spyx, SpyxToSend(s.rows), settled, m)
  }

  /** The main swap, when it is come to, is confirmed. */
  predicate ConfirmedFor(s: State, settled: Settled, m: Market) {
    var have, needed := s.deployer.spyx, SpyxToSend(s.rows);
    needed > have && needed > AfterTest(have, settled, m) ==> m.confirmed
  }

  lemma BuysDeclinedIff(s: State, settled: Settled, m: Market)
    ensures NoneDeclined(BuysOf(s, settled, m)) <==> ConfirmedFor(s, settled, m)
  {
    var have, needed := s.deployer.spyx, SpyxToSend(s.rows);
    var steps := BuysOf(s, settled, m);
    if needed > have && needed > AfterTest(have, settled, m) {
      assert steps[if settled.test then 0 else 1] == Confirm(m.confirmed);
    }
  }

  lemma BuyStageCoversIff(s: State, costs: Costs, settled: Settled, m: Market)
    requires Shaped(s) && Delivers(m)
    ensures AllFit(s, BuysOf(s, settled, m))
    ensures var p := Execute(s, costs, BuysOf(s, settled, m));
            p.failure.None? ==> (Spare(p.state) >= 0 <==> CoveredFor(s, settled, m))
  {
    var steps := BuysOf(s, settled, m);
    ScriptFits(s, steps);
    if Execute(s, costs, steps).failure.None? {
      BuysEnoughIff(s.deployer.spyx, SpyxToSend(s.rows), settled, m);
      BoughtIs(s, costs, steps);
      ExecuteConserves(s, costs, steps);
    }
  }

  lemma EarlyStepKeepsQuote(s: State, costs: Costs, step: Step)
    requires Shaped(s) && Fits(s, step) && (step.SendSol? || step.CreateDeployerAta?)
    ensures var t := Do(s, costs, step).state;
            t.deployer.spyx == s.deployer.spyx && t.bought == s.bought
  {
  }

  /** SOL transfers and the deployer's account leave what the swaps are for as it was. */
  lemma {:induction false} EarlyStepsKeepQuote(s: State, costs: Costs, steps: seq<Step>)
    requires AllFit(s, steps) && forall i :: 0 <= i < |steps| ==> steps[i].SendSol? || steps[i].CreateDeployerAta?
    ensures var t := Execute(s, costs, steps).state;
            t.deployer.spyx == s.deployer.spyx && t.bought == s.bought
    decreases |steps|
  {
    if steps != [] {
      assert Fits(s, steps[0]);
      EarlyStepKeepsQuote(s, costs, steps[0]);
      DoKeepsShape(s, costs, steps[0]);
      if Do(s, costs, steps[0]).failure.None? {
        FitsSameShape(s, Do(s, costs, steps[0]).state, steps);
        EarlyStepsKeepQuote(Do(s, costs, steps[0]).state, costs, steps[1..]);
      }
    }
  }

  // ------------------------------------------------------------ a whole run

  /** The steps before the swaps, and those before the quote transfers. */
  function EarlySteps(s: State): seq<Step> { SolSteps(|s.rows|) + [CreateDeployerAta] }

  function FirstSteps(s: State, settled: Settled, m: Market): seq<Step> {
    EarlySteps(s) + BuysOf(s, settled, m)
  }

  lemma ScriptParts(s: State, settled: Settled, m: Market)
    ensures Script(s, settled, m) == FirstSteps(s, settled, m) + SpyxSteps(|s.rows|)
  {
  }

  /** What the early stages leave: the same swaps to make, and, if they succeeded, every SOL goal met. */
  lemma EarlyStagesLeave(s: State, costs: Costs, settled: Settled, m: Market)
    requires Shaped(s)
    ensures AllFit(s, EarlySteps(s))
    ensures var p := Execute(s, costs, EarlySteps(s));
            && BuysOf(p.state, settled, m) == BuysOf(s, settled, m)
            && (CoveredFor(p.state, settled, m) <==> CoveredFor(s, settled, m))
            && (p.failure.None? ==> SolMet(p.state, |s.rows|))
  {
    var sol, ata := SolSteps(|s.rows|), [CreateDeployerAta];
    ScriptFits(s, ata);
    ExecuteJoin(s, costs, sol, ata);
    EarlyQuoteSame(s, costs, EarlySteps(s));
    SolStageMeets(s, costs, |s.rows|);
    var t := Execute(s, costs, sol).state;
    ExecuteConserves(t, costs, ata);
    if Execute(s, costs, EarlySteps(s)).failure.None? {
      MetStays(t, Execute(t, costs, ata).state, costs.rent, |s.rows|);
    }
  }

  lemma EarlyQuoteSame(s: State, costs: Costs, steps: seq<Step>)
    requires AllFit(s, steps) && forall i :: 0 <= i < |steps| ==> steps[i].SendSol? || steps[i].CreateDeployerAta?
    ensures var t := Execute(s, costs, steps).state;
            t.deployer.spyx == s.deployer.spyx && SpyxToSend(t.rows) == SpyxToSend(s.rows)
  {
    EarlyStepsKeepQuote(s, costs, steps);
    ExecuteConserves(s, costs, steps);
  }

  /** Without a failure, the first stages leave every SOL goal met, and enough quote units exactly when covered. */
  lemma FirstStagesCoverIff(s: State, costs: Costs, settled: Settled, m: Market)
    requires Shaped(s) && Delivers(m)
    ensures AllFit(s, FirstSteps(s, settled, m))
    ensures var p := Execute(s, costs, FirstSteps(s, settled, m));
            p.failure.None? ==> SolMet(p.state, |s.rows|) && (Spare(p.state) >= 0 <==> CoveredFor(s, settled, m))
  {
    EarlyStagesLeave(s, costs, settled, m);
    var t := Execute(s, costs, EarlySteps(s)).state;
    BuyStageCoversIff(t, costs, settled, m);
    ScriptFits(s, BuysOf(s, settled, m));
    ExecuteJoin(s, costs, EarlySteps(s), BuysOf(s, settled, m));
    ExecuteConserves(t, costs, BuysOf(s, settled, m));
    if Execute(s, costs, FirstSteps(s, settled, m)).failure.None? {
      MetStays(t, Execute(t, costs, BuysOf(s, settled, m)).state, costs.rent, |s.rows|);
    }
  }

  lemma RunAffords(s: State, costs: Costs, terms: Terms)
    requires Shaped(s) && terms.rent == costs.rent && terms.minDeployer == costs.minDeployer
    requires Summary(s.rows, s.deployer, terms).abort.None?
    ensures Affords(s, costs, terms.feeBuffer + Summary(s.rows, s.deployer, terms).swapEstimate)
  {
    SummaryLeft(s, terms);
    AbortIff(s, terms);
  }

  /**
   * The terms a run is planned under and the costs it meets agree; its fees stay within the buffer, and its
   * swaps cost no more than the price of what was to be bought and the margin on top.
   */
  predicate WithinPlan(s: State, costs: Costs, terms: Terms, steps: seq<Step>)
    requires AllFit(s, steps)
  {
    var plan, charge := Summary(s.rows, s.deployer, terms), Charged(s, costs, steps);
    && terms.rent == costs.rent && terms.minDeployer == costs.minDeployer
    && plan.abort.None?
    && charge.fees <= terms.feeBuffer && charge.txs <= s.fuel
    && MayCost(SwapSum(steps), Missing(SpyxToSend(s.rows), s.deployer.spyx), terms)
  }

  predicate Funded(s: State, costs: Costs) {
    ShortfallsOf(s.rows) == [] && s.deployer.lamports >= costs.minDeployer
  }

  lemma ScriptIsFit(s: State, settled: Settled, m: Market)
    requires Shaped(s)
    ensures AllFit(s, Script(s, settled, m))
    ensures AllFit(s, SpyxSteps(|s.rows|)) && AllFit(s, FirstSteps(s, settled, m))
  {
    ScriptFits(s, [CreateDeployerAta]);
    ScriptFits(s, BuysOf(s, settled, m));
    FitsJoin(s, SolSteps(|s.rows|), [CreateDeployerAta]);
    FitsJoin(s, EarlySteps(s), BuysOf(s, settled, m));
    ScriptParts(s, settled, m);
    FitsJoin(s, FirstSteps(s, settled, m), SpyxSteps(|s.rows|));
  }

  lemma FirstStepsConfirmed(s: State, settled: Settled, m: Market)
    ensures NoneDeclined(FirstSteps(s, settled, m)) <==> ConfirmedFor(s, settled, m)
  {
    var early, buys := EarlySteps(s), BuysOf(s, settled, m);
    BuysDeclinedIff(s, settled, m);
    assert FirstSteps(s, settled, m) == early + buys;
    assert forall i :: 0 <= i < |early| ==> (early + buys)[i] == early[i] && !early[i].Confirm?;
    assert forall i :: 0 <= i < |buys| ==> (early + buys)[|early| + i] == buys[i];
  }

  lemma FirstStepsTransferNothing(s: State, settled: Settled, m: Market)
    ensures NoTransfers(FirstSteps(s, settled, m))
  {
    var early, buys := EarlySteps(s), BuysOf(s, settled, m);
    assert FirstSteps(s, settled, m) == early + buys;
    assert forall i :: 0 <= i < |early| ==> (early + buys)[i] == early[i];
    assert forall i :: 0 <= i < |buys| ==> (early + buys)[|early| + i] == buys[i];
  }

  lemma HeadSucceeds(s: State, costs: Costs, first: seq<Step>, last: seq<Step>)
    requires AllFit(s, first) && AllFit(s, last) && AllFit(s, first + last)
    requires NoTransfers(first) && NoneDeclined(first)
    requires Charged(s, costs, first + last).txs <= s.fuel
    requires Affords(s, costs, Charged(s, costs, first + last).fees + SwapSum(first))
    ensures var p := Execute(s, costs, first);
            && p.failure.None? && AllFit(p.state, last)
            && Affords(p.state, costs, Charged(p.state, costs, last).fees) && p.state.fuel >= Charged(p.state, costs, last).txs
  {
    ChargedJoin(s, costs, first, last);
    var later: nat := Charged(s, costs, first + last).fees - Charged(s, costs, first).fees;
    PartSucceeds(s, costs, first, later);
  }

  lemma PlanPays(s: State, costs: Costs, terms: Terms, steps: seq<Step>)
    requires AllFit(s, steps) && WithinPlan(s, costs, terms, steps)
    ensures Affords(s, costs, Charged(s, costs, steps).fees + SwapSum(steps)) && Charged(s, costs, steps).txs <= s.fuel
  {
    RunAffords(s, costs, terms);
    EstimateIsWorst(SwapSum(steps), Missing(SpyxToSend(s.rows), s.deployer.spyx), terms);
  }

  /** Confirmed first stages succeed, and leave what the quote transfers cost. */
  lemma FirstStagesSucceed(s: State, costs: Costs, terms: Terms, settled: Settled, m: Market)
    requires Shaped(s) && AllFit(s, Script(s, settled, m)) && ConfirmedFor(s, settled, m)
    requires WithinPlan(s, costs, terms, Script(s, settled, m))
    ensures AllFit(s, FirstSteps(s, settled, m)) && AllFit(s, SpyxSteps(|s.rows|))
    ensures var p := Execute(s, costs, FirstSteps(s, settled, m));
            var last := SpyxSteps(|s.rows|);
            && p.failure.None? && AllFit(p.state, last)
            && Affords(p.state, costs, Charged(p.state, costs, last).fees) && p.state.fuel >= Charged(p.state, costs, last).txs
  {
    var first, last := FirstSteps(s, settled, m), SpyxSteps(|s.rows|);
    ScriptIsFit(s, settled, m);
    ScriptParts(s, settled, m);
    FirstStepsConfirmed(s, settled, m);
    FirstStepsTransferNothing(s, settled, m);
    SwapSumJoin(first, last);
    NoSwaps(last);
    PlanPays(s, costs, terms, first + last);
    HeadSucceeds(s, costs, first, last);
  }

  lemma ConfirmedCompletesIff(s: State, costs: Costs, terms: Terms, settled: Settled, m: Market)
    requires Shaped(s) && Delivers(m) && AllFit(s, Script(s, settled, m)) && ConfirmedFor(s, settled, m)
    requires WithinPlan(s, costs, terms, Script(s, settled, m))
    ensures Execute(s, costs, Script(s, settled, m)).failure.None? <==> CoveredFor(s, settled, m)
    ensures CoveredFor(s, settled, m) ==> Funded(Execute(s, costs, Script(s, settled, m)).state, costs)
  {
    var first, last := FirstSteps(s, settled, m), SpyxSteps(|s.rows|);
    ScriptIsFit(s, settled, m);
    FirstStagesSucceed(s, costs, terms, settled, m);
    FirstStagesCoverIff(s, costs, settled, m);
    ScriptParts(s, settled, m);
    ExecuteJoin(s, costs, first, last);
    LastStageFundsIff(Execute(s, costs, first).state, costs, |s.rows|);
  }

  lemma DeclinedStops(s: State, costs: Costs, settled: Settled, m: Market)
    requires Shaped(s) && AllFit(s, Script(s, settled, m)) && !ConfirmedFor(s, settled, m)
    ensures Execute(s, costs, Script(s, settled, m)).failure.Some?
  {
    var first, last := FirstSteps(s, settled, m), SpyxSteps(|s.rows|);
    ScriptIsFit(s, settled, m);
    ScriptParts(s, settled, m);
    FirstStepsConfirmed(s, settled, m);
    DeclinedFails(s, costs, first);
    ExecuteJoin(s, costs, first, last);
  }

  /**
   * A plan that is not aborted, whose transactions' fees fit the buffer and whose swaps deliver what
   * they are checked for at no more than price and margin, runs to its end without a failure if and
   * only if the main swap is confirmed where it is asked for, and no settled main swap leaves a shortage.
   */
  lemma FundingCompletesIff(s: State, costs: Costs, terms: Terms, settled: Settled, m: Market)
    requires Shaped(s) && Delivers(m) && AllFit(s, Script(s, settled, m))
    requires WithinPlan(s, costs, terms, Script(s, settled, m))
    ensures Execute(s, costs, Script(s, settled, m)).failure.None? <==> ConfirmedFor(s, settled, m) && CoveredFor(s, settled, m)
    ensures ConfirmedFor(s, settled, m) && CoveredFor(s, settled, m) ==>
              Funded(Execute(s, costs, Script(s, settled, m)).state, costs)
  {
    if ConfirmedFor(s, settled, m) {
      ConfirmedCompletesIff(s, costs, terms, settled, m);
    } else {
      DeclinedStops(s, costs, settled, m);
    }
  }

  lemma LastStageFundsIff(s: State, costs: Costs, n: nat)
    requires AllFit(s, SpyxSteps(n)) && n == |s.rows| && SolMet(s, n)
    requires s.fuel >= Charged(s, costs, SpyxSteps(n)).txs && Affords(s, costs, Charged(s, costs, SpyxSteps(n)).fees)
    ensures var p := Execute(s, costs, SpyxSteps(n));
            && (p.failure.None? <==> Spare(s) >= 0)
            && (Spare(s) >= 0 ==> Funded(p.state, costs))
  {
    if Spare(s) >= 0 {
      NoSwaps(SpyxSteps(n));
      assert NoneDeclined(SpyxSteps(n));
      SpyxStepsOpenAccounts(s, n);
      PartSucceeds(s, costs, SpyxSteps(n), 0);
      SpyxStageMeets(s, costs, n);
      AllMetIsFunded(s, costs, n);
    } else if Execute(s, costs, SpyxSteps(n)).failure.None? {
      SpyxStageMeets(s, costs, n);
      NothingToSend(Execute(s, costs, SpyxSteps(n)).state);
    }
  }

  lemma AllMetIsFunded(s: State, costs: Costs, n: nat)
    requires AllFit(s, SpyxSteps(n)) && n == |s.rows| && SolMet(s, n)
    requires var t := Execute(s, costs, SpyxSteps(n)).state; SpyxMet(t, n) && Affords(t, costs, 0)
    ensures Funded(Execute(s, costs, SpyxSteps(n)).state, costs)
  {
    var t := Execute(s, costs, SpyxSteps(n)).state;
    ExecuteConserves(s, costs, SpyxSteps(n));
    MetStays(s, t, costs.rent, n);
    forall i | 0 <= i < n
      ensures t.rows[i].account.lamports >= t.rows[i].goal.sol && t.rows[i].account.spyx >= t.rows[i].goal.spyx
    {
      assert t.rows[i].SolToSend() == 0 && t.rows[i].SpyxToSend() == 0;
    }
    CompleteIff(t.rows);
  }

  lemma NothingToSend(s: State)
    requires SpyxMet(s, |s.rows|)
    ensures Spare(s) >= 0
  {
    AllZero(s.rows);
  }

  lemma {:induction false} AllZero(rows: seq<WalletPlan>)
    requires forall i :: 0 <= i < |rows| ==> rows[i].SpyxToSend() == 0
    ensures SpyxToSend(rows) == 0
    decreases |rows|
  {
    if rows != [] {
      AllZero(rows[..|rows| - 1]);
    }
  }

  // ------------------------------------------------------------ crash, plan again, complete

  /** Each wallet has been sent exactly what it lacked at first. */
  predicate SentExactly(s: State, t: State)
    requires Shaped(s) && Shaped(t)
  {
    && |t.rows| == |s.rows|
    && forall i :: 0 <= i < |s.rows| ==>
         t.solSent[i] == s.rows[i].SolToSend() && t.spyxSent[i] == s.rows[i].SpyxToSend()
  }

  /** The plan that a new process builds on the balances it finds. */
  function Replanned(planned: seq<Planned>, s: State, livePlan: map<string, string>, terms: Terms): Result<FundPlan, FundError>
    requires |planned| == |s.rows|
  {
    PlanOf(planned, ReadBack(planned, s.rows), s.deployer, livePlan, terms)
  }

  /**
   * Any number of interrupted runs, a new plan, and one run within it: the new plan is for exactly the
   * missing rest, and in the end every goal is met and each wallet was sent exactly its first shortfall.
   */
  lemma InterruptedFundingCompletes(planned: seq<Planned>, wallets: seq<WalletBalances>, livePlan: map<string, string>,
                                    s: State, costs: Costs, attempts: seq<Attempt>, fuel: nat, terms: Terms,
                                    settled: Settled, m: Market)
    requires DistinctRoles(planned) && PlanWallets(planned, wallets, livePlan) == Ok(s.rows)
    requires Untouched(s) && AttemptsFit(s, attempts) && Delivers(m)
    requires var t := Resumed(s, costs, attempts).(fuel := fuel);
             && AllFit(t, Script(t, settled, m)) && WithinPlan(t, costs, terms, Script(t, settled, m))
             && ConfirmedFor(t, settled, m) && CoveredFor(t, settled, m)
    ensures var t := Resumed(s, costs, attempts).(fuel := fuel);
            var p := Execute(t, costs, Script(t, settled, m));
            && |planned| == |t.rows| && Replanned(planned, t, livePlan, terms) == Ok(Summary(t.rows, t.deployer, terms))
            && p.failure.None? && Funded(p.state, costs) && SentExactly(s, p.state)
  {
    var r := Resumed(s, costs, attempts);
    var t := r.(fuel := fuel);
    ResumedConserves(s, costs, attempts);
    FuelIsFree(s, r, t, costs.rent);
    GoalsKept(s, t, costs.rent);
    ReplanIsSummary(planned, wallets, livePlan, terms, s.rows, t);
    FundingCompletesIff(t, costs, terms, settled, m);
    ExecuteConserves(t, costs, Script(t, settled, m));
    FundedIsExact(s, t, Execute(t, costs, Script(t, settled, m)).state, costs);
  }

  lemma FuelIsFree(s: State, r: State, t: State, rent: nat)
    requires Conserves(s, r, rent) && t == r.(fuel := t.fuel)
    ensures Conserves(s, t, rent)
  {
  }

  lemma GoalsKept(s: State, t: State, rent: nat)
    requires Conserves(s, t, rent)
    ensures SameGoals(t.rows, s.rows)
  {
    forall i | 0 <= i < |s.rows| ensures t.rows[i].goal == s.rows[i].goal && t.rows[i].role == s.rows[i].role {
      assert WalletConserved(s.rows[i], s.solSent[i], s.spyxSent[i], t.rows[i], t.solSent[i], t.spyxSent[i]);
    }
  }

  lemma FundedIsExact(s: State, t: State, u: State, costs: Costs)
    requires Untouched(s) && Conserves(s, t, costs.rent) && Conserves(t, u, costs.rent) && Funded(u, costs)
    ensures SentExactly(s, u)
  {
    ConservesChain(s, t, u, costs.rent);
    CompleteIff(u.rows);
    forall i | 0 <= i < |s.rows|
      ensures u.solSent[i] == s.rows[i].SolToSend() && u.spyxSent[i] == s.rows[i].SpyxToSend()
    {
      assert WalletConserved(s.rows[i], s.solSent[i], s.spyxSent[i], u.rows[i], u.solSent[i], u.spyxSent[i]);
    }
  }
}
