/** The stages in their order, as one script of steps. */
module FundStages {
  import opened FundPlans
  import opened FundRuns

  // ------------------------------------------------------------ the script of a run

  function SolSteps(n: nat): (steps: seq<Step>)
    ensures |steps| == n && forall i :: 0 <= i < n ==> steps[i] == SendSol(i)
  {
    if n == 0 then [] else SolSteps(n - 1) + [SendSol(n - 1)]
  }

  function SpyxSteps(n: nat): (steps: seq<Step>)
    ensures forall i :: 0 <= i < |steps| ==> (steps[i].CreateAta? || steps[i].SendSpyx?) && steps[i].wallet < n
  {
    if n == 0 then [] else SpyxSteps(n - 1) + [CreateAta(n - 1), SendSpyx(n - 1)]
  }

  lemma {:induction false} SpyxLength(n: nat)
    ensures |SpyxSteps(n)| == 2 * n
  {
    if n > 0 { SpyxLength(n - 1); }
  }

  lemma {:induction false} SpyxPrefix(i: nat, n: nat)
    requires i <= n
    ensures |SpyxSteps(n)| == 2 * n && SpyxSteps(n)[..2 * i] == SpyxSteps(i)
    ensures i < n ==> SpyxSteps(n)[2 * i] == CreateAta(i) && SpyxSteps(n)[2 * i + 1] == SendSpyx(i)
    decreases n
  {
    SpyxLength(n);
    SpyxLength(i);
    if i < n {
      SpyxLength(n - 1);
      if i == n - 1 {
        assert SpyxSteps(n)[..2 * i] == SpyxSteps(n - 1);
      } else {
        SpyxPrefix(i, n - 1);
        assert SpyxSteps(n)[..2 * i] == SpyxSteps(n - 1)[..2 * i];
      }
    }
  }

  datatype Buy = Buy(lamports: nat, received: nat)

  /** What the swaps of a run deliver; the main one is sized by what is still missing, and asked for first. */
  datatype Market = Market(test: Buy, main: nat -> Buy, confirmed: bool)

  function SwapOf(b: Buy): Step { Swap(b.lamports, b.received) }

  /**
   * Which swaps would not buy again: a test swap that is done, or either one found to have landed in
   * an interrupted run.
   */
  datatype Settled = Settled(test: bool, main: bool)

  /** What the deployer holds when the main swap is considered. */
  function AfterTest(have: nat, settled: Settled, m: Market): nat {
    if settled.test then have else have + m.test.received
  }

  function MainSteps(missing: nat, settled: Settled, m: Market): seq<Step> {
    [Confirm(m.confirmed)] + (if settled.main then [] else [SwapOf(m.main(missing))])
  }

  /** A test swap first, then, behind a question, the rest; nothing while the deployer holds enough. */
  function BuySteps(have: nat, needed: nat, settled: Settled, m: Market): (steps: seq<Step>)
    ensures forall i :: 0 <= i < |steps| ==> steps[i].Swap? || steps[i].Confirm?
  {
    if needed <= have then []
    else
      var after := AfterTest(have, settled, m);
      (if settled.test then [] else [SwapOf(m.test)]) + (if needed > after then MainSteps(needed - after, settled, m) else [])
  }

  /** The test swap buys its fixed amount, the main one exactly what is then still lacking, and only after a yes. */
  lemma BuysAre(have: nat, needed: nat, m: Market)
    ensures needed <= have ==> forall settled :: BuySteps(have, needed, settled, m) == []
    ensures needed > have ==>
              && BuySteps(have, needed, Settled(true, false), m) == [Confirm(m.confirmed), SwapOf(m.main(needed - have))]
              && BuySteps(have, needed, Settled(true, true), m) == [Confirm(m.confirmed)]
    ensures have < needed <= have + m.test.received ==>
              forall main :: BuySteps(have, needed, Settled(false, main), m) == [SwapOf(m.test)]
    ensures needed > have + m.test.received ==>
              && BuySteps(have, needed, Settled(false, false), m)
                 == [SwapOf(m.test), Confirm(m.confirmed), SwapOf(m.main(needed - have - m.test.received))]
              && BuySteps(have, needed, Settled(false, true), m) == [SwapOf(m.test), Confirm(m.confirmed)]
  {
  }

  function BuysOf(s: State, settled: Settled, m: Market): seq<Step> {
    BuySteps(s.deployer.spyx, SpyxToSend(s.rows), settled, m)
  }

  function Script(s: State, settled: Settled, m: Market): seq<Step> {
    var n := |s.rows|;
    SolSteps(n) + ([CreateDeployerAta] + (BuysOf(s, settled, m) + SpyxSteps(n)))
  }

  lemma ScriptFits(s: State, steps: seq<Step>)
    requires Shaped(s)
    ensures AllFit(s, SolSteps(|s.rows|)) && AllFit(s, SpyxSteps(|s.rows|))
    ensures (forall i :: 0 <= i < |steps| ==> steps[i].Swap? || steps[i].Confirm? || steps[i].CreateDeployerAta?) ==>
              AllFit(s, steps)
  {
  }

  lemma FitsJoin(s: State, a: seq<Step>, b: seq<Step>)
    requires AllFit(s, a) && AllFit(s, b)
    ensures AllFit(s, a + b)
  {
    forall i | 0 <= i < |a + b| ensures Fits(s, (a + b)[i]) {
      if i < |a| { assert Fits(s, a[i]); } else { assert Fits(s, b[i - |a|]); }
    }
  }

  lemma FitsSameShape(s: State, t: State, steps: seq<Step>)
    requires AllFit(s, steps) && Shaped(t) && |t.rows| == |s.rows|
    ensures AllFit(t, steps)
  {
    forall i | 0 <= i < |steps| ensures Fits(t, steps[i]) {
      assert Fits(s, steps[i]);
    }
  }

  lemma {:induction false} ExecuteJoin(s: State, costs: Costs, a: seq<Step>, b: seq<Step>)
    requires AllFit(s, a) && AllFit(s, b)
    ensures AllFit(s, a + b) && AllFit(Execute(s, costs, a).state, b)
    ensures var p := Execute(s, costs, a);
            Execute(s, costs, a + b) == if p.failure.Some? then p else Execute(p.state, costs, b)
    decreases |a|
  {
    FitsJoin(s, a, b);
    FitsSameShape(s, Execute(s, costs, a).state, b);
    if a == [] {
      assert a + b == b;
    } else {
      var p := Do(s, costs, a[0]);
      assert (a + b)[0] == a[0] && (a + b)[1..] == a[1..] + b;
      if p.failure.None? {
        DoKeepsShape(s, costs, a[0]);
        FitsSameShape(s, p.state, a[1..]);
        FitsSameShape(s, p.state, b);
        ExecuteJoin(p.state, costs, a[1..], b);
      }
    }
  }
}
