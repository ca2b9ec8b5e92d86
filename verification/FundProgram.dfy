/** The stage loops as the script runs them, on balances it updates as transactions land. */
module FundProgram {
  import opened Results
  import opened FundPlans
  import opened FundRuns
  import opened FundResume
  import opened FundStages
  import opened FundCompletion

  lemma NextStep(s: State, costs: Costs, steps: seq<Step>, step: Step)
    requires AllFit(s, steps) && Fits(s, step) && Execute(s, costs, steps).failure.None?
    ensures AllFit(s, steps + [step])
    ensures var t := Execute(s, costs, steps).state;
            Fits(t, step) && Execute(s, costs, steps + [step]) == Do(t, costs, step)
  {
    assert AllFit(s, [step]);
    ExecuteJoin(s, costs, steps, [step]);
    var t := Execute(s, costs, steps).state;
    assert Fits(t, [step][0]);
    DoKeepsShape(t, costs, step);
    assert [step][1..] == [];
  }

  /** What stops a prefix stops the whole. */
  lemma FailureStays(s: State, costs: Costs, steps: seq<Step>, n: nat)
    requires AllFit(s, steps) && n <= |steps|
    ensures AllFit(s, steps[..n])
    ensures Execute(s, costs, steps[..n]).failure.Some? ==> Execute(s, costs, steps) == Execute(s, costs, steps[..n])
  {
    assert steps == steps[..n] + steps[n..];
    assert forall i :: 0 <= i < n ==> steps[..n][i] == steps[i];
    assert forall i :: 0 <= i < |steps| - n ==> steps[n..][i] == steps[n + i];
    assert AllFit(s, steps[n..]);
    ExecuteJoin(s, costs, steps[..n], steps[n..]);
  }

  lemma {:induction false} SolPrefix(i: nat, n: nat)
    requires i <= n
    ensures SolSteps(n)[..i] == SolSteps(i)
  {
  }

  class FundingRun {
    var rows: seq<WalletPlan>
    var deployer: Account
    var solSent: seq<nat>
    var spyxSent: seq<nat>
    var fees: nat
    var spent: nat
    var bought: nat
    var fuel: nat
    const costs: Costs

    constructor (rows: seq<WalletPlan>, deployer: Account, costs: Costs, fuel: nat)
      ensures this.costs == costs && Untouched(Now())
      ensures this.rows == rows && this.deployer == deployer && this.fuel == fuel
    {
      this.rows, this.deployer, this.costs, this.fuel := rows, deployer, costs, fuel;
      this.solSent, this.spyxSent := seq(|rows|, _ => 0), seq(|rows|, _ => 0);
      this.fees, this.spent, this.bought := 0, 0, 0;
    }

    ghost function Now(): State
      reads this
    {
      State(rows, deployer, solSent, spyxSent, fees, spent, bought, fuel)
    }

    /** One transaction of the deployer's. */
    method Spend(amount: nat, fee: nat) returns (failure: Option<Failure>)
      modifies this
      ensures Progress(Now(), failure) == Pay(old(Now()), amount, fee)
    {
      if fuel == 0 { return Some(Crashed); }
      if deployer.lamports < amount + fee { return Some(CannotPay); }
      deployer := deployer.(lamports := deployer.lamports - amount - fee);
      fees := fees + fee;
      fuel := fuel - 1;
      failure := None;
    }

    method TopUpSol(i: nat) returns (failure: Option<Failure>)
      requires Shaped(Now()) && i < |rows|
      modifies this
      ensures Progress(Now(), failure) == Do(old(Now()), costs, SendSol(i))
    {
      var w := rows[i];
      if w.account.lamports >= w.goal.sol { return None; }
      var amount := w.goal.sol - w.account.lamports;
      failure := Spend(amount, costs.fee(SendSol(i)));
      if failure.Some? { return; }
      rows := rows[i := w.(account := w.account.(lamports := w.account.lamports + amount))];
      solSent := solSent[i := solSent[i] + amount];
    }

    /** Stage 1: every wallet below its SOL target gets the difference. */
    method SendAllSol() returns (failure: Option<Failure>)
      requires Shaped(Now())
      modifies this
      ensures AllFit(old(Now()), SolSteps(|old(rows)|))
      ensures Progress(Now(), failure) == Execute(old(Now()), costs, SolSteps(|old(rows)|))
    {
      ghost var start := Now();
      var n := |rows|;
      ScriptFits(start, []);
      failure := None;
      for i := 0 to n
        invariant failure.None? && |rows| == n && Shaped(Now()) && AllFit(start, SolSteps(i))
        invariant Progress(Now(), None) == Execute(start, costs, SolSteps(i))
      {
        NextStep(start, costs, SolSteps(i), SendSol(i));
        assert SolSteps(i + 1) == SolSteps(i) + [SendSol(i)];
        DoKeepsShape(Now(), costs, SendSol(i));
        failure := TopUpSol(i);
        if failure.Some? {
          SolPrefix(i + 1, n);
          FailureStays(start, costs, SolSteps(n), i + 1);
          return;
        }
      }
    }

    /** Stage 2: the deployer's own quote account. */
    method EnsureDeployerAta() returns (failure: Option<Failure>)
      requires Shaped(Now())
      modifies this
      ensures Progress(Now(), failure) == Do(old(Now()), costs, CreateDeployerAta)
    {
      if deployer.hasAta { return None; }
      failure := Spend(costs.rent, costs.fee(CreateDeployerAta));
      if failure.Some? { return; }
      deployer := deployer.(hasAta := true);
    }

    method Buy(b: Buy) returns (failure: Option<Failure>)
      requires Shaped(Now())
      modifies this
      ensures Progress(Now(), failure) == Do(old(Now()), costs, SwapOf(b))
    {
      if deployer.lamports - b.lamports < costs.minDeployer { return Some(LeavesTooLittle); }
      failure := Spend(b.lamports, costs.fee(SwapOf(b)));
      if failure.Some? { return; }
      deployer := deployer.(spyx := deployer.spyx + b.received);
      spent, bought := spent + b.lamports, bought + b.received;
    }

    /** Stages 3 and 4: a test swap, then, once confirmed, what is still missing. */
    method BuyMissing(needed: nat, settled: Settled, m: Market) returns (failure: Option<Failure>)
      requires Shaped(Now())
      modifies this
      ensures var steps := BuySteps(old(deployer).spyx, needed, settled, m);
              AllFit(old(Now()), steps) && Progress(Now(), failure) == Execute(old(Now()), costs, steps)
    {
      ghost var start := Now();
      ghost var steps := BuySteps(deployer.spyx, needed, settled, m);
      ScriptFits(start, steps);
      failure := None;
      if needed <= deployer.spyx { return; }
      ghost var done: seq<Step> := [];
      if !settled.test {
        NextStep(start, costs, [], SwapOf(m.test));
        assert [] + [SwapOf(m.test)] == [SwapOf(m.test)];
        DoKeepsShape(Now(), costs, SwapOf(m.test));
        failure := Buy(m.test);
        done := [SwapOf(m.test)];
        if failure.Some? {
          assert steps[..1] == done;
          FailureStays(start, costs, steps, 1);
          return;
        }
      }
      if needed > deployer.spyx {
        var missing := needed - deployer.spyx;
        assert steps == done + MainSteps(missing, settled, m);
        NextStep(start, costs, done, Confirm(m.confirmed));
        if !m.confirmed {
          assert steps[..|done| + 1] == done + [Confirm(m.confirmed)];
          FailureStays(start, costs, steps, |done| + 1);
          return Some(Declined);
        }
        if !settled.main {
          var b := m.main(missing);
          assert steps == done + [Confirm(m.confirmed)] + [SwapOf(b)];
          NextStep(start, costs, done + [Confirm(m.confirmed)], SwapOf(b));
          failure := Buy(b);
        } else {
          assert steps == done + [Confirm(m.confirmed)];
        }
      } else {
        assert steps == done;
      }
    }

    method CreateAccount(i: nat) returns (failure: Option<Failure>)
      requires Shaped(Now()) && i < |rows|
      modifies this
      ensures Progress(Now(), failure) == Do(old(Now()), costs, CreateAta(i))
    {
      var w := rows[i];
      if w.goal.spyx == 0 || w.account.hasAta { return None; }
      failure := Spend(costs.rent, costs.fee(CreateAta(i)));
      if failure.Some? { return; }
      rows := rows[i := w.(account := w.account.(hasAta := true))];
    }

    method TopUpSpyx(i: nat) returns (failure: Option<Failure>)
      requires Shaped(Now()) && i < |rows|
      modifies this
      ensures Progress(Now(), failure) == Do(old(Now()), costs, SendSpyx(i))
    {
      var w := rows[i];
      if w.account.spyx >= w.goal.spyx { return None; }
      if !w.account.hasAta { return Some(NoAccount(i)); }
      var amount := w.goal.spyx - w.account.spyx;
      if deployer.spyx < amount { return Some(SpyxMissing(i)); }
      failure := Spend(0, costs.fee(SendSpyx(i)));
      if failure.Some? { return; }
      rows := rows[i := w.(account := w.account.(spyx := w.account.spyx + amount))];
      deployer := deployer.(spyx := deployer.spyx - amount);
      spyxSent := spyxSent[i := spyxSent[i] + amount];
    }

    /** One wallet's quote account, then its transfer. */
    method FundWallet(i: nat) returns (failure: Option<Failure>)
      requires Shaped(Now()) && i < |rows|
      modifies this
      ensures AllFit(old(Now()), WalletSteps(i))
      ensures Progress(Now(), failure) == Execute(old(Now()), costs, WalletSteps(i))
    {
      ghost var start := Now();
      WalletStepsAre(start, costs, i);
      DoKeepsShape(start, costs, CreateAta(i));
      failure := CreateAccount(i);
      if failure.Some? { return; }
      failure := TopUpSpyx(i);
    }

    /** Stages 5 and 6, wallet by wallet. */
    method TransferAll() returns (failure: Option<Failure>)
      requires Shaped(Now())
      modifies this
      ensures AllFit(old(Now()), SpyxSteps(|old(rows)|))
      ensures Progress(Now(), failure) == Execute(old(Now()), costs, SpyxSteps(|old(rows)|))
    {
      ghost var start := Now();
      var n := |rows|;
      ScriptFits(start, []);
      failure := None;
      for i := 0 to n
        invariant failure.None? && |rows| == n && AllFit(start, SpyxSteps(i)) && AllFit(start, SpyxSteps(n))
        invariant Progress(Now(), None) == Execute(start, costs, SpyxSteps(i))
      {
        NextWallet(start, costs, i);
        failure := FundWallet(i);
        if failure.Some? {
          WalletFailureStays(start, costs, i + 1, n);
          return;
        }
      }
    }

    /** A whole run: the stages in order, each only after the one before it succeeded. */
    method RunAll(settled: Settled, m: Market) returns (failure: Option<Failure>)
      requires Shaped(Now())
      modifies this
      ensures AllFit(old(Now()), Script(old(Now()), settled, m))
      ensures Progress(Now(), failure) == Execute(old(Now()), costs, Script(old(Now()), settled, m))
    {
      ghost var start := Now();
      var needed := SpyxToSend(rows);
      StagesInOrder(start, costs, settled, m);
      failure := SendAllSol();
      if failure.Some? { return; }
      ghost var afterSol := Now();
      failure := EnsureDeployerAta();
      if failure.Some? { return; }
      DoKeepsShape(afterSol, costs, CreateDeployerAta);
      failure := BuyMissing(needed, settled, m);
      if failure.Some? { return; }
      failure := TransferAll();
    }
  }

  /** The stages one after the other are the script. */
  lemma StagesInOrder(s: State, costs: Costs, settled: Settled, m: Market)
    requires Shaped(s)
    ensures AllFit(s, SolSteps(|s.rows|)) && AllFit(s, Script(s, settled, m))
    ensures var p1 := Execute(s, costs, SolSteps(|s.rows|));
            var whole := Execute(s, costs, Script(s, settled, m));
            if p1.failure.Some? then whole == p1
            else
              var p2 := Do(p1.state, costs, CreateDeployerAta);
              if p2.failure.Some? then whole == p2
              else
                var buys := BuySteps(p2.state.deployer.spyx, SpyxToSend(s.rows), settled, m);
                AllFit(p2.state, buys) &&
                var p3 := Execute(p2.state, costs, buys);
                if p3.failure.Some? then whole == p3
                else AllFit(p3.state, SpyxSteps(|s.rows|)) && whole == Execute(p3.state, costs, SpyxSteps(|s.rows|))
  {
    var sol, ata := SolSteps(|s.rows|), [CreateDeployerAta];
    var buys := BuysOf(s, settled, m);
    var last := SpyxSteps(|s.rows|);
    ScriptFits(s, ata);
    ScriptFits(s, buys);
    FitsJoin(s, buys, last);
    FitsJoin(s, ata, buys + last);
    ExecuteJoin(s, costs, sol, ata + (buys + last));
    var p1 := Execute(s, costs, sol);
    if p1.failure.None? {
      FitsSameShape(s, p1.state, ata);
      FitsSameShape(s, p1.state, buys + last);
      ExecuteJoin(p1.state, costs, ata, buys + last);
      OneStep(p1.state, costs, CreateDeployerAta);
      ExecuteJoin(s, costs, sol, ata);
      EarlyStepsKeepQuote(s, costs, sol + ata);
      var p2 := Execute(p1.state, costs, ata);
      if p2.failure.None? {
        FitsSameShape(s, p2.state, buys);
        FitsSameShape(s, p2.state, last);
        ExecuteJoin(p2.state, costs, buys, last);
      }
    }
  }

  lemma SpyxStepsFit(s: State, n: nat)
    requires Shaped(s) && n <= |s.rows|
    ensures AllFit(s, SpyxSteps(n))
  {
  }

  lemma NextWallet(s: State, costs: Costs, i: nat)
    requires Shaped(s) && i < |s.rows| && AllFit(s, SpyxSteps(i)) && Execute(s, costs, SpyxSteps(i)).failure.None?
    ensures AllFit(s, SpyxSteps(i + 1)) && AllFit(Execute(s, costs, SpyxSteps(i)).state, WalletSteps(i))
    ensures Execute(s, costs, SpyxSteps(i + 1)) == Execute(Execute(s, costs, SpyxSteps(i)).state, costs, WalletSteps(i))
  {
    SpyxStepsFit(s, i + 1);
    SpyxStepsSplit(s, costs, i + 1);
  }

  lemma WalletFailureStays(s: State, costs: Costs, i: nat, n: nat)
    requires i <= n && AllFit(s, SpyxSteps(n))
    ensures AllFit(s, SpyxSteps(i))
    ensures Execute(s, costs, SpyxSteps(i)).failure.Some? ==> Execute(s, costs, SpyxSteps(n)) == Execute(s, costs, SpyxSteps(i))
  {
    SpyxPrefix(i, n);
    FailureStays(s, costs, SpyxSteps(n), 2 * i);
  }
}
