/** On a quiet chain the crank finishes: a measure falls with every action, and what it finishes in. */
module CrankProgress {
  import FeeSplits
  import opened Market
  import MarketPayments
  import opened MarketSafety
  import MarketRuns
  import opened LaunchPhases
  import opened Crank
  import opened CrankPlan
  import opened CrankSoundness
  import opened CrankRun
  import opened CrankRaces

  // ------------------------------------------------------------ the measure

  function Count(condition: bool): nat { if condition then 1 else 0 }

  /** The one-shot actions the launch still needs. */
  function OneShotsLeft(c: Chain, o: Options): (n: nat)
    ensures n <= 6
  {
    Count(!c.launch.registered) + Count(CurveDue(c, o)) + Count(FeeDue(c)) + Count(SurplusDue(c))
    + Count(!c.curve.migrated) + Count(!c.launch.migrated)
  }

  /** The due positions still to be harvested; with a minimum of zero there is no end of them, and none is counted. */
  function HarvestsLeft(c: Chain, o: Options): nat {
    if MinLp(o) >= 1 then |EligibleIn(c.positions, o, c.ownPool)| else 0
  }

  /** An upper bound of the actions still to come: six one-shots, one per due position and one burn. */
  function Measure(c: Chain, o: Options): nat {
    OneShotsLeft(c, o) + HarvestsLeft(c, o) + Count(BurnDue(c, o))
  }

  lemma {:induction false} EligibleAppend(ps: seq<Position>, p: Position, o: Options, ownPool: nat)
    requires !Eligible(p, o, ownPool)
    ensures EligibleIn(ps + [p], o, ownPool) == EligibleIn(ps, o, ownPool)
  {
    if ps == [] {
      assert [p][1..] == [];
      assert ps + [p] == [p];
    } else {
      assert (ps + [p])[1..] == ps[1..] + [p];
      EligibleAppend(ps[1..], p, o, ownPool);
    }
  }

  lemma {:induction false} EligibleEmptied(ps: seq<Position>, i: nat, p: Position, o: Options, ownPool: nat)
    requires i < |ps| && !Eligible(p, o, ownPool) && Eligible(ps[i], o, ownPool)
    ensures |EligibleIn(ps[i := p], o, ownPool)| + 1 == |EligibleIn(ps, o, ownPool)|
  {
    if i == 0 {
      assert ps[0 := p][1..] == ps[1..];
    } else {
      EligibleEmptied(ps[1..], i - 1, p, o, ownPool);
      assert ps[i := p][1..] == ps[1..][i - 1 := p];
    }
  }

  lemma EmptyIsNotEligible(id: nat, pool: nat, o: Options, ownPool: nat)
    requires MinLp(o) >= 1
    ensures !Eligible(Position(id, pool, 0, 0), o, ownPool)
  {
  }

  /** What makes a planned LP harvest worth counting. */
  predicate Counted(c: Chain, o: Options, a: Action) {
    a.LpFees? ==> Eligible(Position(a.position, a.pool, a.pendingBase, a.pendingQuote), o, c.ownPool)
  }

  /** What a plan that terminates says of its actions. */
  predicate DueAction(c: Chain, o: Options, a: Action) {
    match a
    case CurveFees(_, _, _) => CurveDue(c, o) && MinCurve(o) >= 1
    case Burn(_) => BurnDue(c, o)
    case LpFees(_, _, _, _) => Counted(c, o, a) && MinLp(o) >= 1
    case Sync => !c.launch.migrated && c.curve.migrated
    case Migrate => MigrateDue(c, o)
    case _ => true
  }

  /** Every due action lowers the measure. */
  lemma ActionLowersMeasure(c: Chain, o: Options, a: Action)
    requires Valid(c) && Stands(c, a) && Open(c, a) && DueAction(c, o, a)
    ensures Measure(After(c, a), o) < Measure(c, o)
  {
    SucceedsIff(c, a);
    match a
    case LpFees(_, _, _, _) => LpHarvestLowersMeasure(c, o, a);
    case Migrate => MigrationLowersMeasure(c, o);
    case CurveFees(_, _, _) => CurveHarvestLowersMeasure(c, o, a);
    case MigrationFee(_, _) => WithdrawalLowersMeasure(c, o, a);
    case Surplus(_) => WithdrawalLowersMeasure(c, o, a);
    case _ => LatchLowersMeasure(c, o, a);
  }

  lemma LatchLowersMeasure(c: Chain, o: Options, a: Action)
    requires Valid(c) && Stands(c, a) && DueAction(c, o, a)
    requires a.Register? || a.Sync? || a.Burn?
    ensures Measure(After(c, a), o) < Measure(c, o)
  {
  }

  lemma WithdrawalLowersMeasure(c: Chain, o: Options, a: Action)
    requires Valid(c) && Stands(c, a) && (a.MigrationFee? || a.Surplus?) && Execute(c, StepOf(c, a)).Ok?
    ensures Measure(After(c, a), o) < Measure(c, o)
  {
  }

  lemma CurveHarvestLowersMeasure(c: Chain, o: Options, a: Action)
    requires Valid(c) && MinCurve(o) >= 1 && CurveDue(c, o) && a.CurveFees? && Execute(c, StepOf(c, a)).Ok?
    ensures Measure(After(c, a), o) < Measure(c, o)
  {
  }

  lemma MigrationLowersMeasure(c: Chain, o: Options)
    requires Valid(c) && Enabled(c, Migrate)
    ensures Measure(After(c, Migrate), o) < Measure(c, o)
  {
    SucceedsIff(c, Migrate);
    var p := Position(FreshId(c.positions), c.ownPool, 0, 0);
    if MinLp(o) >= 1 {
      EmptyIsNotEligible(p.id, p.pool, o, c.ownPool);
      EligibleAppend(c.positions, p, o, c.ownPool);
    }
  }

  lemma LpHarvestIs(c: Chain, a: Action, i: nat)
    requires a.LpFees? && Execute(c, StepOf(c, a)).Ok?
    requires IndexOf(c.positions, a.position).Some? && IndexOf(c.positions, a.position).value == i
    ensures var d := After(c, a);
            && d.launch == c.launch && d.curve == c.curve && d.ownPool == c.ownPool && Claimed(d.base) == 0
            && d.positions == c.positions[i := c.positions[i].(base := 0, quote := 0)]
  {
  }

  lemma LpHarvestLowersMeasure(c: Chain, o: Options, a: Action)
    requires Valid(c) && MinLp(o) >= 1 && a.LpFees? && Stands(c, a) && Open(c, a) && Counted(c, o, a)
    ensures Measure(After(c, a), o) < Measure(c, o)
  {
    SucceedsIff(c, a);
    var i := IndexOf(c.positions, a.position).value;
    var p := c.positions[i];
    var q := Position(a.position, a.pool, a.pendingBase, a.pendingQuote);
    var k :| 0 <= k < |c.positions| && c.positions[k] == q;
    assert i == k;
    LpHarvestIs(c, a, i);
    EmptyIsNotEligible(p.id, p.pool, o, c.ownPool);
    EligibleEmptied(c.positions, i, p.(base := 0, quote := 0), o, c.ownPool);
  }

  // ------------------------------------------------------------ when the crank can finish

  /** A position the plan may harvest, whatever it owes. */
  predicate Candidate(p: Position, o: Options, ownPool: nat) {
    o.includeForeignPositions || p.pool == ownPool
  }

  predicate HasCandidate(c: Chain, o: Options) {
    exists i :: 0 <= i < |c.positions| && Candidate(c.positions[i], o, c.ownPool)
  }

  /** Plans of this launch come to harvest LP fees: it holds a candidate after the migration, or will migrate. */
  predicate LpReached(c: Chain, o: Options) {
    if AfterMigration(c) then HasCandidate(c, o) else c.curve.complete && !o.skipMigration
  }

  /**
   * What lets the crank finish: no curve fee is due at zero, and no LP fee is due at zero where a plan
   * could harvest one. A launch that can never be registered has nothing but its burn.
   */
  predicate Terminates(c: Chain, o: Options) {
    Unregistrable(c) || (MinCurve(o) >= 1 && (MinLp(o) >= 1 || MaxLp(o) == 0 || !LpReached(c, o)))
  }

  lemma TakenIsReached(c: Chain, o: Options, p: Position)
    requires DistinctIds(c.positions) && AfterMigration(c) && p in DuePositions(c, o)
    ensures LpReached(c, o) && MaxLp(o) > 0 && Eligible(p, o, c.ownPool)
  {
    DuePositionsHold(c, o);
    var i :| 0 <= i < |c.positions| && c.positions[i] == p;
    assert Candidate(c.positions[i], o, c.ownPool);
  }

  lemma PlanIsDue(c: Chain, o: Options, a: Action)
    requires Valid(c) && Terminates(c, o) && a in Plan(c, o)
    ensures DueAction(c, o, a)
  {
    OnceUpToHolds(c, o, ExpectedSplit(c), 6);
    if a.LpFees? {
      LpPartHolds(c, o);
      var i :| 0 <= i < |LpPart(c, o)| && LpPart(c, o)[i] == a;
      TakenIsReached(c, o, DuePositions(c, o)[i]);
    } else if !Unregistrable(c) {
      assert a.Burn? || a in OnceUpTo(c, o, ExpectedSplit(c), 6);
    }
  }

  lemma LatchesKeepReach(c: Chain, o: Options, a: Action)
    requires Valid(c) && Stands(c, a) && (a.Register? || a.MigrationFee? || a.Surplus? || a.Sync? || a.Burn? || a.CurveFees?)
    ensures LpReached(After(c, a), o) ==> LpReached(c, o)
  {
  }

  lemma HarvestKeepsReach(c: Chain, o: Options, a: Action)
    requires Valid(c) && a.LpFees? && AfterMigration(c)
    ensures LpReached(After(c, a), o) ==> LpReached(c, o)
  {
    var d := After(c, a);
    assert |d.positions| == |c.positions| && d.ownPool == c.ownPool;
    assert forall i :: 0 <= i < |c.positions| ==> d.positions[i].pool == c.positions[i].pool;
    if HasCandidate(d, o) {
      var i :| 0 <= i < |d.positions| && Candidate(d.positions[i], o, d.ownPool);
      assert Candidate(c.positions[i], o, c.ownPool);
    }
  }

  lemma MigrationKeepsReach(c: Chain, o: Options)
    requires Valid(c) && MigrateDue(c, o)
    ensures LpReached(c, o)
  {
  }

  /** No due action of a plan makes the crank reach LP fees that it did not reach before. */
  lemma ActionKeepsReach(c: Chain, o: Options, a: Action)
    requires Valid(c) && a in Plan(c, o) && Stands(c, a) && DueAction(c, o, a)
    ensures LpReached(After(c, a), o) ==> LpReached(c, o)
  {
    if a.LpFees? {
      PlanHolds(c, o);
      LpPlannedAfterMigration(c, o, a);
      HarvestKeepsReach(c, o, a);
    } else if a.Migrate? {
      MigrationKeepsReach(c, o);
    } else {
      LatchesKeepReach(c, o, a);
    }
  }

  /** No planned action brings a launch that can finish to one that cannot. */
  lemma ActionKeepsTermination(c: Chain, o: Options, a: Action)
    requires Valid(c) && Terminates(c, o) && a in Plan(c, o) && Stands(c, a)
    ensures Terminates(After(c, a), o)
  {
    if Unregistrable(c) {
      BurnKeepsUnregistrable(c, o, a);
    } else {
      PlanIsDue(c, o, a);
      ActionKeepsReach(c, o, a);
    }
  }

  lemma LpPlannedAfterMigration(c: Chain, o: Options, a: Action)
    requires a.LpFees? && Planned(c, o, a)
    ensures AfterMigration(c)
  {
  }

  lemma BurnKeepsUnregistrable(c: Chain, o: Options, a: Action)
    requires Unregistrable(c) && a in Plan(c, o)
    ensures Unregistrable(After(c, a))
  {
  }

  // ------------------------------------------------------------ what lets every harvest through

  /** Plans of this launch come to harvest some position. */
  predicate LpComes(c: Chain, o: Options) {
    && MaxLp(o) > 0 && (AfterMigration(c) || (c.curve.complete && !o.skipMigration))
    && exists i :: 0 <= i < |c.positions| && Eligible(c.positions[i], o, c.ownPool)
  }

  /** The issuer and the payees let every harvest through that plans of this launch come to. */
  predicate Clear(c: Chain, o: Options) {
    Unregistrable(c)
    || (&& (CurveDue(c, o) ==> CurveOpen(c))
        && (FeeDue(c) ==> SplitOpen(c))
        && (SurplusDue(c) ==> VaultOpen(c))
        && (LpComes(c, o) ==> SplitOpen(c)))
  }

  lemma ClearOpens(c: Chain, o: Options, a: Action)
    requires Valid(c) && Clear(c, o) && a in Plan(c, o)
    ensures Open(c, a)
  {
    PlanHolds(c, o);
    if a.LpFees? {
      LpIsComing(c, o, a);
    }
  }

  lemma LpIsComing(c: Chain, o: Options, a: Action)
    requires Valid(c) && a.LpFees? && a in Plan(c, o)
    ensures LpComes(c, o) && !Unregistrable(c)
  {
    OnceUpToHolds(c, o, ExpectedSplit(c), 6);
    PlanHolds(c, o);
    LpPlannedAfterMigration(c, o, a);
    assert a in LpPart(c, o);
    var i :| 0 <= i < |LpPart(c, o)| && LpPart(c, o)[i] == a;
    var p := DuePositions(c, o)[i];
    TakenIsReached(c, o, p);
    DuePositionsHold(c, o);
    assert p in c.positions;
  }

  lemma ComingIsReached(c: Chain, o: Options)
    requires LpComes(c, o)
    ensures LpReached(c, o)
  {
    var i :| 0 <= i < |c.positions| && Eligible(c.positions[i], o, c.ownPool);
    assert Candidate(c.positions[i], o, c.ownPool);
  }

  /** With a minimum of at least one, no action makes a position due that was not. */
  lemma ActionKeepsComing(c: Chain, o: Options, a: Action)
    requires Valid(c) && MinLp(o) >= 1 && DueAction(c, o, a) && LpComes(After(c, a), o)
    requires a.LpFees? ==> AfterMigration(c)
    ensures LpComes(c, o)
  {
    var d := After(c, a);
    var i :| 0 <= i < |d.positions| && Eligible(d.positions[i], o, d.ownPool);
    if a.Migrate? {
      MigrantIsEmpty(c, o, i);
    } else if a.LpFees? {
      HarvestedIsEmpty(c, o, a, i);
    } else {
      OtherActionsStay(c, a);
    }
    assert Eligible(c.positions[i], o, c.ownPool);
  }

  lemma MigrantIsEmpty(c: Chain, o: Options, i: nat)
    requires MinLp(o) >= 1 && i < |After(c, Migrate).positions|
    requires Eligible(After(c, Migrate).positions[i], o, After(c, Migrate).ownPool)
    ensures i < |c.positions| && Eligible(c.positions[i], o, c.ownPool)
  {
  }

  lemma HarvestedIsEmpty(c: Chain, o: Options, a: Action, i: nat)
    requires MinLp(o) >= 1 && a.LpFees? && i < |After(c, a).positions|
    requires Eligible(After(c, a).positions[i], o, After(c, a).ownPool)
    ensures i < |c.positions| && Eligible(c.positions[i], o, c.ownPool)
    ensures After(c, a).curve == c.curve && After(c, a).launch == c.launch
  {
  }

  lemma OtherActionsStay(c: Chain, a: Action)
    requires Valid(c) && !a.LpFees? && !a.Migrate?
    ensures After(c, a).positions == c.positions && After(c, a).ownPool == c.ownPool
    ensures After(c, a).curve.complete == c.curve.complete && After(c, a).curve.migrated == c.curve.migrated
    ensures AfterMigration(After(c, a)) ==> AfterMigration(c)
  {
  }

  lemma OpennessStays(c: Chain, a: Action)
    ensures CurveOpen(After(c, a)) <==> CurveOpen(c)
    ensures SplitOpen(After(c, a)) <==> SplitOpen(c)
    ensures VaultOpen(After(c, a)) <==> VaultOpen(c)
  {
  }

  lemma DuesFall(c: Chain, o: Options, a: Action)
    requires Valid(c)
    ensures FeeDue(After(c, a)) ==> FeeDue(c)
    ensures SurplusDue(After(c, a)) ==> SurplusDue(c)
    ensures CurveDue(After(c, a), o) ==> CurveDue(c, o) || a.CurveFees?
  {
  }

  /** No planned action brings such a launch to a harvest that is blocked. */
  lemma ActionKeepsClear(c: Chain, o: Options, a: Action)
    requires Valid(c) && Terminates(c, o) && Clear(c, o) && a in Plan(c, o) && Stands(c, a)
    ensures Clear(After(c, a), o)
  {
    if Unregistrable(c) {
      BurnKeepsUnregistrable(c, o, a);
    } else {
      PlanIsDue(c, o, a);
      OpennessStays(c, a);
      DuesFall(c, o, a);
      if LpComes(After(c, a), o) {
        ActionKeepsReach(c, o, a);
        ComingIsReached(After(c, a), o);
        if a.LpFees? {
          PlanHolds(c, o);
          LpPlannedAfterMigration(c, o, a);
        }
        ActionKeepsComing(c, o, a);
      }
    }
  }

  /** No issuer block, no frozen account of the launch and a usable platform account: every action is open. */
  predicate Flows(c: Chain) {
    CurveOpen(c) && SplitOpen(c)
  }

  // ------------------------------------------------------------ a quiet run

  /** Nobody else acts and every transaction is delivered. */
  predicate Quiet(rounds: seq<Round>) {
    forall i :: 0 <= i < |rounds| ==> rounds[i] == Round([], Lands, [])
  }

  lemma FirstStands(c: Chain, o: Options)
    requires Valid(c) && Plan(c, o) != []
    ensures Stands(c, Plan(c, o)[0])
  {
    var a := Plan(c, o)[0];
    assert a in Plan(c, o);
    PlanHolds(c, o);
    if c.launch.registered {
      PlannedStands(c, o, a);
    } else if !Unregistrable(c) {
      RegistersFirst(c, o);
    }
  }

  lemma ActionKeepsStage(c: Chain, a: Action)
    ensures !Unregistrable(c) ==> !Unregistrable(After(c, a))
    ensures c.curve.complete ==> After(c, a).curve.complete
  {
  }

  lemma {:induction false} NoneFailed(actions: seq<Action>)
    ensures Unfailed(actions, {}) == actions
  {
    if actions != [] {
      NoneFailed(actions[1..]);
    }
  }

  /** A quiet round executes the first planned action. */
  lemma QuietRound(c: Chain, o: Options, rounds: seq<Round>)
    requires Valid(c) && Quiet(rounds) && rounds != [] && Plan(c, o) != [] && Open(c, Plan(c, o)[0])
    ensures var a := Plan(c, o)[0];
            && Due(c, o, {}) == Plan(c, o)
            && StatusOf(c, o, a, rounds[0]) == Executed && NextRead(c, a, rounds[0]) == After(c, a)
            && Valid(After(c, a)) && Quiet(rounds[1..])
  {
    var a := Plan(c, o)[0];
    NoneFailed(Plan(c, o));
    FirstStands(c, o);
    SucceedsIff(c, a);
    StepKeeps(c, StepOf(c, a));
    assert Arrival(c, rounds[0]) == c;
  }

  predicate AllExecuted(r: CrankResult) {
    forall i :: 0 <= i < |r.reports| ==> r.reports[i].status == Executed
  }

  /** The run of the first action and then of the rest. */
  function FirstThen(c: Chain, a: Action, rest: CrankResult): CrankResult {
    CrankResult([Report(a, Executed)] + rest.reports, rest.remaining, [c] + rest.seen)
  }

  lemma QuietStep(c: Chain, o: Options, rounds: seq<Round>)
    requires Valid(c) && Quiet(rounds) && rounds != [] && Plan(c, o) != [] && Open(c, Plan(c, o)[0])
    ensures var a := Plan(c, o)[0];
            CrankFrom(c, o, {}, rounds) == FirstThen(c, a, CrankFrom(After(c, a), o, {}, rounds[1..]))
  {
    QuietRound(c, o, rounds);
  }

  /** In `d`, reached from `c`, nothing is due any more; a registrable launch and a complete curve stay so. */
  predicate Settled(c: Chain, o: Options, d: Chain) {
    && Valid(d) && Plan(d, o) == []
    && (!Unregistrable(c) ==> !Unregistrable(d))
    && (c.curve.complete ==> d.curve.complete)
  }

  /** At most `bound` actions, all executed, and nothing is left. */
  predicate Finished(c: Chain, o: Options, r: CrankResult, bound: int) {
    r.remaining == [] && |r.reports| <= bound && AllExecuted(r) && r.seen != [] && Settled(c, o, Final(r))
  }

  lemma ExecutedCons(c: Chain, a: Action, rest: CrankResult)
    requires AllExecuted(rest) && rest.seen != []
    ensures AllExecuted(FirstThen(c, a, rest)) && Final(FirstThen(c, a, rest)) == Final(rest)
  {
    var r := FirstThen(c, a, rest);
    forall i | 0 < i < |r.reports| ensures r.reports[i] == rest.reports[i - 1] {
    }
  }

  lemma FinishedCons(c: Chain, d: Chain, o: Options, a: Action, rest: CrankResult, bound: int)
    requires Finished(d, o, rest, bound - 1)
    requires !Unregistrable(c) ==> !Unregistrable(d)
    requires c.curve.complete ==> d.curve.complete
    ensures Finished(c, o, FirstThen(c, a, rest), bound)
  {
    ExecutedCons(c, a, rest);
  }

  /**
   * On a quiet chain and with enough transactions allowed, the crank of a launch that can finish, and
   * whose harvests are let through, ends with nothing due, having executed at most one action per unit of the measure.
   */
  lemma {:induction false} QuietCrankFinishes(c: Chain, o: Options, rounds: seq<Round>, bound: nat)
    requires Valid(c) && Terminates(c, o) && Clear(c, o) && Quiet(rounds) && |rounds| >= bound >= Measure(c, o)
    ensures Finished(c, o, CrankFrom(c, o, {}, rounds), bound)
    decreases |rounds|
  {
    if Plan(c, o) == [] {
      NoneFailed(Plan(c, o));
    } else {
      var a := Plan(c, o)[0];
      FirstStands(c, o);
      LowersAndOpens(c, o, a);
      QuietRound(c, o, rounds);
      QuietCrankFinishes(After(c, a), o, rounds[1..], bound - 1);
      QuietStep(c, o, rounds);
      FinishedCons(c, After(c, a), o, a, CrankFrom(After(c, a), o, {}, rounds[1..]), bound);
    }
  }

  lemma LowersAndOpens(c: Chain, o: Options, a: Action)
    requires Valid(c) && Terminates(c, o) && Clear(c, o) && a in Plan(c, o) && Stands(c, a)
    ensures Open(c, a)
    ensures Measure(After(c, a), o) < Measure(c, o) && Terminates(After(c, a), o) && Clear(After(c, a), o)
    ensures !Unregistrable(c) ==> !Unregistrable(After(c, a))
    ensures c.curve.complete ==> After(c, a).curve.complete
  {
    ClearOpens(c, o, a);
    PlanIsDue(c, o, a);
    ActionLowersMeasure(c, o, a);
    ActionKeepsTermination(c, o, a);
    ActionKeepsClear(c, o, a);
    ActionKeepsStage(c, a);
  }

  // ------------------------------------------------------------ what it finishes in

  /** What is settled when nothing is due. */
  lemma NothingDueMeans(c: Chain, o: Options)
    requires Valid(c) && !Unregistrable(c) && Plan(c, o) == []
    ensures c.launch.registered && !CurveDue(c, o) && !BurnDue(c, o)
    ensures c.curve.complete ==> c.launch.feeHarvested && c.launch.surplusHarvested && (o.skipMigration || c.curve.migrated)
    ensures c.curve.migrated ==> c.launch.migrated
    ensures c.curve.migrated && MaxLp(o) > 0 ==> forall p :: p in c.positions ==> !Eligible(p, o, c.ownPool)
  {
    var split := ExpectedSplit(c);
    OnceUpToHolds(c, o, split, 6);
    forall rank | 0 <= rank < 6 ensures !DueAt(c, o, rank) {
      assert Rank(ActionAt(c, split, rank)) == rank;
      assert ActionAt(c, split, rank) !in OnceUpTo(c, o, split, 6);
    }
    assert !DueAt(c, o, 0) && !DueAt(c, o, 1) && !DueAt(c, o, 2) && !DueAt(c, o, 3) && !DueAt(c, o, 4) && !DueAt(c, o, 5);
    DuePositionsHold(c, o);
  }

  /** From a complete curve with a registrable pool, with every harvest let through, the crank opens redemptions. */
  lemma QuietCrankOpensRedemption(c: Chain, o: Options, rounds: seq<Round>)
    requires Valid(c) && Terminates(c, o) && Clear(c, o) && Quiet(rounds)
    requires |rounds| >= 6 + |EligibleIn(c.positions, o, c.ownPool)| + 1
    requires c.curve.complete && !Unregistrable(c) && !o.skipMigration
    ensures var r := CrankFrom(c, o, {}, rounds);
            && r.remaining == [] && |r.reports| <= 6 + |EligibleIn(c.positions, o, c.ownPool)| + 1 && r.seen != []
            && PhaseOf(Final(r)) == Phase.Redeemable && MarketRuns.Redeemable(Final(r)) && Final(r).launch.migrated
  {
    QuietCrankFinishes(c, o, rounds, 6 + |EligibleIn(c.positions, o, c.ownPool)| + 1);
    NothingDueMeans(Final(CrankFrom(c, o, {}, rounds)), o);
  }

  // ------------------------------------------------------------ when it cannot finish

  /** A launch whose plans come to harvest LP fees stays one, whoever acts. */
  predicate Reaching(c: Chain, o: Options) { !Unregistrable(c) && LpReached(c, o) }

  lemma StepKeepsRegistrable(c: Chain, s: Step)
    requires Valid(c) && !Unregistrable(c)
    ensures !Unregistrable(Apply(c, s))
  {
    StepKeeps(c, s);
    NameIsFixed(c, s);
  }

  predicate SameName(c: Chain, d: Chain) {
    d.curve.nameReserved == c.curve.nameReserved && d.ownPool == c.ownPool
  }

  lemma NameIsFixed(c: Chain, s: Step)
    ensures SameName(c, Apply(c, s))
  {
    if MarketPayments.SplitHarvest(s) {
      SplitHarvestKeepsName(c, s);
    } else if MarketPayments.IsHarvest(s) {
      PlainHarvestKeepsName(c, s);
    } else if s.Redeem? {
      RedeemKeepsName(c, s);
    } else {
      OtherStepKeepsName(c, s);
    }
  }

  lemma SplitHarvestKeepsName(c: Chain, s: Step)
    requires MarketPayments.SplitHarvest(s)
    ensures SameName(c, Apply(c, s))
  {
  }

  lemma PlainHarvestKeepsName(c: Chain, s: Step)
    requires s.HarvestCurveFees? || s.HarvestSurplus?
    ensures SameName(c, Apply(c, s))
  {
  }

  lemma RedeemKeepsName(c: Chain, s: Step)
    requires s.Redeem?
    ensures SameName(c, Apply(c, s))
  {
  }

  lemma OtherStepKeepsName(c: Chain, s: Step)
    requires !MarketPayments.IsHarvest(s) && !s.Redeem?
    ensures SameName(c, Apply(c, s))
  {
  }

  /** No step takes a position away or moves it to another pool. */
  lemma PositionsStay(c: Chain, s: Step)
    ensures |Apply(c, s).positions| >= |c.positions|
    ensures forall i :: 0 <= i < |c.positions| ==> Apply(c, s).positions[i].pool == c.positions[i].pool
  {
  }

  lemma StepKeepsCandidate(c: Chain, o: Options, s: Step)
    requires HasCandidate(c, o)
    ensures HasCandidate(Apply(c, s), o)
  {
    PositionsStay(c, s);
    NameIsFixed(c, s);
    var i :| 0 <= i < |c.positions| && Candidate(c.positions[i], o, c.ownPool);
    assert Candidate(Apply(c, s).positions[i], o, Apply(c, s).ownPool);
  }

  lemma MigrationGivesCandidate(c: Chain, o: Options, s: Step)
    requires Valid(c) && !AfterMigration(c) && AfterMigration(Apply(c, s))
    ensures HasCandidate(Apply(c, s), o)
  {
    OnlyMigrationMigrates(c, s);
    var d := Apply(c, s);
    assert Candidate(d.positions[|c.positions|], o, d.ownPool);
  }

  lemma OnlyMigrationMigrates(c: Chain, s: Step)
    requires Valid(c) && !AfterMigration(c) && AfterMigration(Apply(c, s))
    ensures s.MigrateDammV2? && Apply(c, s).ownPool == c.ownPool
    ensures Apply(c, s).positions == c.positions + [Position(s.nft, c.ownPool, 0, 0)]
  {
  }

  lemma StepKeepsReaching(c: Chain, o: Options, s: Step)
    requires Valid(c) && Reaching(c, o)
    ensures Reaching(Apply(c, s), o)
  {
    StepKeeps(c, s);
    StepKeepsRegistrable(c, s);
    if AfterMigration(c) {
      StepKeepsCandidate(c, o, s);
    } else if AfterMigration(Apply(c, s)) {
      MigrationGivesCandidate(c, o, s);
    }
  }

  lemma {:induction false} RunKeepsReaching(c: Chain, o: Options, steps: seq<Step>)
    requires Valid(c) && !Unregistrable(c)
    ensures Valid(Run(c, steps)) && !Unregistrable(Run(c, steps))
    ensures LpReached(c, o) ==> LpReached(Run(c, steps), o)
    decreases |steps|
  {
    if steps != [] {
      StepKeeps(c, steps[0]);
      StepKeepsRegistrable(c, steps[0]);
      if LpReached(c, o) {
        StepKeepsReaching(c, o, steps[0]);
      }
      RunKeepsReaching(Apply(c, steps[0]), o, steps[1..]);
    }
  }

  /** Where the condition fails, something is due in the plan. */
  lemma SomethingIsDue(c: Chain, o: Options)
    requires Valid(c) && !Terminates(c, o)
    ensures Plan(c, o) != []
  {
    if Plan(c, o) == [] {
      NothingDueMeans(c, o);
      var i :| 0 <= i < |c.positions| && Candidate(c.positions[i], o, c.ownPool);
      assert c.positions[i] in c.positions;
      assert Eligible(c.positions[i], o, c.ownPool);
      assert false;
    }
  }

  /** Where the condition fails, no run of the crank ends with nothing due, whatever anyone else does. */
  lemma NeverFinishes(c: Chain, o: Options, rounds: seq<Round>)
    requires Valid(c) && !Terminates(c, o)
    ensures CrankFrom(c, o, {}, rounds).remaining != []
  {
    var r := CrankFrom(c, o, {}, rounds);
    ReportsAreFaithful(c, o, {}, rounds);
    CrankIsRun(c, o, {}, rounds);
    RunKeepsReaching(c, o, History(c, o, {}, rounds));
    SomethingIsDue(Final(r), o);
  }

  lemma BlockedDuesStay(c: Chain, o: Options, a: Action)
    requires Valid(c)
    ensures CurveDue(c, o) && !CurveOpen(c) ==> CurveDue(After(c, a), o)
    ensures FeeDue(c) && !SplitOpen(c) ==> FeeDue(After(c, a))
    ensures SurplusDue(c) && !VaultOpen(c) ==> SurplusDue(After(c, a))
  {
    SucceedsIff(c, a);
  }

  lemma BlockedLpStays(c: Chain, o: Options, a: Action)
    requires Valid(c) && LpComes(c, o) && !SplitOpen(c)
    ensures LpComes(After(c, a), o)
  {
    var i :| 0 <= i < |c.positions| && Eligible(c.positions[i], o, c.ownPool);
    var d := After(c, a);
    if a.LpFees? {
      SucceedsIff(c, a);
      assert d == c;
    } else if a.Migrate? {
      MigrationKeepsPositions(c, i);
    } else {
      OtherActionsStay(c, a);
      LatchesGoOn(c, a);
    }
    assert Eligible(d.positions[i], o, d.ownPool);
  }

  lemma MigrationKeepsPositions(c: Chain, i: nat)
    requires i < |c.positions|
    ensures var d := After(c, Migrate);
            && i < |d.positions| && d.positions[i] == c.positions[i] && d.ownPool == c.ownPool
            && d.curve.complete == c.curve.complete && (AfterMigration(c) ==> AfterMigration(d))
  {
  }

  lemma LatchesGoOn(c: Chain, a: Action)
    requires Valid(c)
    ensures AfterMigration(c) ==> AfterMigration(After(c, a))
  {
    StepKeeps(c, StepOf(c, a));
  }

  /** A blocked harvest stays due and blocked through every action. */
  lemma ActionKeepsBlock(c: Chain, o: Options, a: Action)
    requires Valid(c) && !Clear(c, o)
    ensures Valid(After(c, a)) && !Clear(After(c, a), o)
  {
    StepKeeps(c, StepOf(c, a));
    ActionKeepsStage(c, a);
    OpennessStays(c, a);
    BlockedDuesStay(c, o, a);
    if LpComes(c, o) && !SplitOpen(c) {
      BlockedLpStays(c, o, a);
    }
  }

  lemma BlockedIsDue(c: Chain, o: Options)
    requires Valid(c) && !Clear(c, o)
    ensures Plan(c, o) != []
  {
    if Plan(c, o) == [] {
      NothingDueMeans(c, o);
      assert false;
    }
  }

  /** On a quiet chain a blocked harvest is left over, whatever else the crank gets done. */
  lemma {:induction false} BlockedNeverFinishes(c: Chain, o: Options, failed: set<Key>, rounds: seq<Round>)
    requires Valid(c) && !Clear(c, o) && Quiet(rounds)
    ensures CrankFrom(c, o, failed, rounds).remaining != []
    decreases |rounds|
  {
    BlockedIsDue(c, o);
    if rounds != [] && Due(c, o, failed) != [] {
      var a := Due(c, o, failed)[0];
      var status := StatusOf(c, o, a, rounds[0]);
      assert rounds[0] == Round([], Lands, []);
      assert NextRead(c, a, rounds[0]) == After(c, a);
      ActionKeepsBlock(c, o, a);
      assert Quiet(rounds[1..]) by { assert forall i :: 0 <= i < |rounds| - 1 ==> rounds[1..][i] == rounds[i + 1]; }
      BlockedNeverFinishes(After(c, a), o, WithFailure(failed, a, status), rounds[1..]);
    }
  }

  /** Every quiet run with at least `n` transactions allowed ends with nothing due. */
  ghost predicate FinishesWithin(c: Chain, o: Options, n: nat) {
    forall rounds :: Quiet(rounds) && |rounds| >= n ==> CrankFrom(c, o, {}, rounds).remaining == []
  }

  function QuietRounds(n: nat): (rounds: seq<Round>)
    ensures |rounds| == n && Quiet(rounds)
  {
    seq(n, i => Round([], Lands, []))
  }

  /**
   * The crank finishes on a quiet chain if and only if the minimums let it (no curve fee is due at
   * zero, nor an LP fee where a plan comes to harvest one) and the issuer and the payees let every
   * harvest through that plans come to.
   */
  lemma QuietCrankFinishesIff(c: Chain, o: Options)
    requires Valid(c)
    ensures (exists n: nat :: FinishesWithin(c, o, n)) <==> Terminates(c, o) && Clear(c, o)
  {
    if Terminates(c, o) && Clear(c, o) {
      var n := Measure(c, o);
      forall rounds | Quiet(rounds) && |rounds| >= n ensures CrankFrom(c, o, {}, rounds).remaining == [] {
        QuietCrankFinishes(c, o, rounds, n);
      }
      assert FinishesWithin(c, o, n);
    } else {
      forall n: nat ensures !FinishesWithin(c, o, n) {
        if !Terminates(c, o) {
          NeverFinishes(c, o, QuietRounds(n));
        } else {
          BlockedNeverFinishes(c, o, {}, QuietRounds(n));
        }
      }
    }
  }

  /**
   * For a registrable launch that nothing blocks, with a complete curve, that is about to migrate or
   * holds a position on its own pool, and whose LP harvests are not capped at zero: exactly the minimums
   * decide.
   */
  lemma MinimumsDecide(c: Chain, o: Options)
    requires Valid(c) && Flows(c) && !Unregistrable(c) && c.curve.complete && !o.skipMigration && MaxLp(o) > 0
    requires AfterMigration(c) ==> exists i :: 0 <= i < |c.positions| && c.positions[i].pool == c.ownPool
    ensures (exists n: nat :: FinishesWithin(c, o, n)) <==> MinCurve(o) >= 1 && MinLp(o) >= 1
  {
    QuietCrankFinishesIff(c, o);
    if AfterMigration(c) {
      var i :| 0 <= i < |c.positions| && c.positions[i].pool == c.ownPool;
      assert Candidate(c.positions[i], o, c.ownPool);
    }
  }

  // ------------------------------------------------------------ what a zero minimum starves

  predicate AllCurveFees(c: Chain, r: CrankResult) {
    forall i :: 0 <= i < |r.reports| ==>
      && r.reports[i].status.Executed?
      && (r.reports[i].action.CurveFees? || (i == 0 && !c.launch.registered && r.reports[i].action.Register?))
  }

  /** With a curve minimum of zero nothing after the curve fees is ever reached: every transaction harvests them. */
  lemma {:induction false} ZeroMinimumStarves(c: Chain, o: Options, rounds: seq<Round>)
    requires Valid(c) && CurveOpen(c) && Quiet(rounds) && !Unregistrable(c) && MinCurve(o) <= 0
    ensures var r := CrankFrom(c, o, {}, rounds);
            |r.reports| == |rounds| && r.remaining != [] && AllCurveFees(c, r)
    decreases |rounds|
  {
    StartsWithCurveFees(c, o);
    if rounds != [] {
      var a := Plan(c, o)[0];
      QuietRound(c, o, rounds);
      FirstRegisters(c, o);
      ActionKeepsStage(c, a);
      OpennessStays(c, a);
      ZeroMinimumStarves(After(c, a), o, rounds[1..]);
      QuietStep(c, o, rounds);
      CurveFeesCons(c, a, After(c, a), CrankFrom(After(c, a), o, {}, rounds[1..]));
    }
  }

  /** After the first action of such a plan the launch is registered. */
  lemma FirstRegisters(c: Chain, o: Options)
    requires Valid(c) && !Unregistrable(c) && CurveDue(c, o)
    ensures Plan(c, o) != [] && After(c, Plan(c, o)[0]).launch.registered
  {
    StartsWithCurveFees(c, o);
    if c.launch.registered {
      StepKeeps(c, StepOf(c, Plan(c, o)[0]));
    } else {
      RegistersFirst(c, o);
    }
  }

  lemma CurveFeesCons(c: Chain, a: Action, d: Chain, rest: CrankResult)
    requires (a.CurveFees? || (!c.launch.registered && a.Register?)) && d.launch.registered && AllCurveFees(d, rest)
    ensures AllCurveFees(c, FirstThen(c, a, rest))
  {
    var r := FirstThen(c, a, rest);
    forall i | 0 < i < |r.reports| ensures r.reports[i] == rest.reports[i - 1] {
    }
  }

  lemma StartsWithCurveFees(c: Chain, o: Options)
    requires Valid(c) && !Unregistrable(c) && CurveDue(c, o)
    ensures Plan(c, o) != []
    ensures Plan(c, o)[0].CurveFees? || (!c.launch.registered && Plan(c, o)[0].Register?)
  {
    if c.launch.registered {
      FirstIsCurveFees(c, o, ExpectedSplit(c), 6);
    } else {
      RegistersFirst(c, o);
    }
  }

  lemma {:induction false} FirstIsCurveFees(c: Chain, o: Options, split: FeeSplits.FeeSplit, n: nat)
    requires c.launch.registered && CurveDue(c, o) && 2 <= n <= 6
    ensures OnceUpTo(c, o, split, n) != [] && OnceUpTo(c, o, split, n)[0].CurveFees?
  {
    if n == 2 {
      assert OnceUpTo(c, o, split, 0) == [] && OnceUpTo(c, o, split, 1) == [];
    } else {
      FirstIsCurveFees(c, o, split, n - 1);
    }
  }
}
