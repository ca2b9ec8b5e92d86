/** A plan can be executed: when its actions succeed in order, and when they pay what the plan announced. */
module CrankSoundness {
  import opened Results
  import opened FeeSplits
  import opened Market
  import opened MarketSafety
  import opened Crank
  import opened CrankPlan

  // ------------------------------------------------------------ the transaction of an action

  /** An id that no position of the claimer has: a migration mints new position NFTs. */
  function FreshId(ps: seq<Position>): (id: nat)
    ensures forall p :: p in ps ==> p.id < id
  {
    if ps == [] then 0
    else
      var rest := FreshId(ps[1..]);
      assert forall p :: p in ps ==> p == ps[0] || p in ps[1..];
      if ps[0].id < rest then rest else ps[0].id + 1
  }

  function StepOf(c: Chain, a: Action): Step {
    match a
    case Register => RegisterPool
    case CurveFees(_, _, _) => HarvestCurveFees(SplitsFees(c.launch))
    case MigrationFee(_, _) => HarvestMigrationFee
    case Surplus(_) => HarvestSurplus
    case Migrate => MigrateDammV2(FreshId(c.positions))
    case Sync => SyncMigration
    case LpFees(_, position, _, _) => HarvestLpFees(position)
    case Burn(_) => BurnClaimerBase
  }

  function After(c: Chain, a: Action): Chain { Apply(c, StepOf(c, a)) }

  // ------------------------------------------------------------ when an action succeeds

  /** What a harvest into the vault needs. */
  predicate VaultOpen(c: Chain) {
    !c.env.paused && !c.env.hook && !c.env.vaultFrozen
  }

  /** What a harvest needs that is split on version 3: the split is paid out of the transit. */
  predicate SplitOpen(c: Chain) {
    VaultOpen(c) && (SplitsFees(c.launch) ==> !c.env.transitFrozen)
  }

  /** What a curve fee harvest needs: it pays the platform on version 3, the vault before. */
  predicate CurveOpen(c: Chain) {
    if SplitsFees(c.launch) then !c.env.paused && !c.env.hook && !c.env.platform.Blocked? else VaultOpen(c)
  }

  /** What the quote issuer and the payees allow: the part of an action's guard that no plan can see. */
  predicate Open(c: Chain, a: Action) {
    match a
    case CurveFees(_, _, _) => CurveOpen(c)
    case MigrationFee(_, _) => SplitOpen(c)
    case Surplus(_) => VaultOpen(c)
    case LpFees(_, _, _, _) => SplitOpen(c)
    case _ => true
  }

  /** The rest of the guard, read off the launch, the pool and the claimer's accounts. */
  predicate Enabled(c: Chain, a: Action) {
    match a
    case Register => !c.launch.registered && c.curve.created && !c.curve.nameReserved
    case CurveFees(_, _, _) => c.launch.registered
    case MigrationFee(_, _) => c.launch.registered && FeeDue(c)
    case Surplus(_) => c.launch.registered && SurplusDue(c)
    case Migrate => c.curve.complete && !c.curve.migrated && c.curve.progress == LockedVesting
    case Sync => c.launch.registered && (c.launch.migrated || MigrationComplete(c.curve))
    case LpFees(_, position, _, _) => c.launch.registered && IndexOf(c.positions, position).Some?
    case Burn(_) => c.base.claimer.Some?
  }

  /** An action's transaction succeeds exactly when it is enabled and open. */
  lemma SucceedsIff(c: Chain, a: Action)
    requires Valid(c)
    ensures Execute(c, StepOf(c, a)).Ok? <==> Enabled(c, a) && Open(c, a)
  {
    match a
    case Migrate =>
      FreshIsAbsent(c.positions);
    case MigrationFee(_, _) =>
      MigrationFeeSucceedsIff(c);
    case LpFees(_, position, _, _) =>
      LpFeesSucceedsIff(c, position);
    case _ =>
  }

  lemma FreshIsAbsent(ps: seq<Position>)
    ensures IndexOf(ps, FreshId(ps)).None?
  {
    forall i | 0 <= i < |ps| ensures ps[i].id != FreshId(ps) {
      assert ps[i] in ps;
    }
  }

  lemma MigrationFeeSucceedsIff(c: Chain)
    requires Valid(c)
    ensures HarvestMigrationFeeStep(c).Ok? <==> c.launch.registered && FeeDue(c) && SplitOpen(c)
  {
  }

  lemma LpFeesSucceedsIff(c: Chain, id: nat)
    requires Valid(c)
    ensures HarvestLpFeesStep(c, id).Ok? <==>
            c.launch.registered && IndexOf(c.positions, id).Some? && SplitOpen(c)
  {
    match IndexOf(c.positions, id)
    case Some(i) => SumsAfterUpdate(c.positions, i, c.positions[i].(base := 0, quote := 0));
    case None =>
  }

  // ------------------------------------------------------------ what an action announces

  /** The amounts an action names are the ones on chain. */
  predicate Announced(c: Chain, a: Action) {
    match a
    case CurveFees(quote, base, creates) =>
      quote == c.curve.quoteFee && base == c.curve.baseFee && creates == c.base.claimer.None?
    case MigrationFee(quote, split) => quote == c.curve.migrationFee && split.Total() == quote
    case Surplus(quote) => quote == c.curve.surplus
    case LpFees(pool, position, quote, base) => Position(position, pool, base, quote) in c.positions
    case Burn(amount) => c.base.claimer == Some(amount)
    case _ => true
  }

  predicate Stands(c: Chain, a: Action) { Enabled(c, a) && Announced(c, a) }

  // ------------------------------------------------------------ actions do not disturb each other

  /** `b` may come after `a` in one plan. */
  predicate Follows(a: Action, b: Action) {
    KeyOf(a) != KeyOf(b) && Rank(a) <= Rank(b) && (b.Burn? ==> !Burns(a))
  }

  lemma LaunchActionsKeep(c: Chain, a: Action, b: Action)
    requires Valid(c) && Enabled(c, a) && Open(c, a) && Enabled(c, b) && Follows(a, b)
    requires a.Register? || a.MigrationFee? || a.Surplus? || a.Sync? || a.Migrate? || a.Burn?
    ensures Enabled(After(c, a), b) && (Announced(c, b) <==> Announced(After(c, a), b))
    ensures Open(After(c, a), b) <==> Open(c, b)
  {
    SucceedsIff(c, a);
    if a.Migrate? && b.LpFees? {
      var d := After(c, a);
      var i := IndexOf(c.positions, b.position).value;
      assert d.positions[i] == c.positions[i];
      assert d.positions == c.positions + [Position(FreshId(c.positions), c.ownPool, 0, 0)];
    }
  }

  lemma CurveFeesKeepOthers(c: Chain, a: Action, b: Action)
    requires Valid(c) && Enabled(c, a) && Open(c, a) && Enabled(c, b) && Follows(a, b)
    requires a.CurveFees?
    ensures Enabled(After(c, a), b) && (Announced(c, b) <==> Announced(After(c, a), b))
    ensures Open(After(c, a), b) <==> Open(c, b)
  {
    SucceedsIff(c, a);
  }

  lemma SameMember(ps: seq<Position>, qs: seq<Position>, p: Position)
    requires |ps| == |qs| && forall k :: 0 <= k < |ps| ==> ps[k].id == qs[k].id
    requires forall k :: 0 <= k < |ps| && ps[k].id == p.id ==> qs[k] == ps[k]
    ensures p in ps <==> p in qs
  {
  }

  lemma LpFeesKeepOthers(c: Chain, a: Action, b: Action)
    requires Valid(c) && Enabled(c, a) && Open(c, a) && Enabled(c, b) && Follows(a, b)
    requires a.LpFees?
    ensures Enabled(After(c, a), b) && (Announced(c, b) <==> Announced(After(c, a), b))
    ensures Open(After(c, a), b) <==> Open(c, b)
  {
    SucceedsIff(c, a);
    var d := After(c, a);
    var i := IndexOf(c.positions, a.position).value;
    assert d.positions == c.positions[i := c.positions[i].(base := 0, quote := 0)];
    var j := IndexOf(c.positions, b.position).value;
    assert d.positions[j] == c.positions[j];
    assert forall k :: 0 <= k < |c.positions| && c.positions[k].id == b.position ==> d.positions[k] == c.positions[k];
    assert forall k :: 0 <= k < |c.positions| ==> d.positions[k].id == c.positions[k].id;
    SameMember(c.positions, d.positions, Position(b.position, b.pool, b.pendingBase, b.pendingQuote));
  }

  /** Executing an action leaves every later one of its plan enabled, open and with the same amounts. */
  lemma ActionKeepsOthers(c: Chain, a: Action, b: Action)
    requires Valid(c) && Enabled(c, a) && Open(c, a) && Enabled(c, b) && Follows(a, b)
    ensures Enabled(After(c, a), b) && (Announced(c, b) <==> Announced(After(c, a), b))
    ensures Open(After(c, a), b) <==> Open(c, b)
  {
    if a.CurveFees? {
      CurveFeesKeepOthers(c, a, b);
    } else if a.LpFees? {
      LpFeesKeepOthers(c, a, b);
    } else {
      LaunchActionsKeep(c, a, b);
    }
  }

  // ------------------------------------------------------------ plans run

  /** Executed one after the other, every action succeeds. */
  predicate CanRun(c: Chain, actions: seq<Action>)
    decreases |actions|
  {
    actions == [] || (Execute(c, StepOf(c, actions[0])).Ok? && CanRun(After(c, actions[0]), actions[1..]))
  }

  /** Each action meets the amounts it announced when its turn comes. */
  predicate MeetsAmounts(c: Chain, actions: seq<Action>)
    decreases |actions|
  {
    actions == [] || (Announced(c, actions[0]) && MeetsAmounts(After(c, actions[0]), actions[1..]))
  }

  predicate Sequenced(actions: seq<Action>) {
    forall i, j :: 0 <= i < j < |actions| ==> Follows(actions[i], actions[j])
  }

  predicate AllOpen(c: Chain, actions: seq<Action>) {
    forall i :: 0 <= i < |actions| ==> Open(c, actions[i])
  }

  predicate AllEnabled(c: Chain, actions: seq<Action>) {
    forall i :: 0 <= i < |actions| ==> Enabled(c, actions[i])
  }

  predicate AllAnnounced(c: Chain, actions: seq<Action>) {
    forall i :: 0 <= i < |actions| ==> Announced(c, actions[i])
  }

  /** One success carries the guards and the amounts of all the rest over to the next state. */
  lemma SuccessCarriesRest(c: Chain, actions: seq<Action>)
    requires Valid(c) && actions != [] && Sequenced(actions) && AllEnabled(c, actions) && Open(c, actions[0])
    ensures var d, rest := After(c, actions[0]), actions[1..];
            && Valid(d) && Sequenced(rest) && AllEnabled(d, rest)
            && (AllOpen(d, rest) <==> AllOpen(c, rest))
            && (AllAnnounced(d, rest) <==> AllAnnounced(c, rest))
  {
    var d, rest := After(c, actions[0]), actions[1..];
    StepKeeps(c, StepOf(c, actions[0]));
    forall i | 0 <= i < |rest|
      ensures Enabled(d, rest[i]) && (Open(d, rest[i]) <==> Open(c, rest[i]))
      ensures Announced(d, rest[i]) <==> Announced(c, rest[i])
    {
      assert rest[i] == actions[i + 1] && Follows(actions[0], actions[i + 1]);
      ActionKeepsOthers(c, actions[0], rest[i]);
    }
  }

  lemma {:induction false} EnabledRunIff(c: Chain, actions: seq<Action>)
    requires Valid(c) && Sequenced(actions) && AllEnabled(c, actions)
    ensures CanRun(c, actions) <==> AllOpen(c, actions)
    ensures AllOpen(c, actions) ==> (MeetsAmounts(c, actions) <==> AllAnnounced(c, actions))
    decreases |actions|
  {
    if actions != [] {
      SucceedsIff(c, actions[0]);
      if Open(c, actions[0]) {
        SuccessCarriesRest(c, actions);
        EnabledRunIff(After(c, actions[0]), actions[1..]);
        AllOfCons(c, actions);
      }
    }
  }

  lemma AllOfCons(c: Chain, actions: seq<Action>)
    requires actions != []
    ensures AllOpen(c, actions) <==> Open(c, actions[0]) && AllOpen(c, actions[1..])
    ensures AllAnnounced(c, actions) <==> Announced(c, actions[0]) && AllAnnounced(c, actions[1..])
  {
    assert actions == [actions[0]] + actions[1..];
    forall i | 0 <= i < |actions[1..]| ensures actions[1..][i] == actions[i + 1] {
    }
  }

  // ------------------------------------------------------------ the plan's own actions

  predicate Planned(c: Chain, o: Options, a: Action) {
    || Wanted(c, o, ExpectedSplit(c), a)
    || (a.LpFees? && AfterMigration(c) && Position(a.position, a.pool, a.pendingBase, a.pendingQuote) in c.positions)
    || (a.Burn? && c.base.claimer == Some(a.amount))
  }

  lemma PlanHolds(c: Chain, o: Options)
    requires DistinctIds(c.positions)
    ensures forall a :: a in Plan(c, o) ==> Planned(c, o, a)
  {
    var split := ExpectedSplit(c);
    OnceUpToHolds(c, o, split, 6);
    DuePositionsHold(c, o);
    forall a | a in LpPart(c, o) ensures Planned(c, o, a) {
      var i :| 0 <= i < |LpPart(c, o)| && LpPart(c, o)[i] == a;
      assert DuePositions(c, o)[i] in DuePositions(c, o);
    }
  }

  /** A launch's harvest of the partner migration fee announces what the pool owes for it. */
  lemma SplitAnnounced(c: Chain)
    requires Valid(c) && FeeDue(c)
    ensures ExpectedSplit(c).Total() == c.curve.migrationFee
  {
  }

  /**
   * The migration fee harvest pays out the announced split when both payees can receive; a version 3
   * launch sweeps its transit into the vault on top.
   */
  lemma AnnouncedSplitIsPaid(c: Chain)
    requires Valid(c) && FeeDue(c) && Execute(c, HarvestMigrationFee).Ok?
    requires c.env.platform.Payable? && c.env.creator.Payable?
    ensures var f, g, split := c.funds, Apply(c, HarvestMigrationFee).funds, ExpectedSplit(c);
            && g.platform == f.platform + split.platform && g.creator == f.creator + split.creator
            && g.vault + g.transit == f.vault + f.transit + split.vault
            && g.transit == (if SplitsFees(c.launch) then 0 else f.transit)
  {
  }

  /** Every planned action is enabled as soon as the launch is registered, and announces what the chain holds. */
  lemma PlannedStands(c: Chain, o: Options, a: Action)
    requires Valid(c) && c.launch.registered && Planned(c, o, a)
    ensures Enabled(c, a) && Announced(c, a)
  {
    if a.MigrationFee? {
      SplitAnnounced(c);
    } else if a.LpFees? {
      var p := Position(a.position, a.pool, a.pendingBase, a.pendingQuote);
      var i :| 0 <= i < |c.positions| && c.positions[i] == p;
      assert c.positions[i].id == a.position;
    }
  }

  lemma PlanSequenced(c: Chain, o: Options)
    requires DistinctIds(c.positions)
    ensures Sequenced(Plan(c, o))
  {
    PlanShape(c, o);
  }

  /** The launch right after its pool is registered. */
  function Registered(c: Chain): Chain { c.(launch := c.launch.(registered := true)) }

  lemma RegistersFirst(c: Chain, o: Options)
    requires !c.launch.registered && !Unregistrable(c)
    ensures Plan(c, o) != [] && Plan(c, o)[0] == Register
    ensures After(c, Register) == Registered(c)
  {
    FirstOfOnce(c, o, ExpectedSplit(c), 6);
  }

  lemma {:induction false} FirstOfOnce(c: Chain, o: Options, split: FeeSplit, n: nat)
    requires !c.launch.registered && 1 <= n <= 6
    ensures OnceUpTo(c, o, split, n) != [] && OnceUpTo(c, o, split, n)[0] == Register
  {
    if n == 1 {
      assert OnceUpTo(c, o, split, 0) == [];
    } else {
      FirstOfOnce(c, o, split, n - 1);
    }
  }

  /** The amount of a surplus harvest that a plan for an unregistered launch announces is not the real one. */
  predicate SurplusUnseen(c: Chain) {
    !c.launch.registered && SurplusDue(c) && c.curve.surplus > 0
  }

  lemma PlannedAfterRegistering(c: Chain, o: Options, a: Action)
    requires Valid(c) && !Unregistrable(c) && !c.launch.registered && Planned(c, o, a) && !a.Register?
    ensures Enabled(Registered(c), a) && (Open(Registered(c), a) <==> Open(c, a))
    ensures Announced(Registered(c), a) <==> !(a.Surplus? && c.curve.surplus > 0)
  {
    match a
    case MigrationFee(_, _) => FeeAfterRegistering(c, o, a);
    case LpFees(_, _, _, _) => LpAfterRegistering(c, o, a);
    case _ => OthersAfterRegistering(c, o, a);
  }

  lemma FeeAfterRegistering(c: Chain, o: Options, a: Action)
    requires Valid(c) && !Unregistrable(c) && !c.launch.registered && Planned(c, o, a) && a.MigrationFee?
    ensures Enabled(Registered(c), a) && (Open(Registered(c), a) <==> Open(c, a)) && Announced(Registered(c), a)
  {
    SplitAnnounced(c);
  }

  lemma LpAfterRegistering(c: Chain, o: Options, a: Action)
    requires Valid(c) && !Unregistrable(c) && !c.launch.registered && Planned(c, o, a) && a.LpFees?
    ensures Enabled(Registered(c), a) && (Open(Registered(c), a) <==> Open(c, a)) && Announced(Registered(c), a)
  {
    var p := Position(a.position, a.pool, a.pendingBase, a.pendingQuote);
    var i :| 0 <= i < |c.positions| && c.positions[i] == p;
    assert c.positions[i].id == a.position;
  }

  lemma OthersAfterRegistering(c: Chain, o: Options, a: Action)
    requires Valid(c) && !Unregistrable(c) && !c.launch.registered && Planned(c, o, a)
    requires !a.Register? && !a.MigrationFee? && !a.LpFees?
    ensures Enabled(Registered(c), a) && (Open(Registered(c), a) <==> Open(c, a))
    ensures Announced(Registered(c), a) <==> !(a.Surplus? && c.curve.surplus > 0)
  {
  }

  lemma StandingPlan(c: Chain, o: Options)
    requires Valid(c) && (c.launch.registered || Unregistrable(c))
    ensures AllEnabled(c, Plan(c, o)) && AllAnnounced(c, Plan(c, o))
  {
    var plan := Plan(c, o);
    PlanHolds(c, o);
    forall i | 0 <= i < |plan| ensures Enabled(c, plan[i]) && Announced(c, plan[i]) {
      assert plan[i] in plan;
      if c.launch.registered {
        PlannedStands(c, o, plan[i]);
      }
    }
  }

  lemma RegisteringPlan(c: Chain, o: Options)
    requires Valid(c) && !c.launch.registered && !Unregistrable(c)
    ensures ReadyOnceRegistered(c, Plan(c, o))
  {
    var plan := Plan(c, o);
    RegistersFirst(c, o);
    PlanHolds(c, o);
    PlanSequenced(c, o);
    forall i | 0 < i < |plan|
      ensures Enabled(Registered(c), plan[i]) && (Open(Registered(c), plan[i]) <==> Open(c, plan[i]))
      ensures Announced(Registered(c), plan[i]) <==> !(plan[i].Surplus? && c.curve.surplus > 0)
    {
      assert Follows(plan[0], plan[i]) && plan[i] in plan;
      PlannedAfterRegistering(c, o, plan[i]);
    }
  }

  lemma SurplusInPlan(c: Chain, o: Options)
    requires Valid(c) && !c.launch.registered && !Unregistrable(c)
    ensures AnnouncesSurplus(c, Plan(c, o)) <==> SurplusUnseen(c)
  {
    var plan := Plan(c, o);
    var split := ExpectedSplit(c);
    RegistersFirst(c, o);
    PlanHolds(c, o);
    if SurplusDue(c) {
      var surplus := ActionAt(c, split, 3);
      OnceUpToHolds(c, o, split, 6);
      assert Wanted(c, o, split, surplus);
      assert surplus in plan;
    }
    forall i | 0 < i < |plan| && plan[i].Surplus? ensures SurplusDue(c) {
      assert plan[i] in plan;
    }
  }

  /**
   * Plan soundness: executed in order, every action of a plan succeeds, if and only if the quote
   * issuer and the platform's account let every one of them through; nothing else can stop it.
   */
  lemma PlanRunsIff(c: Chain, o: Options)
    requires Valid(c)
    ensures CanRun(c, Plan(c, o)) <==> AllOpen(c, Plan(c, o))
  {
    PlanSequenced(c, o);
    if c.launch.registered || Unregistrable(c) {
      StandingPlan(c, o);
      EnabledRunIff(c, Plan(c, o));
    } else {
      RegisteringPlan(c, o);
      RunsAfterRegistering(c, Plan(c, o));
    }
  }

  /** An executed plan pays the amounts it announced, except a surplus planned before the registration. */
  lemma PlanMeetsAmountsIff(c: Chain, o: Options)
    requires Valid(c) && AllOpen(c, Plan(c, o))
    ensures MeetsAmounts(c, Plan(c, o)) <==> Unregistrable(c) || !SurplusUnseen(c)
  {
    PlanSequenced(c, o);
    if c.launch.registered || Unregistrable(c) {
      StandingPlan(c, o);
      EnabledRunIff(c, Plan(c, o));
    } else {
      RegisteringPlan(c, o);
      SurplusInPlan(c, o);
      RunsAfterRegistering(c, Plan(c, o));
    }
  }

  /** `plan` starts by registering the pool, and everything after that is ready once it is registered. */
  predicate ReadyOnceRegistered(c: Chain, plan: seq<Action>) {
    && plan != [] && plan[0] == Register && Enabled(c, Register)
    && forall i :: 0 < i < |plan| ==>
         && Enabled(Registered(c), plan[i])
         && (Open(Registered(c), plan[i]) <==> Open(c, plan[i]))
         && (Announced(Registered(c), plan[i]) <==> !(plan[i].Surplus? && c.curve.surplus > 0))
  }

  lemma RunsAfterRegistering(c: Chain, plan: seq<Action>)
    requires Valid(c) && Sequenced(plan) && ReadyOnceRegistered(c, plan)
    ensures CanRun(c, plan) <==> AllOpen(c, plan)
    ensures AllOpen(c, plan) ==> (MeetsAmounts(c, plan) <==> !AnnouncesSurplus(c, plan))
  {
    var d, rest := Registered(c), plan[1..];
    SucceedsIff(c, Register);
    StepKeeps(c, RegisterPool);
    assert After(c, Register) == d;
    assert forall i :: 0 <= i < |rest| ==> rest[i] == plan[i + 1];
    assert Sequenced(rest) && AllEnabled(d, rest);
    EnabledRunIff(d, rest);
    AllOfCons(c, plan);
    assert AllOpen(d, rest) <==> AllOpen(c, rest);
    assert AllAnnounced(d, rest) <==> !AnnouncesSurplus(c, plan);
  }

  predicate AnnouncesSurplus(c: Chain, plan: seq<Action>) {
    exists i :: 0 < i < |plan| && plan[i].Surplus? && c.curve.surplus > 0
  }
}
