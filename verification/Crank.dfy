/** The crank's plan: the permissionless actions due in a state, in order. */
module Crank {
  import opened Results
  import opened Redemption
  import opened FeeSplits
  import opened Market
  import opened PositionOrder

  datatype Options = Options(
    minCurveFeeQuote: Option<int>,
    minLpFeeQuote: Option<int>,
    minLpFeeBase: Option<int>,
    includeForeignPositions: bool,
    maxLpHarvests: Option<int>,
    minClaimerBaseBurn: Option<int>,
    skipMigration: bool,
    quoteDecimals: nat,
    baseDecimals: nat)

  const DEFAULT_MAX_LP_HARVESTS: int := 4

  datatype Action =
    | Register
    | CurveFees(partnerQuoteFee: nat, partnerBaseFee: nat, createsClaimerBaseAccount: bool)
    | MigrationFee(expectedQuote: nat, split: FeeSplit)
    | Surplus(expectedQuote: nat)
    | Migrate
    | Sync
    | LpFees(pool: nat, position: nat, pendingQuote: nat, pendingBase: nat)
    | Burn(amount: nat)

  datatype Key = KRegister | KCurve | KFee | KSurplus | KMigrate | KSync | KLp(position: nat) | KBurn

  /** The identity of an action, by which a failing one is recognised. */
  function KeyOf(a: Action): Key {
    match a
    case Register => KRegister
    case CurveFees(_, _, _) => KCurve
    case MigrationFee(_, _) => KFee
    case Surplus(_) => KSurplus
    case Migrate => KMigrate
    case Sync => KSync
    case LpFees(_, position, _, _) => KLp(position)
    case Burn(_) => KBurn
  }

  function DefaultMinLpFeeQuote(quoteDecimals: nat): nat {
    Powers.Pow(10, if quoteDecimals > 5 then quoteDecimals - 5 else 0)
  }

  function MinCurve(o: Options): int {
    match o.minCurveFeeQuote case Some(n) => n case None => DefaultMinLpFeeQuote(o.quoteDecimals)
  }

  function MinLp(o: Options): int {
    match o.minLpFeeQuote case Some(n) => n case None => DefaultMinLpFeeQuote(o.quoteDecimals)
  }

  function MinBurn(o: Options): int {
    match o.minClaimerBaseBurn case Some(n) => n case None => Powers.Pow(10, o.baseDecimals)
  }

  function MaxLp(o: Options): nat {
    var n := match o.maxLpHarvests case Some(n) => n case None => DEFAULT_MAX_LP_HARVESTS;
    if n < 0 then 0 else n
  }

  // ------------------------------------------------------------ when each action is due

  predicate BurnDue(c: Chain, o: Options) {
    c.base.claimer.Some? && c.base.claimer.value >= MinBurn(o) && c.base.claimer.value > 0
  }

  predicate CurveDue(c: Chain, o: Options) {
    c.curve.quoteFee >= MinCurve(o) || c.curve.baseFee > 0
  }

  predicate Eligible(p: Position, o: Options, ownPool: nat) {
    && (o.includeForeignPositions || p.pool == ownPool)
    && (p.quote >= MinLp(o) || (o.minLpFeeBase.Some? && p.base >= o.minLpFeeBase.value && p.base > 0))
  }

  function EligibleIn(ps: seq<Position>, o: Options, ownPool: nat): seq<Position> {
    if ps == [] then []
    else if Eligible(ps[0], o, ownPool) then [ps[0]] + EligibleIn(ps[1..], o, ownPool)
    else EligibleIn(ps[1..], o, ownPool)
  }

  function Take(ps: seq<Position>, n: nat): seq<Position> {
    if n < |ps| then ps[..n] else ps
  }

  function DuePositions(c: Chain, o: Options): seq<Position> {
    Take(SortByQuote(EligibleIn(c.positions, o, c.ownPool)), MaxLp(o))
  }

  function HarvestOf(p: Position): Action {
    LpFees(p.pool, p.id, p.quote, p.base)
  }

  function HarvestsOf(ps: seq<Position>): (r: seq<Action>)
    ensures |r| == |ps| && forall i :: 0 <= i < |ps| ==> r[i] == HarvestOf(ps[i])
  {
    if ps == [] then [] else [HarvestOf(ps[0])] + HarvestsOf(ps[1..])
  }

  // ------------------------------------------------------------ the plan

  function Push(actions: seq<Action>, condition: bool, a: Action): seq<Action> {
    if condition then actions + [a] else actions
  }

  /** What the partner migration fee should pay out: split on version 3, all to the vault before. */
  function ExpectedSplit(c: Chain): FeeSplit {
    if c.curve.feePct > 100 || c.curve.creatorPct > 100 then AllToVault(0) else
    var partner := PartnerMigrationFee(c.curve.threshold, c.curve.feePct, c.curve.creatorPct);
    if !SplitsFees(c.launch) then AllToVault(partner)
    else match GraduationSplit(c.curve.threshold, partner)
      case Ok(split) => split
      case Err(_) => AllToVault(partner)
  }

  predicate Unregistrable(c: Chain) {
    !c.curve.created || (!c.launch.registered && c.curve.nameReserved)
  }

  predicate AfterMigration(c: Chain) {
    c.curve.migrated || c.launch.migrated
  }

  predicate FeeDue(c: Chain) { c.curve.complete && !c.launch.feeHarvested && !c.curve.feeWithdrawn }

  predicate SurplusDue(c: Chain) { c.curve.complete && !c.launch.surplusHarvested && !c.curve.surplusWithdrawn }

  predicate MigrateDue(c: Chain, o: Options) {
    c.curve.complete && !o.skipMigration && !c.curve.migrated && c.curve.progress == LockedVesting
  }

  predicate SyncDue(c: Chain) { c.curve.migrated && !c.launch.migrated && c.launch.registered }

  function Rank(a: Action): nat {
    match a
    case Register => 0
    case CurveFees(_, _, _) => 1
    case MigrationFee(_, _) => 2
    case Surplus(_) => 3
    case Migrate => 4
    case Sync => 5
    case LpFees(_, _, _, _) => 6
    case Burn(_) => 7
  }

  /** Whether the one-shot action (or curve fee harvest) of this rank is due. */
  predicate DueAt(c: Chain, o: Options, rank: nat) {
    match rank
    case 0 => !c.launch.registered
    case 1 => CurveDue(c, o)
    case 2 => FeeDue(c)
    case 3 => SurplusDue(c)
    case 4 => MigrateDue(c, o)
    case 5 => SyncDue(c)
    case _ => false
  }

  /** The action of this rank; `split` is what the partner migration fee should pay out. */
  function ActionAt(c: Chain, split: FeeSplit, rank: nat): Action {
    match rank
    case 0 => Register
    case 1 => CurveFees(c.curve.quoteFee, c.curve.baseFee, c.base.claimer.None?)
    case 2 => MigrationFee(split.Total(), split)
    case 3 => Surplus(if c.launch.registered then c.curve.surplus else 0)
    case 4 => Migrate
    case _ => Sync
  }

  /** The due actions of the ranks below `n`, in rank order. */
  function OnceUpTo(c: Chain, o: Options, split: FeeSplit, n: nat): seq<Action> {
    if n == 0 then [] else Push(OnceUpTo(c, o, split, n - 1), DueAt(c, o, n - 1), ActionAt(c, split, n - 1))
  }

  function LpPart(c: Chain, o: Options): seq<Action> {
    if AfterMigration(c) then HarvestsOf(DuePositions(c, o)) else []
  }

  predicate Burns(a: Action) { a.CurveFees? || a.LpFees? }

  /** Some planned harvest already burns the claimer's base account. */
  predicate BurnRides(c: Chain, o: Options) {
    CurveDue(c, o) || LpPart(c, o) != []
  }

  /** The plan without a standalone burn. */
  function Harvesting(c: Chain, o: Options, split: FeeSplit): seq<Action> {
    OnceUpTo(c, o, split, 6) + LpPart(c, o)
  }

  function Plan(c: Chain, o: Options): seq<Action> {
    var burn := Burn(Claimed(c.base));
    if Unregistrable(c) then Push([], BurnDue(c, o), burn)
    else Push(Harvesting(c, o, ExpectedSplit(c)), !BurnRides(c, o) && BurnDue(c, o), burn)
  }

  /** The planner as written: it pushes each due action and looks back for a harvest that already burns. */
  method PlanCrank(c: Chain, o: Options) returns (actions: seq<Action>)
    ensures actions == Plan(c, o)
  {
    actions := [];
    var burnDue := BurnDue(c, o);
    if !c.curve.created || (!c.launch.registered && c.curve.nameReserved) {
      if burnDue { actions := actions + [Burn(c.base.claimer.value)]; }
      return;
    }
    var split := ExpectedSplit(c);
    var once := PlanOnce(c, o, split);
    var lp := PlanLp(c, o);
    actions := once + lp;
    BurnRidesIff(c, o, split);
    var harvestBurns := exists i :: 0 <= i < |actions| && Burns(actions[i]);
    if !harvestBurns && burnDue {
      actions := actions + [Burn(c.base.claimer.value)];
    }
  }

  method PlanLp(c: Chain, o: Options) returns (actions: seq<Action>)
    ensures actions == LpPart(c, o)
  {
    actions := [];
    if c.curve.migrated || c.launch.migrated {
      var due := DuePositions(c, o);
      for i := 0 to |due|
        invariant actions == HarvestsOf(due)[..i]
      {
        actions := actions + [LpFees(due[i].pool, due[i].id, due[i].quote, due[i].base)];
      }
    }
  }

  method PlanOnce(c: Chain, o: Options, split: FeeSplit) returns (actions: seq<Action>)
    ensures actions == OnceUpTo(c, o, split, 6)
  {
    actions := [];
    if !c.launch.registered { actions := actions + [Register]; }
    assert actions == OnceUpTo(c, o, split, 1);
    if CurveDue(c, o) {
      actions := actions + [CurveFees(c.curve.quoteFee, c.curve.baseFee, c.base.claimer.None?)];
    }
    assert actions == OnceUpTo(c, o, split, 2);
    if c.curve.complete {
      if !c.launch.feeHarvested && !c.curve.feeWithdrawn {
        actions := actions + [MigrationFee(split.Total(), split)];
      }
      assert actions == OnceUpTo(c, o, split, 3);
      if !c.launch.surplusHarvested && !c.curve.surplusWithdrawn {
        actions := actions + [Surplus(if c.launch.registered then c.curve.surplus else 0)];
      }
      assert actions == OnceUpTo(c, o, split, 4);
      if !o.skipMigration && !c.curve.migrated && c.curve.progress == LockedVesting {
        actions := actions + [Migrate];
      }
    } else {
      assert OnceUpTo(c, o, split, 3) == actions && OnceUpTo(c, o, split, 4) == actions;
    }
    assert actions == OnceUpTo(c, o, split, 5);
    if c.curve.migrated && !c.launch.migrated && c.launch.registered {
      actions := actions + [Sync];
    }
  }

  // ------------------------------------------------------------ what a plan contains

  /** Exactly which actions the first part of a plan holds, with which amounts. */
  predicate Wanted(c: Chain, o: Options, split: FeeSplit, a: Action) {
    Rank(a) < 6 && DueAt(c, o, Rank(a)) && a == ActionAt(c, split, Rank(a))
  }

  /** Kinds appear in the documented order, and only the LP harvests may repeat. */
  predicate Ordered(actions: seq<Action>) {
    forall i, j :: 0 <= i < j < |actions| ==>
      Rank(actions[i]) < Rank(actions[j]) || (actions[i].LpFees? && actions[j].LpFees?)
  }

  lemma {:induction false} OnceUpToHolds(c: Chain, o: Options, split: FeeSplit, n: nat)
    requires n <= 6
    ensures Ordered(OnceUpTo(c, o, split, n))
    ensures forall a :: a in OnceUpTo(c, o, split, n) <==> Wanted(c, o, split, a) && Rank(a) < n
  {
    if n > 0 {
      var actions, a := OnceUpTo(c, o, split, n - 1), ActionAt(c, split, n - 1);
      OnceUpToHolds(c, o, split, n - 1);
      RankAt(c, split, n - 1);
      PushKeeps(actions, DueAt(c, o, n - 1), a);
      forall x | Rank(x) == n - 1
        ensures Wanted(c, o, split, x) <==> DueAt(c, o, n - 1) && x == a
      {
      }
    }
  }

  lemma RankAt(c: Chain, split: FeeSplit, rank: nat)
    requires rank < 6
    ensures Rank(ActionAt(c, split, rank)) == rank
  {
  }

  lemma PushKeeps(actions: seq<Action>, condition: bool, a: Action)
    requires Ordered(actions) && forall x :: x in actions ==> Rank(x) < Rank(a)
    ensures Ordered(Push(actions, condition, a))
    ensures forall x :: x in Push(actions, condition, a) <==> x in actions || (condition && x == a)
  {
    forall i | 0 <= i < |actions| ensures Rank(actions[i]) < Rank(a) {
      assert actions[i] in actions;
    }
  }

  lemma LpPartHolds(c: Chain, o: Options)
    ensures forall a :: a in LpPart(c, o) ==> a.LpFees?
  {
  }

  lemma BurnRidesIff(c: Chain, o: Options, split: FeeSplit)
    ensures var actions := Harvesting(c, o, split);
            BurnRides(c, o) <==> exists i :: 0 <= i < |actions| && Burns(actions[i])
  {
    var early, late := OnceUpTo(c, o, split, 6), LpPart(c, o);
    OnceUpToHolds(c, o, split, 6);
    if late != [] {
      assert Harvesting(c, o, split) == early + late;
      LateBurns(early, late);
    } else {
      var actions := Harvesting(c, o, split);
      assert actions == early;
      var curve := ActionAt(c, split, 1);
      assert CurveDue(c, o) ==> Wanted(c, o, split, curve);
      forall i | 0 <= i < |actions| && Burns(actions[i]) ensures CurveDue(c, o) {
        assert actions[i] in early;
      }
      if CurveDue(c, o) {
        var i :| 0 <= i < |actions| && actions[i] == curve;
        assert Burns(actions[i]);
      }
    }
  }

  lemma LateBurns(early: seq<Action>, late: seq<Action>)
    requires late != [] && late[0].LpFees?
    ensures exists i :: 0 <= i < |early + late| && Burns((early + late)[i])
  {
    assert (early + late)[|early|] == late[0];
  }
}
