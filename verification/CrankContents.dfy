/** Exactly what a plan holds, in terms of the amounts owed: which dust it waits for, and what the latches rule out. */
module CrankContents {
  import opened Results
  import opened Powers
  import opened Market
  import opened MarketSafety
  import MarketRuns
  import opened Crank
  import opened CrankPlan
  import opened CrankSoundness

  // ------------------------------------------------------------ dust

  /** A minimum that is given, or else 0.00001 of a whole quote token and at least one raw unit. */
  predicate WorthHarvesting(quote: nat, minimum: Option<int>, decimals: nat) {
    match minimum
    case Some(n) => quote >= n
    case None => if decimals >= 5 then 100_000 * quote >= Pow(10, decimals) else quote > 0
  }

  /** A minimum that is given, or else one whole base token; never nothing. */
  predicate WorthBurning(base: nat, minimum: Option<int>, decimals: nat) {
    base > 0 && (match minimum case Some(n) => base >= n case None => base >= Pow(10, decimals))
  }

  lemma FiveDigits(decimals: nat)
    requires decimals >= 5
    ensures 100_000 * Pow(10, decimals - 5) == Pow(10, decimals)
  {
    PowSum(10, 5, decimals - 5);
    assert Pow(10, 5) == 100_000 by {
      assert Pow(10, 1) == 10 * Pow(10, 0) && Pow(10, 2) == 10 * Pow(10, 1) && Pow(10, 3) == 10 * Pow(10, 2);
      assert Pow(10, 4) == 10 * Pow(10, 3) && Pow(10, 5) == 10 * Pow(10, 4);
    }
  }

  lemma DustIs(quote: nat, o: Options)
    ensures quote >= MinCurve(o) <==> WorthHarvesting(quote, o.minCurveFeeQuote, o.quoteDecimals)
    ensures quote >= MinLp(o) <==> WorthHarvesting(quote, o.minLpFeeQuote, o.quoteDecimals)
  {
    if o.quoteDecimals >= 5 {
      FiveDigits(o.quoteDecimals);
    } else {
      assert Pow(10, 0) == 1;
    }
  }

  // ------------------------------------------------------------ the contents of a plan

  /** What the plan of a registrable launch holds of each kind, with its amounts. */
  predicate Holds(c: Chain, o: Options, a: Action) {
    match a
    case Register => !c.launch.registered
    case CurveFees(quote, base, creates) =>
      && quote == c.curve.quoteFee && base == c.curve.baseFee && creates == c.base.claimer.None?
      && (base > 0 || WorthHarvesting(quote, o.minCurveFeeQuote, o.quoteDecimals))
    case MigrationFee(quote, split) =>
      c.curve.complete && !c.launch.feeHarvested && quote == c.curve.migrationFee && split == ExpectedSplit(c)
    case Surplus(quote) =>
      && c.curve.complete && !c.launch.surplusHarvested
      && quote == (if c.launch.registered then c.curve.surplus else 0)
    case Migrate => c.curve.complete && !c.curve.migrated && !o.skipMigration
    case Sync => c.launch.registered && c.curve.migrated && !c.launch.migrated
    case LpFees(pool, position, quote, base) =>
      AfterMigration(c) && Position(position, pool, base, quote) in DuePositions(c, o)
    case Burn(amount) =>
      && c.base.claimer == Some(amount) && WorthBurning(amount, o.minClaimerBaseBurn, o.baseDecimals)
      && forall b :: b in Plan(c, o) ==> !b.CurveFees? && !b.LpFees?
  }

  lemma LpPartIs(c: Chain, o: Options, a: Action)
    requires a.LpFees?
    ensures a in LpPart(c, o) <==>
              AfterMigration(c) && Position(a.position, a.pool, a.pendingBase, a.pendingQuote) in DuePositions(c, o)
  {
    var p, due := Position(a.position, a.pool, a.pendingBase, a.pendingQuote), DuePositions(c, o);
    if AfterMigration(c) {
      if p in due {
        var i :| 0 <= i < |due| && due[i] == p;
        assert LpPart(c, o)[i] == HarvestOf(p) == a;
      }
      if a in LpPart(c, o) {
        var i :| 0 <= i < |due| && LpPart(c, o)[i] == a;
        assert HarvestOf(due[i]) == a;
      }
    }
  }

  lemma OncePartIs(c: Chain, o: Options, a: Action)
    requires Valid(c) && !a.LpFees? && !a.Burn?
    ensures a in OnceUpTo(c, o, ExpectedSplit(c), 6) <==> Holds(c, o, a)
  {
    OnceUpToHolds(c, o, ExpectedSplit(c), 6);
    DustIs(c.curve.quoteFee, o);
    if FeeDue(c) {
      SplitAnnounced(c);
    }
  }

  lemma BurnRidesMeans(c: Chain, o: Options)
    requires Valid(c) && !Unregistrable(c)
    ensures BurnRides(c, o) <==> exists b :: b in Plan(c, o) && (b.CurveFees? || b.LpFees?)
  {
    var split := ExpectedSplit(c);
    var actions := Harvesting(c, o, split);
    BurnRidesIff(c, o, split);
    if BurnRides(c, o) {
      var i :| 0 <= i < |actions| && Burns(actions[i]);
      assert actions[i] in Plan(c, o);
    }
    if exists b :: b in Plan(c, o) && (b.CurveFees? || b.LpFees?) {
      var b :| b in Plan(c, o) && (b.CurveFees? || b.LpFees?);
      assert b in actions;
      var i :| 0 <= i < |actions| && actions[i] == b;
      assert Burns(actions[i]);
    }
  }

  /** The plan of a registrable launch holds exactly what is owed beyond dust and what the latches leave to do. */
  lemma PlanHoldsIff(c: Chain, o: Options, a: Action)
    requires Valid(c) && !Unregistrable(c)
    ensures a in Plan(c, o) <==> Holds(c, o, a)
  {
    var early, late := OnceUpTo(c, o, ExpectedSplit(c), 6), LpPart(c, o);
    LpPartHolds(c, o);
    OnceUpToHolds(c, o, ExpectedSplit(c), 6);
    assert a in early + late <==> a in early || a in late;
    if a.LpFees? {
      LpPartIs(c, o, a);
    } else if a.Burn? {
      BurnRidesMeans(c, o);
    } else {
      OncePartIs(c, o, a);
    }
  }

  /** A launch that can never be registered has its burn alone. */
  lemma UnregistrablePlanIs(c: Chain, o: Options, a: Action)
    requires Unregistrable(c)
    ensures a in Plan(c, o) <==>
              a.Burn? && c.base.claimer == Some(a.amount) && WorthBurning(a.amount, o.minClaimerBaseBurn, o.baseDecimals)
  {
  }

  // ------------------------------------------------------------ the positions it takes

  /** At most four unless the caller says otherwise, and never a negative number. */
  predicate WithinCap(n: nat, cap: Option<int>) {
    match cap case Some(m) => n <= (if m < 0 then 0 else m) case None => n <= 4
  }

  /** A position the caller's options cover and that owes more than dust. */
  predicate WorthTaking(p: Position, o: Options, ownPool: nat) {
    && (p.pool == ownPool || o.includeForeignPositions)
    && (WorthHarvesting(p.quote, o.minLpFeeQuote, o.quoteDecimals)
        || (o.minLpFeeBase.Some? && p.base >= o.minLpFeeBase.value && p.base > 0))
  }

  lemma WorthTakingIsEligible(p: Position, o: Options, ownPool: nat)
    ensures Eligible(p, o, ownPool) <==> WorthTaking(p, o, ownPool)
  {
    DustIs(p.quote, o);
  }

  /** The positions harvested: only ones worth taking, within the cap, and all of them where one more would still fit. */
  lemma PositionsTaken(c: Chain, o: Options, p: Position)
    requires DistinctIds(c.positions)
    ensures var due := DuePositions(c, o);
            && WithinCap(|due|, o.maxLpHarvests)
            && (p in due ==> p in c.positions && WorthTaking(p, o, c.ownPool))
            && (WithinCap(|due| + 1, o.maxLpHarvests) && p in c.positions && WorthTaking(p, o, c.ownPool) ==> p in due)
  {
    DuePositionsHold(c, o);
    WorthTakingIsEligible(p, o, c.ownPool);
  }

  // ------------------------------------------------------------ no sync behind the latch

  /** Once the migration is latched, no plan of any later state holds a sync; before, exactly a migrated pool does. */
  lemma NoSyncAfterLatch(c: Chain, o: Options, steps: seq<Step>)
    requires Valid(c) && (c.launch.migrated || MarketRuns.LatchedIn(c, steps))
    ensures Sync !in Plan(Run(c, steps), o)
  {
    var d := Run(c, steps);
    MarketRuns.MigratedLatchIff(c, steps);
    RunKeeps(c, steps);
    if Unregistrable(d) {
      UnregistrablePlanIs(d, o, Sync);
    } else {
      PlanHoldsIff(d, o, Sync);
    }
  }
}
