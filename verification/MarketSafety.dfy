/** What every step keeps, and what holds over every run of steps. */
module MarketSafety {
  import opened Redemption
  import opened FeeSplits
  import opened Market

  // ------------------------------------------------------------ the invariant

  predicate Configured(c: Chain) {
    && c.launch.exitFeeBps <= MAX_EXIT_FEE_BPS
    && 2 <= c.launch.version
    && c.curve.threshold <= U64_MAX
    && MIN_MIGRATION_FEE_PERCENTAGE <= c.curve.feePct <= MAX_MIGRATION_FEE_PERCENTAGE
    && c.curve.creatorPct <= 100
  }

  /** Base tokens add up to the supply, and both assets fit the token programs' u64 amounts. */
  predicate Balanced(c: Chain) {
    && TotalBase(c) == c.base.supply <= U64_MAX
    && TotalQuote(c) <= U64_MAX
  }

  /** The latches agree with the pool: only the claimer can withdraw, and each stage needs the one before it. */
  predicate Staged(c: Chain) {
    && (c.launch.registered ==> c.curve.created)
    && (c.curve.complete ==> c.curve.created)
    && (c.launch.feeHarvested ==> c.launch.registered && c.curve.complete)
    && (c.launch.surplusHarvested ==> c.launch.registered && c.curve.complete)
    && (c.launch.migrated ==> c.launch.registered && c.curve.migrated)
    && (c.launch.feeHarvested <==> c.curve.feeWithdrawn)
    && (c.launch.surplusHarvested <==> c.curve.surplusWithdrawn)
    && (c.curve.migrated ==> c.curve.complete)
    && (c.curve.migrated <==> c.curve.progress == CreatedPool)
    && (c.curve.complete && !c.curve.migrated ==> c.curve.progress == LockedVesting)
  }

  /** What the pool owes for the migration is the fee formula until it is paid, and nothing afterwards. */
  predicate Owing(c: Chain)
    requires Configured(c)
  {
    && c.curve.migrationFee == (if c.curve.complete && !c.curve.feeWithdrawn
                                then PartnerMigrationFee(c.curve.threshold, c.curve.feePct, c.curve.creatorPct) else 0)
    && (!c.curve.complete || c.curve.surplusWithdrawn ==> c.curve.surplus == 0)
  }

  predicate Valid(c: Chain) {
    Configured(c) && Balanced(c) && Staged(c) && Owing(c) && DistinctIds(c.positions)
  }

  // ------------------------------------------------------------ sums over positions

  lemma {:induction false} SumsAfterUpdate(ps: seq<Position>, i: nat, p: Position)
    requires i < |ps|
    ensures QuoteIn(ps[i := p]) + ps[i].quote == QuoteIn(ps) + p.quote
    ensures BaseIn(ps[i := p]) + ps[i].base == BaseIn(ps) + p.base
  {
    if i == 0 {
      assert ps[0 := p][1..] == ps[1..];
    } else {
      SumsAfterUpdate(ps[1..], i - 1, p);
      assert ps[i := p][1..] == ps[1..][i - 1 := p];
    }
  }

  lemma {:induction false} SumsAfterAppend(ps: seq<Position>, p: Position)
    ensures QuoteIn(ps + [p]) == QuoteIn(ps) + p.quote
    ensures BaseIn(ps + [p]) == BaseIn(ps) + p.base
  {
    if ps == [] {
      assert [p][1..] == [];
      assert ps + [p] == [p];
    } else {
      SumsAfterAppend(ps[1..], p);
      assert (ps + [p])[1..] == ps[1..] + [p];
    }
  }

  lemma DistributionConserves(funds: Funds, env: Conditions, split: FeeSplit)
    ensures Held(Distributed(funds, env, split)) == Held(funds) + split.Total()
  {
  }

  // ------------------------------------------------------------ what one step keeps

  /** A step that keeps the invariant, every unit of quote, the fixed parameters and the latches. */
  predicate Keeps(c: Chain, d: Chain) {
    && Valid(d)
    && TotalQuote(d) == TotalQuote(c)
    && d.curve.threshold == c.curve.threshold && d.curve.feePct == c.curve.feePct && d.curve.creatorPct == c.curve.creatorPct
    && d.launch.version == c.launch.version && d.launch.exitFeeBps == c.launch.exitFeeBps
    && (c.launch.registered ==> d.launch.registered)
    && (c.launch.feeHarvested ==> d.launch.feeHarvested)
    && (c.launch.surplusHarvested ==> d.launch.surplusHarvested)
    && (c.launch.migrated ==> d.launch.migrated)
    && (c.curve.complete ==> d.curve.complete)
    && (c.curve.migrated ==> d.curve.migrated)
    && (c.curve.created ==> d.curve.created && d.base.supply <= c.base.supply)
  }

  lemma LatchesKeep(c: Chain, s: Step)
    requires Valid(c) && Execute(c, s).Ok?
    requires s.RegisterPool? || s.SyncMigration? || s.BurnClaimerBase? || s.HarvestSurplus?
    ensures Keeps(c, Execute(c, s).value)
  {
  }

  lemma CurveFeesKeep(c: Chain, create: bool)
    requires Valid(c) && Execute(c, HarvestCurveFees(create)).Ok?
    ensures Keeps(c, Execute(c, HarvestCurveFees(create)).value)
  {
    if SplitsFees(c.launch) {
      PlatformCurveFeesKeep(c, create);
    } else {
      VaultCurveFeesKeep(c, create);
    }
  }

  lemma PlatformCurveFeesKeep(c: Chain, create: bool)
    requires Valid(c) && SplitsFees(c.launch) && HarvestCurveFeesStep(c, create).Ok?
    ensures Keeps(c, HarvestCurveFeesStep(c, create).value)
  {
  }

  lemma VaultCurveFeesKeep(c: Chain, create: bool)
    requires Valid(c) && !SplitsFees(c.launch) && HarvestCurveFeesStep(c, create).Ok?
    ensures Keeps(c, HarvestCurveFeesStep(c, create).value)
  {
  }

  lemma MigrationFeeKeeps(c: Chain)
    requires Valid(c) && Execute(c, HarvestMigrationFee).Ok?
    ensures Keeps(c, Execute(c, HarvestMigrationFee).value)
  {
    if SplitsFees(c.launch) {
      DistributionConserves(c.funds, c.env, GraduationSplit(c.curve.threshold, c.curve.migrationFee).value);
    }
  }

  lemma LpFeesKeep(c: Chain, id: nat)
    requires Valid(c) && Execute(c, HarvestLpFees(id)).Ok?
    ensures Keeps(c, Execute(c, HarvestLpFees(id)).value)
  {
    var i := IndexOf(c.positions, id).value;
    var p := c.positions[i];
    SumsAfterUpdate(c.positions, i, p.(base := 0, quote := 0));
    if SplitsFees(c.launch) {
      DistributionConserves(c.funds, c.env, LpFeeSplit(p.quote).value);
    }
  }

  lemma RedeemKeeps(c: Chain, amount: nat, held: nat, to: Destination)
    requires Valid(c) && Execute(c, Redeem(amount, held, to)).Ok?
    ensures Keeps(c, Execute(c, Redeem(amount, held, to)).value)
  {
  }

  lemma MigrateKeeps(c: Chain, nft: nat)
    requires Valid(c) && Execute(c, MigrateDammV2(nft)).Ok?
    ensures Keeps(c, Execute(c, MigrateDammV2(nft)).value)
  {
    SumsAfterAppend(c.positions, Position(nft, c.ownPool, 0, 0));
  }

  lemma CurveTradingKeeps(c: Chain, s: Step)
    requires Valid(c) && Execute(c, s).Ok?
    requires s.CreatePool? || s.TradeOnCurve?
    ensures Keeps(c, Execute(c, s).value)
  {
  }

  lemma CompletionKeeps(c: Chain, surplus: nat, poolBase: nat)
    requires Valid(c) && Execute(c, CompleteCurve(surplus, poolBase)).Ok?
    ensures Keeps(c, Execute(c, CompleteCurve(surplus, poolBase)).value)
  {
  }

  lemma DammTradingKeeps(c: Chain, id: nat, baseFee: nat, quoteFee: nat)
    requires Valid(c) && OutsideStep(c, TradeOnDamm(id, baseFee, quoteFee)).Ok?
    ensures Keeps(c, OutsideStep(c, TradeOnDamm(id, baseFee, quoteFee)).value)
  {
    var i := IndexOf(c.positions, id).value;
    var p := c.positions[i];
    SumsAfterUpdate(c.positions, i, p.(base := p.base + baseFee, quote := p.quote + quoteFee));
  }

  lemma GrantKeeps(c: Chain, nft: nat, pool: nat)
    requires Valid(c) && OutsideStep(c, GrantPosition(nft, pool)).Ok?
    ensures Keeps(c, OutsideStep(c, GrantPosition(nft, pool)).value)
  {
    SumsAfterAppend(c.positions, Position(nft, pool, 0, 0));
  }

  lemma DonationsKeep(c: Chain, s: Step)
    requires Valid(c) && OutsideStep(c, s).Ok?
    requires s.DonateToVault? || s.DonateToTransit? || s.PayeesSpend? || s.PayPayees?
    ensures Keeps(c, OutsideStep(c, s).value)
  {
  }

  lemma BaseMovesKeep(c: Chain, s: Step)
    requires Valid(c) && OutsideStep(c, s).Ok?
    requires s.DonateToClaimer? || s.BurnByHolder? || s.SetConditions?
    ensures Keeps(c, OutsideStep(c, s).value)
  {
  }

  /** Every transaction, whatever its outcome, keeps the invariant, every unit of quote and every latch. */
  lemma StepKeeps(c: Chain, s: Step)
    requires Valid(c)
    ensures Keeps(c, Apply(c, s))
  {
    if Execute(c, s).Ok? {
      match s
      case HarvestCurveFees(create) => CurveFeesKeep(c, create);
      case HarvestMigrationFee => MigrationFeeKeeps(c);
      case HarvestLpFees(id) => LpFeesKeep(c, id);
      case Redeem(amount, held, to) => RedeemKeeps(c, amount, held, to);
      case MigrateDammV2(nft) => MigrateKeeps(c, nft);
      case CompleteCurve(surplus, poolBase) => CompletionKeeps(c, surplus, poolBase);
      case CreatePool(_) => CurveTradingKeeps(c, s);
      case TradeOnCurve(_, _, _) => CurveTradingKeeps(c, s);
      case TradeOnDamm(id, baseFee, quoteFee) => DammTradingKeeps(c, id, baseFee, quoteFee);
      case GrantPosition(nft, pool) => GrantKeeps(c, nft, pool);
      case DonateToClaimer(_) => BaseMovesKeep(c, s);
      case BurnByHolder(_) => BaseMovesKeep(c, s);
      case SetConditions(_) => BaseMovesKeep(c, s);
      case RegisterPool => LatchesKeep(c, s);
      case HarvestSurplus => LatchesKeep(c, s);
      case SyncMigration => LatchesKeep(c, s);
      case BurnClaimerBase => LatchesKeep(c, s);
      case _ => DonationsKeep(c, s);
    }
  }

  /** Over every run the quote total is constant, the latches never reset and the supply never grows. */
  lemma {:induction false} RunKeeps(c: Chain, steps: seq<Step>)
    requires Valid(c)
    ensures Keeps(c, Run(c, steps))
    decreases |steps|
  {
    if steps != [] {
      StepKeeps(c, steps[0]);
      RunKeeps(Apply(c, steps[0]), steps[1..]);
    }
  }
}
