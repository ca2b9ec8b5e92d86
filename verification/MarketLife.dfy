/** What others can always do to a launch, and the way from its creation to an open redemption. */
module MarketLife {
  import opened Results
  import opened Redemption
  import opened FeeSplits
  import opened Market
  import opened MarketSafety
  import opened MarketRuns
  import opened MarketPayments

  // ------------------------------------------------------------ what nobody can keep others from

  /** Holders and donors move what is theirs, down to the last unit, and no more. */
  lemma OthersMoveTheirs(c: Chain, quote: nat, base: nat)
    requires Valid(c)
    ensures Execute(c, DonateToVault(quote)).Ok? <==> quote <= c.funds.outside
    ensures Execute(c, DonateToTransit(quote)).Ok? <==> quote <= c.funds.outside && !c.env.transitFrozen
    ensures Execute(c, DonateToClaimer(base)).Ok? <==> base <= c.base.others
    ensures Execute(c, BurnByHolder(base)).Ok? <==> base <= c.base.others
  {
  }

  /** So do payees, and those who pay them while their accounts can receive. */
  lemma PayeesMoveTheirs(c: Chain, platform: nat, creator: nat)
    ensures Execute(c, PayeesSpend(platform, creator)).Ok? <==> platform <= c.funds.platform && creator <= c.funds.creator
    ensures Execute(c, PayPayees(platform, creator)).Ok? <==>
              && platform + creator <= c.funds.outside
              && (c.env.platform.Payable? || platform == 0) && (c.env.creator.Payable? || creator == 0)
  {
  }

  /** Traders pay fees to any position there is, and anyone may lock a new one for the claimer. */
  lemma PositionsGrow(c: Chain, id: nat, pool: nat, quote: nat, base: nat)
    ensures Execute(c, TradeOnDamm(id, base, quote)).Ok? <==>
              base <= c.base.others && quote <= c.funds.outside && exists p :: p in c.positions && p.id == id
    ensures Execute(c, GrantPosition(id, pool)).Ok? <==> forall p :: p in c.positions ==> p.id != id
    ensures Execute(c, GrantPosition(id, pool)).Ok? ==>
              Apply(c, GrantPosition(id, pool)).positions == c.positions + [Position(id, pool, 0, 0)]
  {
    var r := IndexOf(c.positions, id);
    if r.Some? {
      assert c.positions[r.value] in c.positions;
    }
  }

  // ------------------------------------------------------------ from creation to redemption

  /** A curve that is opened, traded on, completed, migrated and harvested. */
  datatype Plan = Plan(minted: nat, quoteFee: nat, bought: nat, surplus: nat, poolBase: nat, nft: nat)

  function Life(p: Plan): seq<Step> {
    [CreatePool(p.minted), RegisterPool, TradeOnCurve(p.quoteFee, 0, p.bought), CompleteCurve(p.surplus, p.poolBase),
     MigrateDammV2(p.nft), HarvestMigrationFee]
  }

  /** What the pool has to sell, and what traders have to pay for the fees. */
  predicate Affordable(c: Chain, p: Plan)
    requires c.curve.feePct <= 100 && c.curve.creatorPct <= 100
  {
    && p.bought + p.poolBase <= p.minted <= U64_MAX
    && p.quoteFee + PartnerMigrationFee(c.curve.threshold, c.curve.feePct, c.curve.creatorPct) + p.surplus <= c.funds.outside
  }

  predicate Unhindered(env: Conditions) { !env.paused && !env.hook && !env.vaultFrozen && !env.transitFrozen }

  lemma {:induction false} SixSteps(c: Chain, steps: seq<Step>)
    requires |steps| == 6
    ensures Run(c, steps)
         == Apply(Apply(Apply(Apply(Apply(Apply(c, steps[0]), steps[1]), steps[2]), steps[3]), steps[4]), steps[5])
  {
    var c2 := Apply(Apply(c, steps[0]), steps[1]);
    var c4 := Apply(Apply(c2, steps[2]), steps[3]);
    assert Run(c, steps) == Run(c2, steps[1..][1..]) == Run(c2, steps[2..]);
    assert Run(c2, steps[2..]) == Run(c4, steps[2..][1..][1..]) == Run(c4, steps[4..]);
    assert Run(c4, steps[4..]) == Run(Apply(Apply(c4, steps[4]), steps[5]), steps[4..][1..][1..]);
  }

  /** A new launch of version 3 with nothing in it. */
  predicate IsNew(c: Chain) {
    && c.launch == Launch(3, c.launch.exitFeeBps, false, false, false, false)
    && c.curve == Curve(false, c.curve.nameReserved, c.curve.threshold, c.curve.feePct, 0, false, PreBondingCurve,
                        false, false, false, 0, 0, 0, 0, 0)
    && c.positions == [] && c.funds == Funds(0, 0, 0, 0, c.funds.outside) && c.base == Base(0, None, 0)
  }

  /** After the curve is complete and migrated, all that was not sold or put into the pool is burned. */
  lemma Migrates(c: Chain, p: Plan)
    requires Valid(c) && IsNew(c) && !c.curve.nameReserved && Affordable(c, p)
    ensures var steps := Life(p);
            var d := Apply(Apply(Apply(Apply(Apply(c, steps[0]), steps[1]), steps[2]), steps[3]), steps[4]);
            var fee := PartnerMigrationFee(c.curve.threshold, c.curve.feePct, 0);
            && d.launch == c.launch.(registered := true) && d.env == c.env
            && d.curve == Curve(true, false, c.curve.threshold, c.curve.feePct, 0, true, CreatedPool, true, false, false,
                                p.quoteFee, 0, fee, p.surplus, 0)
            && d.base == Base(p.bought + p.poolBase, None, p.bought + p.poolBase)
            && d.funds == Funds(0, 0, 0, 0, c.funds.outside - p.quoteFee - fee - p.surplus)
  {
  }

  /** The migration fee harvest of a migrated launch opens redemption, with at least the promised share in the vault. */
  lemma HarvestOpens(d: Chain)
    requires Configured(d) && SplitsFees(d.launch) && d.launch.registered && !d.launch.feeHarvested
    requires d.curve.complete && MigrationComplete(d.curve) && !d.curve.feeWithdrawn && Unhindered(d.env)
    requires d.curve.creatorPct == 0 && d.curve.migrationFee == PartnerMigrationFee(d.curve.threshold, d.curve.feePct, 0)
    requires d.funds.vault == 0 && d.funds.transit == 0
    ensures var e, share := Apply(d, HarvestMigrationFee), VaultAtGraduation(d.curve.threshold, d.curve.feePct);
            && Redeemable(e) && e.launch.migrated && e.base == d.base && e.funds.vault >= share
            && (d.env.platform.Payable? && d.env.creator.Payable? ==> e.funds.vault == share)
  {
    assert 0 <= d.curve.migrationFee <= d.curve.threshold;
  }

  /**
   * Every launch that creation accepts can be led to an open redemption: with an unreserved name, and unless
   * the issuer interferes, these six transactions leave the tokens that are held, and no others, backed by at
   * least the promised vault share, exactly that where both payees can be paid.
   */
  lemma LaunchesOpen(c: Chain, p: Plan)
    requires Valid(c) && IsNew(c) && !c.curve.nameReserved && Affordable(c, p) && Unhindered(c.env)
    ensures var d := Run(c, Life(p));
            && Redeemable(d) && d.launch.migrated && d.base == Base(p.bought + p.poolBase, None, p.bought + p.poolBase)
            && d.funds.vault >= VaultAtGraduation(c.curve.threshold, c.curve.feePct)
            && (c.env.platform.Payable? && c.env.creator.Payable? ==>
                  d.funds.vault == VaultAtGraduation(c.curve.threshold, c.curve.feePct))
  {
    SixSteps(c, Life(p));
    Migrates(c, p);
    var steps := Life(p);
    HarvestOpens(Apply(Apply(Apply(Apply(Apply(c, steps[0]), steps[1]), steps[2]), steps[3]), steps[4]));
  }

  /** Creation leaves exactly such a launch. */
  lemma CreatedIsNew(exitFeeBps: nat, threshold: nat, feePct: nat, creatorPct: nat, nameReserved: bool, outside: nat,
                     env: Conditions, ownPool: nat)
    ensures var r := CreateLaunch(exitFeeBps, threshold, feePct, creatorPct, nameReserved, outside, env, ownPool);
            r.Ok? ==> IsNew(r.value) && r.value.funds.outside == outside && r.value.env == env && r.value.ownPool == ownPool
                      && r.value.launch.exitFeeBps == exitFeeBps && r.value.curve.threshold == threshold
                      && r.value.curve.feePct == feePct && r.value.curve.nameReserved == nameReserved
  {
  }
}
