/** Launch creation, the backing of the floor, and who a harvest pays. */
module MarketPayments {
  import opened Results
  import opened Redemption
  import opened FeeSplits
  import opened Market
  import opened MarketSafety
  import opened MarketRuns

  // ------------------------------------------------------------ creation and backing

  datatype CreateError =
    | ExitFeeTooHigh | CreatorMigrationFeeNotZero | MigrationFeePercentageOutOfRange | MigrationQuoteThresholdTooSmall

  /** The vault's part of the migration fee of a config, 0 when it cannot be computed. */
  function VaultAtGraduation(threshold: nat, feePct: nat): nat
    requires feePct <= 100
  {
    match GraduationSplit(threshold, PartnerMigrationFee(threshold, feePct, 0))
    case Ok(split) => split.vault
    case Err(_) => 0
  }

  /** A new launch, with the checks that bear on its amounts, over whatever quote exists outside. */
  function CreateLaunch(exitFeeBps: nat, threshold: nat, feePct: nat, creatorPct: nat, nameReserved: bool,
                        outside: nat, env: Conditions, ownPool: nat): Result<Chain, CreateError> {
    if exitFeeBps > MAX_EXIT_FEE_BPS then Err(ExitFeeTooHigh)
    else if creatorPct != 0 then Err(CreatorMigrationFeeNotZero)
    else if !(MIN_MIGRATION_FEE_PERCENTAGE <= feePct <= MAX_MIGRATION_FEE_PERCENTAGE) then Err(MigrationFeePercentageOutOfRange)
    else if VaultAtGraduation(threshold, feePct) == 0 then Err(MigrationQuoteThresholdTooSmall)
    else
      Ok(Chain(
           Launch(LAUNCH_VERSION_FEE_SPLIT, exitFeeBps, false, false, false, false),
           Curve(false, nameReserved, threshold, feePct, 0, false, PreBondingCurve, false, false, false, 0, 0, 0, 0, 0),
           [], Funds(0, 0, 0, 0, outside), Base(0, None, 0), env, ownPool))
  }

  /** Every created launch starts in the invariant, and only a threshold too small to pay any fee is refused. */
  lemma CreatedLaunches(exitFeeBps: nat, threshold: nat, feePct: nat, creatorPct: nat, nameReserved: bool,
                        outside: nat, env: Conditions, ownPool: nat)
    requires threshold <= U64_MAX && outside <= U64_MAX
    ensures var r := CreateLaunch(exitFeeBps, threshold, feePct, creatorPct, nameReserved, outside, env, ownPool);
            && (r.Ok? ==> Valid(r.value) && Backed(r.value) && TotalQuote(r.value) == outside)
            && (r.Ok? <==> exitFeeBps <= 500 && creatorPct == 0 && 40 <= feePct <= 70
                           && PartnerMigrationFee(threshold, feePct, 0) > 0)
  {
    if MIN_MIGRATION_FEE_PERCENTAGE <= feePct <= MAX_MIGRATION_FEE_PERCENTAGE {
      VaultEmptyIff(threshold, feePct);
    }
  }

  lemma VaultEmptyIff(threshold: nat, feePct: nat)
    requires threshold <= U64_MAX && MIN_MIGRATION_FEE_PERCENTAGE <= feePct <= MAX_MIGRATION_FEE_PERCENTAGE
    ensures VaultAtGraduation(threshold, feePct) == 0 <==> PartnerMigrationFee(threshold, feePct, 0) == 0
  {
    GraduationShares(threshold, feePct);
  }

  /** The vault backs the supply from the migration fee harvest on, as long as any token is left. */
  predicate Backed(c: Chain)
    requires Configured(c)
  {
    c.curve.creatorPct == 0 && Fundable(c.curve) && Covered(c)
  }

  predicate Fundable(curve: Curve)
    requires curve.feePct <= 100
  {
    VaultAtGraduation(curve.threshold, curve.feePct) > 0
  }

  predicate Covered(c: Chain) {
    c.launch.feeHarvested && c.base.supply > 0 ==> c.funds.vault > 0
  }

  lemma StepKeepsBacking(c: Chain, s: Step)
    requires Valid(c) && Backed(c)
    ensures Valid(Apply(c, s)) && Backed(Apply(c, s))
  {
    StepKeeps(c, s);
    if c.launch.feeHarvested {
      StepKeepsMeasures(c, s);
      CoverStays(c.funds.vault, c.base.supply, Apply(c, s).funds.vault, Apply(c, s).base.supply);
    } else if Apply(c, s).launch.feeHarvested {
      MigrationFeeBacks(c, s);
    }
  }

  lemma CoverStays(v0: nat, s0: nat, v1: nat, s1: nat)
    requires FloorKept(v0, s0, v1, s1) && s1 <= s0 && (s0 > 0 ==> v0 > 0)
    ensures s1 > 0 ==> v1 > 0
  {
    assert s1 > 0 && v0 > 0 ==> v0 * s1 > 0;
  }

  lemma MigrationFeeBacks(c: Chain, s: Step)
    requires Valid(c) && Backed(c) && !c.launch.feeHarvested && Apply(c, s).launch.feeHarvested
    ensures Apply(c, s).funds.vault > 0
  {
    assert s == HarvestMigrationFee && Execute(c, s).Ok?;
    assert c.curve.migrationFee == PartnerMigrationFee(c.curve.threshold, c.curve.feePct, 0);
  }

  /**
   * From creation on, every reachable state that is redeemable and has any supply left holds a
   * non-empty vault: the floor of a launch never reaches zero.
   */
  lemma {:induction false} FloorNeverZero(c: Chain, steps: seq<Step>)
    requires Valid(c) && Backed(c)
    ensures Valid(Run(c, steps)) && Backed(Run(c, steps))
    ensures Redeemable(Run(c, steps)) && Run(c, steps).base.supply > 0 ==> Run(c, steps).funds.vault > 0
    decreases |steps|
  {
    if steps != [] {
      StepKeepsBacking(c, steps[0]);
      FloorNeverZero(Apply(c, steps[0]), steps[1..]);
    }
  }

  // ------------------------------------------------------------ who a harvest pays

  predicate IsHarvest(s: Step) {
    s.HarvestCurveFees? || s.HarvestMigrationFee? || s.HarvestSurplus? || s.HarvestLpFees?
  }

  /** What DBC or DAMM v2 pays out in a harvest. */
  function Received(c: Chain, s: Step): nat {
    match s
    case HarvestCurveFees(_) => c.curve.quoteFee
    case HarvestMigrationFee => c.curve.migrationFee
    case HarvestSurplus => c.curve.surplus
    case HarvestLpFees(id) => (match IndexOf(c.positions, id) case Some(i) => c.positions[i].quote case None => 0)
    case _ => 0
  }

  /** The harvests that share out what they receive: from version 3 on, all but the surplus. */
  predicate PaysPayees(c: Chain, s: Step) {
    SplitsFees(c.launch) && IsHarvest(s) && !s.HarvestSurplus?
  }

  /** The four balances together gain what was received, and no party loses. */
  predicate Accounts(f: Funds, g: Funds, received: nat) {
    && g.vault + g.transit + g.platform + g.creator == f.vault + f.transit + f.platform + f.creator + received
    && g.outside == f.outside
    && g.vault >= f.vault && g.platform >= f.platform && g.creator >= f.creator && g.transit <= f.transit
  }

  lemma MigrationFeeAccounts(c: Chain)
    requires Valid(c) && HarvestMigrationFeeStep(c).Ok?
    ensures Accounts(c.funds, HarvestMigrationFeeStep(c).value.funds, c.curve.migrationFee)
  {
  }

  lemma LpFeesAccount(c: Chain, id: nat)
    requires Valid(c) && HarvestLpFeesStep(c, id).Ok?
    ensures IndexOf(c.positions, id).Some?
    ensures Accounts(c.funds, HarvestLpFeesStep(c, id).value.funds, c.positions[IndexOf(c.positions, id).value].quote)
  {
  }

  /**
   * Every harvest of either version accounts for what it received and for nothing else: the three
   * parties and the transit together gain exactly that, no party loses, and the platform, the creator
   * and the transit are touched only by a harvest that shares out.
   */
  lemma EveryHarvestAccounts(c: Chain, s: Step)
    requires Valid(c) && IsHarvest(s) && Execute(c, s).Ok?
    ensures var f, g := c.funds, Apply(c, s).funds;
            && Accounts(f, g, Received(c, s))
            && (!PaysPayees(c, s) ==> g.platform == f.platform && g.creator == f.creator && g.transit == f.transit)
  {
    if s.HarvestMigrationFee? {
      MigrationFeeAccounts(c);
    } else if s.HarvestLpFees? {
      LpFeesAccount(c, s.position);
    }
  }

  /** What one step brings into the vault of a version 2 launch. */
  function Income(c: Chain, s: Step): nat {
    if Execute(c, s).Err? then 0
    else match s
      case DonateToVault(quote) => quote
      case _ => Received(c, s)
  }

  function TotalIncome(c: Chain, steps: seq<Step>): nat
    decreases |steps|
  {
    if steps == [] then 0 else Income(c, steps[0]) + TotalIncome(Apply(c, steps[0]), steps[1..])
  }

  /** What a step sends a payee that is no fee: a redemption paid to it, or an outsider's payment. */
  function SentTo(c: Chain, s: Step, to: Destination): nat {
    match s
    case Redeem(_, _, d) => if d == to then Payout(c, s) else 0
    case PayPayees(platform, creator) =>
      if Execute(c, s).Err? then 0 else if to == ToPlatform then platform else if to == ToCreator then creator else 0
    case _ => 0
  }

  function TotalSentTo(c: Chain, steps: seq<Step>, to: Destination): nat
    decreases |steps|
  {
    if steps == [] then 0 else SentTo(c, steps[0], to) + TotalSentTo(Apply(c, steps[0]), steps[1..], to)
  }

  /** One step of a version 2 launch: the vault's exact change, and no fee for a payee. */
  predicate OldLaunchBooks(f: Funds, g: Funds, income: nat, paid: nat, toPlatform: nat, toCreator: nat) {
    && g.vault + paid == f.vault + income
    && g.platform <= f.platform + toPlatform && g.creator <= f.creator + toCreator
  }

  lemma OldLaunchHarvestBooks(c: Chain, s: Step)
    requires Valid(c) && !SplitsFees(c.launch) && IsHarvest(s)
    ensures OldLaunchBooks(c.funds, Apply(c, s).funds, Income(c, s), 0, 0, 0)
  {
    if Execute(c, s).Ok? {
      EveryHarvestAccounts(c, s);
    }
  }

  lemma OldLaunchOtherBooks(c: Chain, s: Step)
    requires Valid(c) && !IsHarvest(s) && !s.Redeem?
    ensures OldLaunchBooks(c.funds, Apply(c, s).funds, Income(c, s), 0, SentTo(c, s, ToPlatform), SentTo(c, s, ToCreator))
  {
  }

  lemma OldLaunchRedeemBooks(c: Chain, s: Step)
    requires Valid(c) && s.Redeem?
    ensures OldLaunchBooks(c.funds, Apply(c, s).funds, 0, Payout(c, s), SentTo(c, s, ToPlatform), SentTo(c, s, ToCreator))
  {
  }

  /**
   * A launch of version 2 keeps its original promise over every run: the vault gains every fee that is
   * harvested and every donation, loses the redemptions and nothing else, and the platform and the
   * creator have no more than what redeemers and outsiders sent them.
   */
  lemma {:induction false} OldLaunchLedger(c: Chain, steps: seq<Step>)
    requires Valid(c) && !SplitsFees(c.launch)
    ensures OldLaunchBooks(c.funds, Run(c, steps).funds, TotalIncome(c, steps), TotalPayout(c, steps),
                           TotalSentTo(c, steps, ToPlatform), TotalSentTo(c, steps, ToCreator))
    decreases |steps|
  {
    if steps != [] {
      var s := steps[0];
      StepKeeps(c, s);
      if IsHarvest(s) {
        OldLaunchHarvestBooks(c, s);
      } else if s.Redeem? {
        OldLaunchRedeemBooks(c, s);
      } else {
        OldLaunchOtherBooks(c, s);
      }
      OldLaunchLedger(Apply(c, s), steps[1..]);
    }
  }

  predicate SplitHarvest(s: Step) {
    s.HarvestMigrationFee? || s.HarvestLpFees?
  }

  /**
   * A split harvest moves what was received plus the whole transit: nothing else, nothing left
   * behind, and each payee gets its exact part or, when it cannot receive, nothing.
   */
  lemma SplitHarvestAccounts(c: Chain, s: Step)
    requires Valid(c) && SplitsFees(c.launch) && SplitHarvest(s) && Execute(c, s).Ok?
    ensures var f, g := c.funds, Apply(c, s).funds;
            && g.transit == 0 && g.outside == f.outside
            && (g.platform - f.platform) + (g.creator - f.creator) + (g.vault - f.vault) == Received(c, s) + f.transit
            && g.vault >= f.vault
            && (!c.env.platform.Payable? ==> g.platform == f.platform)
            && (!c.env.creator.Payable? ==> g.creator == f.creator)
  {
  }

  lemma LpHarvestParts(c: Chain, id: nat)
    requires Valid(c) && SplitsFees(c.launch) && Execute(c, HarvestLpFees(id)).Ok?
    requires c.env.platform.Payable? && c.env.creator.Payable?
    ensures var q := Received(c, HarvestLpFees(id));
            var f, g := c.funds, Apply(c, HarvestLpFees(id)).funds;
            g.creator == f.creator + q / 2 && g.platform == f.platform + q / 5
            && g.vault == f.vault + f.transit + q - q / 2 - q / 5
  {
    LpCuts(Received(c, HarvestLpFees(id)));
  }

  /** At graduation each cut is 5% of the raise and the vault gets the promised share, give or take rounding units. */
  lemma MigrationHarvestParts(c: Chain)
    requires Valid(c) && SplitsFees(c.launch) && c.curve.creatorPct == 0 && Execute(c, HarvestMigrationFee).Ok?
    requires c.env.platform.Payable? && c.env.creator.Payable?
    ensures var f, g := c.funds, Apply(c, HarvestMigrationFee).funds;
            var cut, share := c.curve.threshold * 5 / 100, c.curve.threshold * (c.curve.feePct - 10) / 100;
            && g.platform == f.platform + cut && g.creator == f.creator + cut
            && f.vault + f.transit + share <= g.vault <= f.vault + f.transit + share + 2
  {
    GraduationShares(c.curve.threshold, c.curve.feePct);
  }

  function WithPayees(c: Chain, platform: Payee, creator: Payee): Chain {
    c.(env := c.env.(platform := platform, creator := creator))
  }

  predicate SameOutcome(r: Result<Chain, ProgramError>, t: Result<Chain, ProgramError>) {
    match r
    case Ok(_) => t.Ok?
    case Err(e) => t.Err? && t.error == e
  }

  /**
   * No payee can block the floor: whatever state the platform's and the creator's accounts are in,
   * the migration fee, surplus and LP harvests and a holder's redemption have the same outcome, and
   * a payee's loss is the vault's gain.
   */
  lemma PayeesCannotBlock(c: Chain, s: Step, platform: Payee, creator: Payee)
    requires s.HarvestMigrationFee? || s.HarvestSurplus? || s.HarvestLpFees? || (s.Redeem? && s.to == ToHolder)
    ensures SameOutcome(Execute(c, s), Execute(WithPayees(c, platform, creator), s))
    ensures var f, g := Apply(c, s).funds, Apply(WithPayees(c, platform, creator), s).funds;
            f.vault + f.platform + f.creator == g.vault + g.platform + g.creator
            && f.transit == g.transit && f.outside == g.outside
  {
  }

  predicate BurnedAll(b: Base, d: Base, received: nat) {
    d.claimer == Some(0) && d.others == b.others && d.supply + Claimed(b) + received == b.supply
  }

  /** A curve fee harvest burns the base it receives and all the claimer held; holders keep theirs. */
  lemma CurveHarvestBurnsBase(c: Chain, create: bool)
    requires Valid(c) && HarvestCurveFeesStep(c, create).Ok?
    ensures BurnedAll(c.base, HarvestCurveFeesStep(c, create).value.base, c.curve.baseFee)
  {
  }

  /** So does an LP fee harvest. */
  lemma LpHarvestBurnsBase(c: Chain, id: nat)
    requires Valid(c) && HarvestLpFeesStep(c, id).Ok?
    ensures IndexOf(c.positions, id).Some?
    ensures BurnedAll(c.base, HarvestLpFeesStep(c, id).value.base, c.positions[IndexOf(c.positions, id).value].base)
  {
    var i := IndexOf(c.positions, id).value;
    SumsAfterUpdate(c.positions, i, c.positions[i].(base := 0, quote := 0));
  }

  /** The one exception: curve fees of a version 3 launch wait in DBC until the platform can receive. */
  lemma CurveFeesWaitForPlatform(c: Chain, create: bool)
    requires c.launch.registered && SplitsFees(c.launch) && !c.env.paused && !c.env.hook
    ensures Execute(c, HarvestCurveFees(create)).Ok? ==> Apply(c, HarvestCurveFees(create)).env == c.env.(platform := Payable)
    ensures Execute(c, HarvestCurveFees(create)).Ok? <==> c.env.platform.Payable? || (create && c.env.platform.Missing?)
    ensures Execute(c, HarvestCurveFees(create)).Err? ==>
              Execute(c, HarvestCurveFees(create)).error == PlatformQuoteAccountUnavailable
              && Apply(c, HarvestCurveFees(create)).curve.quoteFee == c.curve.quoteFee
    ensures Execute(c, HarvestCurveFees(create)).Ok? ==>
              Apply(c, HarvestCurveFees(create)).funds == c.funds.(platform := c.funds.platform + c.curve.quoteFee)
  {
  }

  // ------------------------------------------------------------ the transit

  /** The steps that put quote into the transit and leave it there. */
  predicate FillsTransit(c: Chain, s: Step) {
    Execute(c, s).Ok? && ((s.DonateToTransit? && s.quote > 0) || (s.Redeem? && s.to == ToTransit))
  }

  /**
   * The transit is empty between transactions exactly until someone sends quote into it: a step
   * leaves an empty transit empty if and only if it is neither such a donation nor a redemption
   * whose holder names the transit as destination.
   */
  lemma TransitStaysEmptyIff(c: Chain, s: Step)
    requires Valid(c) && c.funds.transit == 0
    ensures Apply(c, s).funds.transit == 0 <==> !FillsTransit(c, s)
  {
    if s.Redeem? && Execute(c, s).Ok? {
      RedeemGate(c, s.amount, s.held, s.to);
    }
  }

  predicate NeverFilled(c: Chain, steps: seq<Step>)
    decreases |steps|
  {
    steps == [] || (!FillsTransit(c, steps[0]) && NeverFilled(Apply(c, steps[0]), steps[1..]))
  }

  lemma {:induction false} TransitEmptyOverRuns(c: Chain, steps: seq<Step>)
    requires Valid(c) && c.funds.transit == 0 && NeverFilled(c, steps)
    ensures Run(c, steps).funds.transit == 0
    decreases |steps|
  {
    if steps != [] {
      StepKeeps(c, steps[0]);
      TransitStaysEmptyIff(c, steps[0]);
      TransitEmptyOverRuns(Apply(c, steps[0]), steps[1..]);
    }
  }

  /** Before version 3 nothing sweeps the transit: quote sent there stays there in every run. */
  lemma {:induction false} OldLaunchNeverSweeps(c: Chain, steps: seq<Step>)
    requires Valid(c) && !SplitsFees(c.launch)
    ensures Run(c, steps).funds.transit >= c.funds.transit
    decreases |steps|
  {
    if steps != [] {
      StepKeeps(c, steps[0]);
      OldLaunchStepNeverSweeps(c, steps[0]);
      OldLaunchNeverSweeps(Apply(c, steps[0]), steps[1..]);
    }
  }

  lemma OldLaunchStepNeverSweeps(c: Chain, s: Step)
    requires !SplitsFees(c.launch)
    ensures Apply(c, s).funds.transit >= c.funds.transit
  {
  }

  /** A reachable state with quote left in the transit: one donation is enough. */
  lemma TransitWitness(c: Chain)
    requires Valid(c) && c.funds.outside > 0 && !c.env.transitFrozen
    ensures Run(c, [DonateToTransit(1)]).funds.transit == c.funds.transit + 1
  {
    assert [DonateToTransit(1)][1..] == [];
    assert Run(c, [DonateToTransit(1)]) == Run(Apply(c, DonateToTransit(1)), []);
  }
}
