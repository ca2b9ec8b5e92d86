/**
 * One launch and everything around it as a step system: the program's launch record, the bonding
 * curve pool, the DAMM v2 positions of the claimer, and every quote and base balance.
 * `Execute` gives the net effect of one transaction, or the error that makes it revert.
 */
module Market {
  import opened Results
  import opened Redemption
  import opened FeeSplits

  const MAX_EXIT_FEE_BPS: nat := 500
  const LAUNCH_VERSION_FEE_SPLIT: nat := 3

  datatype Launch = Launch(
    version: nat,
    exitFeeBps: nat,
    registered: bool,
    feeHarvested: bool,
    surplusHarvested: bool,
    migrated: bool)

  datatype Progress = PreBondingCurve | PostBondingCurve | LockedVesting | CreatedPool

  /** The DBC config and pool; `quoteFee`, `baseFee`, `migrationFee` and `surplus` are owed to the partner. */
  datatype Curve = Curve(
    created: bool,
    nameReserved: bool,
    threshold: nat,
    feePct: nat,
    creatorPct: nat,
    complete: bool,
    progress: Progress,
    migrated: bool,
    feeWithdrawn: bool,
    surplusWithdrawn: bool,
    quoteFee: nat,
    baseFee: nat,
    migrationFee: nat,
    surplus: nat,
    unsold: nat)

  /** A DAMM v2 position whose NFT the claimer holds, with the fees it would pay out now. */
  datatype Position = Position(id: nat, pool: nat, base: nat, quote: nat)

  /** Quote balances; `outside` is everything the launch does not track. */
  datatype Funds = Funds(vault: nat, transit: nat, platform: nat, creator: nat, outside: nat)

  /** Base supply, the claimer's base account (None until it is created) and everyone else's holdings. */
  datatype Base = Base(supply: nat, claimer: Option<nat>, others: nat)

  datatype Payee = Missing | Payable | Blocked

  /** What the quote issuer and the payees' accounts allow. */
  datatype Conditions = Conditions(
    paused: bool,
    hook: bool,
    vaultFrozen: bool,
    transitFrozen: bool,
    platform: Payee,
    creator: Payee)

  datatype Chain = Chain(
    launch: Launch,
    curve: Curve,
    positions: seq<Position>,
    funds: Funds,
    base: Base,
    env: Conditions,
    ownPool: nat)

  datatype Destination = ToVault | ToTransit | ToPlatform | ToCreator | ToHolder

  datatype Step =
    | RegisterPool
    | HarvestCurveFees(createPlatformAccount: bool)
    | HarvestMigrationFee
    | HarvestSurplus
    | SyncMigration
    | BurnClaimerBase
    | HarvestLpFees(position: nat)
    | Redeem(amount: nat, held: nat, to: Destination)
    | MigrateDammV2(nft: nat)
    | CreatePool(minted: nat)
    | TradeOnCurve(quoteFee: nat, baseFee: nat, bought: nat)
    | CompleteCurve(surplus: nat, poolBase: nat)
    | TradeOnDamm(position: nat, baseFee: nat, quoteFee: nat)
    | GrantPosition(nft: nat, pool: nat)
    | DonateToVault(quote: nat)
    | DonateToTransit(quote: nat)
    | DonateToClaimer(amount: nat)
    | BurnByHolder(amount: nat)
    | PayeesSpend(platform: nat, creator: nat)
    | PayPayees(platform: nat, creator: nat)
    | SetConditions(env: Conditions)

  datatype ProgramError =
    | PoolAlreadyRegistered | InvalidDbcPool | ReservedTokenName | PoolNotRegistered
    | QuoteMintPaused | QuoteMintTransferHookUnsupported | VaultFrozen
    | PlatformQuoteAccountUnavailable | CurveNotComplete | MigrationFeeAlreadyHarvested
    | SurplusAlreadyHarvested | TransitNotEmptied | VaultBalanceMismatch | VaultDecreased
    | InvalidDammPosition | MigrationNotComplete | MigrationFeeNotHarvested
    | ZeroAmount | DestinationIsVault | InsufficientBaseBalance | ZeroSupply | InvalidFeeBps | NothingToRedeem
    | SupplyMismatch | FloorDecreased | MathOverflow | AccountMissing | ExternalProgramFailed | Impossible
    | VaultEncumbered | ClaimerQuoteAccountEncumbered
    | DammPoolMintMismatch | PositionPoolMismatch | PositionNftNotOwnedByClaimer

  // ------------------------------------------------------------ derived amounts

  function QuoteIn(ps: seq<Position>): nat {
    if ps == [] then 0 else ps[0].quote + QuoteIn(ps[1..])
  }

  function BaseIn(ps: seq<Position>): nat {
    if ps == [] then 0 else ps[0].base + BaseIn(ps[1..])
  }

  function Claimed(base: Base): nat {
    match base.claimer case None => 0 case Some(n) => n
  }

  function OwedQuote(curve: Curve): nat {
    curve.quoteFee + curve.migrationFee + curve.surplus
  }

  function Held(funds: Funds): nat {
    funds.vault + funds.transit + funds.platform + funds.creator + funds.outside
  }

  /** Every unit of the quote asset, wherever it is. */
  function TotalQuote(c: Chain): nat {
    Held(c.funds) + OwedQuote(c.curve) + QuoteIn(c.positions)
  }

  /** Every base token, wherever it is. */
  function TotalBase(c: Chain): nat {
    c.base.others + Claimed(c.base) + c.curve.baseFee + c.curve.unsold + BaseIn(c.positions)
  }

  predicate MigrationComplete(curve: Curve) {
    curve.migrated && curve.progress == CreatedPool
  }

  function IndexOf(ps: seq<Position>, id: nat): (r: Option<nat>)
    ensures r.Some? ==> r.value < |ps| && ps[r.value].id == id && forall j :: 0 <= j < r.value ==> ps[j].id != id
    ensures r.None? ==> forall j :: 0 <= j < |ps| ==> ps[j].id != id
  {
    if ps == [] then None
    else if ps[0].id == id then Some(0)
    else match IndexOf(ps[1..], id)
      case None => assert forall j :: 0 < j < |ps| ==> ps[j] == ps[1..][j - 1]; None
      case Some(i) => assert forall j :: 0 < j < |ps| ==> ps[j] == ps[1..][j - 1]; Some(i + 1)
  }

  predicate DistinctIds(ps: seq<Position>) {
    forall i, j :: 0 <= i < j < |ps| ==> ps[i].id != ps[j].id
  }

  // ------------------------------------------------------------ fee distribution

  function PlatformPart(split: FeeSplit, env: Conditions): nat {
    if env.platform.Payable? then split.platform else 0
  }

  function CreatorPart(split: FeeSplit, env: Conditions): nat {
    if env.creator.Payable? then split.creator else 0
  }

  /** Payable payees get their parts; the vault gets all the rest, including what the transit already held. */
  function Distributed(funds: Funds, env: Conditions, split: FeeSplit): Funds {
    var platform, creator := PlatformPart(split, env), CreatorPart(split, env);
    funds.(platform := funds.platform + platform,
           creator := funds.creator + creator,
           vault := funds.vault + funds.transit + (split.Total() - platform - creator),
           transit := 0)
  }

  predicate SplitsFees(launch: Launch) { launch.version >= LAUNCH_VERSION_FEE_SPLIT }

  function QuoteTransferError(env: Conditions): Option<ProgramError> {
    if env.paused then Some(QuoteMintPaused)
    else if env.hook then Some(QuoteMintTransferHookUnsupported)
    else None
  }

  function QuoteAndVaultError(env: Conditions): Option<ProgramError> {
    match QuoteTransferError(env)
    case Some(e) => Some(e)
    case None => if env.vaultFrozen then Some(VaultFrozen) else None
  }

  function BurnAll(base: Base, received: nat): Base {
    var burned := Claimed(base) + received;
    base.(claimer := Some(0), supply := if burned <= base.supply then base.supply - burned else 0)
  }

  // ------------------------------------------------------------ one step

  function RegisterPoolStep(c: Chain): Result<Chain, ProgramError> {
    if c.launch.registered then Err(PoolAlreadyRegistered)
    else if !c.curve.created then Err(InvalidDbcPool)
    else if c.curve.nameReserved then Err(ReservedTokenName)
    else Ok(c.(launch := c.launch.(registered := true)))
  }

  function HarvestCurveFeesStep(c: Chain, createPlatformAccount: bool): Result<Chain, ProgramError> {
    var env := if createPlatformAccount && c.env.platform.Missing? then c.env.(platform := Payable) else c.env;
    if !c.launch.registered then Err(PoolNotRegistered)
    else if SplitsFees(c.launch) then
      match QuoteTransferError(env)
      case Some(e) => Err(e)
      case None =>
        if !env.platform.Payable? then Err(PlatformQuoteAccountUnavailable)
        else Ok(c.(env := env,
                   funds := c.funds.(platform := c.funds.platform + c.curve.quoteFee),
                   base := BurnAll(c.base, c.curve.baseFee),
                   curve := c.curve.(quoteFee := 0, baseFee := 0)))
    else
      match QuoteAndVaultError(env)
      case Some(e) => Err(e)
      case None =>
        Ok(c.(env := env,
              funds := c.funds.(vault := c.funds.vault + c.curve.quoteFee),
              base := BurnAll(c.base, c.curve.baseFee),
              curve := c.curve.(quoteFee := 0, baseFee := 0)))
  }

  /** The partner migration fee, once: split on version 3, all of it to the vault before. */
  function HarvestMigrationFeeStep(c: Chain): Result<Chain, ProgramError> {
    if !c.launch.registered then Err(PoolNotRegistered)
    else if c.launch.feeHarvested then Err(MigrationFeeAlreadyHarvested)
    else match QuoteAndVaultError(c.env)
      case Some(e) => Err(e)
      case None =>
        if !c.curve.complete then Err(CurveNotComplete)
        else if c.curve.feeWithdrawn then Err(ExternalProgramFailed)
        else
          var launch := c.launch.(feeHarvested := true, migrated := c.launch.migrated || MigrationComplete(c.curve));
          var curve := c.curve.(feeWithdrawn := true, migrationFee := 0);
          if !SplitsFees(c.launch) then
            Ok(c.(launch := launch, curve := curve, funds := c.funds.(vault := c.funds.vault + c.curve.migrationFee)))
          else if c.env.transitFrozen then Err(ExternalProgramFailed)
          else match GraduationSplit(c.curve.threshold, c.curve.migrationFee)
            case Err(_) => Err(MathOverflow)
            case Ok(split) => Ok(c.(launch := launch, curve := curve, funds := Distributed(c.funds, c.env, split)))
  }

  function HarvestSurplusStep(c: Chain): Result<Chain, ProgramError> {
    if !c.launch.registered then Err(PoolNotRegistered)
    else if c.launch.surplusHarvested then Err(SurplusAlreadyHarvested)
    else match QuoteAndVaultError(c.env)
      case Some(e) => Err(e)
      case None =>
        if !c.curve.complete then Err(CurveNotComplete)
        else if c.curve.surplusWithdrawn then Err(ExternalProgramFailed)
        else Ok(c.(launch := c.launch.(surplusHarvested := true, migrated := c.launch.migrated || MigrationComplete(c.curve)),
                   curve := c.curve.(surplusWithdrawn := true, surplus := 0),
                   funds := c.funds.(vault := c.funds.vault + c.curve.surplus)))
  }

  function SyncMigrationStep(c: Chain): Result<Chain, ProgramError> {
    if !c.launch.registered then Err(PoolNotRegistered)
    else if c.launch.migrated then Ok(c)
    else if !MigrationComplete(c.curve) then Err(MigrationNotComplete)
    else Ok(c.(launch := c.launch.(migrated := true)))
  }

  function BurnClaimerBaseStep(c: Chain): Result<Chain, ProgramError> {
    if c.base.claimer.None? then Err(AccountMissing)
    else Ok(c.(base := BurnAll(c.base, 0)))
  }

  function HarvestLpFeesStep(c: Chain, id: nat): Result<Chain, ProgramError> {
    if !c.launch.registered then Err(PoolNotRegistered)
    else match IndexOf(c.positions, id)
      case None => Err(InvalidDammPosition)
      case Some(i) =>
        match QuoteAndVaultError(c.env)
        case Some(e) => Err(e)
        case None =>
          var p := c.positions[i];
          var positions := c.positions[i := p.(base := 0, quote := 0)];
          var base := BurnAll(c.base, p.base);
          if !SplitsFees(c.launch) then
            Ok(c.(positions := positions, base := base, funds := c.funds.(vault := c.funds.vault + p.quote)))
          else if c.env.transitFrozen then Err(ExternalProgramFailed)
          else match LpFeeSplit(p.quote)
            case Err(_) => Err(MathOverflow)
            case Ok(split) => Ok(c.(positions := positions, base := base, funds := Distributed(c.funds, c.env, split)))
  }

  function Paid(funds: Funds, to: Destination, net: nat): Funds
    requires net <= funds.vault
  {
    var f := funds.(vault := funds.vault - net);
    match to
    case ToVault => funds
    case ToTransit => f.(transit := f.transit + net)
    case ToPlatform => f.(platform := f.platform + net)
    case ToCreator => f.(creator := f.creator + net)
    case ToHolder => f.(outside := f.outside + net)
  }

  predicate Receives(env: Conditions, to: Destination) {
    match to
    case ToTransit => !env.transitFrozen
    case ToPlatform => env.platform.Payable?
    case ToCreator => env.creator.Payable?
    case _ => true
  }

  function FromRedeemError(e: RedeemError): ProgramError {
    match e
    case ZeroAmount => ProgramError.ZeroAmount
    case ZeroSupply => ProgramError.ZeroSupply
    case AmountAboveSupply => ProgramError.InsufficientBaseBalance
    case InvalidFeeBps => ProgramError.InvalidFeeBps
    case NothingToRedeem => ProgramError.NothingToRedeem
  }

  function RedeemStep(c: Chain, amount: nat, held: nat, to: Destination): Result<Chain, ProgramError> {
    if !c.launch.registered then Err(PoolNotRegistered)
    else if amount == 0 then Err(ProgramError.ZeroAmount)
    else if to == ToVault then Err(DestinationIsVault)
    else if !c.launch.migrated && !MigrationComplete(c.curve) then Err(MigrationNotComplete)
    else if !c.launch.feeHarvested then Err(MigrationFeeNotHarvested)
    else if held < amount then Err(InsufficientBaseBalance)
    else match QuoteAndVaultError(c.env)
      case Some(e) => Err(e)
      case None =>
        match ComputeRedeem(c.funds.vault, c.base.supply, amount, c.launch.exitFeeBps)
        case Err(e) => Err(FromRedeemError(e))
        case Ok(q) =>
          if amount > c.base.others || held > c.base.others then Err(Impossible)
          else if !Receives(c.env, to) then Err(ExternalProgramFailed)
          else Ok(c.(launch := c.launch.(migrated := true),
                     funds := Paid(c.funds, to, q.net),
                     base := c.base.(supply := c.base.supply - amount, others := c.base.others - amount)))
  }

  function MigrateStep(c: Chain, nft: nat): Result<Chain, ProgramError> {
    if !c.curve.complete || c.curve.migrated || c.curve.progress != LockedVesting || IndexOf(c.positions, nft).Some?
    then Err(ExternalProgramFailed)
    else Ok(c.(curve := c.curve.(migrated := true, progress := CreatedPool, unsold := 0),
               base := c.base.(supply := if c.curve.unsold <= c.base.supply then c.base.supply - c.curve.unsold else 0),
               positions := c.positions + [Position(nft, c.ownPool, 0, 0)]))
  }

  /** Steps of DBC, DAMM v2, holders and donors. */
  function OutsideStep(c: Chain, s: Step): Result<Chain, ProgramError> {
    match s
    case CreatePool(minted) =>
      if c.curve.created || minted > U64_MAX || TotalBase(c) > 0 then Err(Impossible)
      else Ok(c.(curve := c.curve.(created := true, unsold := minted), base := c.base.(supply := minted)))
    case TradeOnCurve(quoteFee, baseFee, bought) =>
      if !c.curve.created || c.curve.complete || quoteFee > c.funds.outside || bought > c.curve.unsold
         || baseFee > c.base.others + bought then Err(Impossible)
      else Ok(c.(funds := c.funds.(outside := c.funds.outside - quoteFee),
                 base := c.base.(others := c.base.others + bought - baseFee),
                 curve := c.curve.(quoteFee := c.curve.quoteFee + quoteFee,
                                   baseFee := c.curve.baseFee + baseFee,
                                   unsold := c.curve.unsold - bought)))
    case CompleteCurve(surplus, poolBase) =>
      if c.curve.feePct > 100 || c.curve.creatorPct > 100 then Err(Impossible) else
      var fee := PartnerMigrationFee(c.curve.threshold, c.curve.feePct, c.curve.creatorPct);
      if !c.curve.created || c.curve.complete || fee + surplus > c.funds.outside || poolBase > c.curve.unsold then Err(Impossible)
      else Ok(c.(funds := c.funds.(outside := c.funds.outside - fee - surplus),
                 base := c.base.(others := c.base.others + poolBase),
                 curve := c.curve.(complete := true, progress := LockedVesting, migrationFee := fee, surplus := surplus,
                                   unsold := c.curve.unsold - poolBase)))
    case TradeOnDamm(id, baseFee, quoteFee) =>
      (match IndexOf(c.positions, id)
       case None => Err(Impossible)
       case Some(i) =>
         if quoteFee > c.funds.outside || baseFee > c.base.others then Err(Impossible)
         else
           var p := c.positions[i];
           Ok(c.(funds := c.funds.(outside := c.funds.outside - quoteFee),
                 base := c.base.(others := c.base.others - baseFee),
                 positions := c.positions[i := p.(base := p.base + baseFee, quote := p.quote + quoteFee)])))
    case GrantPosition(nft, pool) =>
      if IndexOf(c.positions, nft).Some? then Err(Impossible)
      else Ok(c.(positions := c.positions + [Position(nft, pool, 0, 0)]))
    case DonateToVault(q) =>
      if q > c.funds.outside then Err(Impossible)
      else Ok(c.(funds := c.funds.(outside := c.funds.outside - q, vault := c.funds.vault + q)))
    case DonateToTransit(q) =>
      if q > c.funds.outside || c.env.transitFrozen then Err(Impossible)
      else Ok(c.(funds := c.funds.(outside := c.funds.outside - q, transit := c.funds.transit + q)))
    case DonateToClaimer(n) =>
      if n > c.base.others then Err(Impossible)
      else Ok(c.(base := c.base.(others := c.base.others - n, claimer := Some(Claimed(c.base) + n))))
    case BurnByHolder(n) =>
      if n > c.base.others || n > c.base.supply then Err(Impossible)
      else Ok(c.(base := c.base.(others := c.base.others - n, supply := c.base.supply - n)))
    case PayeesSpend(platform, creator) =>
      if platform > c.funds.platform || creator > c.funds.creator then Err(Impossible)
      else Ok(c.(funds := c.funds.(platform := c.funds.platform - platform, creator := c.funds.creator - creator,
                                   outside := c.funds.outside + platform + creator)))
    case PayPayees(platform, creator) =>
      if platform + creator > c.funds.outside || (platform > 0 && !c.env.platform.Payable?)
         || (creator > 0 && !c.env.creator.Payable?) then Err(Impossible)
      else Ok(c.(funds := c.funds.(platform := c.funds.platform + platform, creator := c.funds.creator + creator,
                                   outside := c.funds.outside - platform - creator)))
    case SetConditions(env) => Ok(c.(env := env))
    case _ => Err(Impossible)
  }

  /** The state after one transaction, or the error that reverts it. */
  function Execute(c: Chain, s: Step): Result<Chain, ProgramError> {
    match s
    case RegisterPool => RegisterPoolStep(c)
    case HarvestCurveFees(create) => HarvestCurveFeesStep(c, create)
    case HarvestMigrationFee => HarvestMigrationFeeStep(c)
    case HarvestSurplus => HarvestSurplusStep(c)
    case SyncMigration => SyncMigrationStep(c)
    case BurnClaimerBase => BurnClaimerBaseStep(c)
    case HarvestLpFees(id) => HarvestLpFeesStep(c, id)
    case Redeem(amount, held, to) => RedeemStep(c, amount, held, to)
    case MigrateDammV2(nft) => MigrateStep(c, nft)
    case _ => OutsideStep(c, s)
  }

  /** A failed transaction changes nothing. */
  function Apply(c: Chain, s: Step): Chain {
    match Execute(c, s) case Ok(next) => next case Err(_) => c
  }

  function Run(c: Chain, steps: seq<Step>): Chain
    decreases |steps|
  {
    if steps == [] then c else Run(Apply(c, steps[0]), steps[1..])
  }
}
