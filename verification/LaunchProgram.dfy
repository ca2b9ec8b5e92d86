/**
 * The program's instructions as they run: checks in the handlers' order, the calls into DBC and
 * DAMM v2, the payouts one transfer at a time and the closing checks on the real balances. Each
 * method has exactly the outcome of the corresponding step; a check on an account given back is made
 * where the call is, as its failure reverts everything.
 */
module LaunchProgram {
  import opened Results
  import opened Redemption
  import opened FeeSplits
  import opened Market
  import opened MarketPayments
  import opened MarketSafety
  import opened LaunchTotals

  /** The error a step reports, if any, and the state it leaves. */
  function Outcome(c: Chain, s: Step): (Option<ProgramError>, Chain) {
    match Execute(c, s)
    case Ok(next) => (None, next)
    case Err(e) => (Some(e), c)
  }

  /**
   * How DBC or DAMM v2 give the accounts back that they could write: with another owner, a delegate, a
   * close authority, a CPI guard or required memos, or as they were.
   */
  datatype GivenBack = GivenBack(vaultEncumbered: bool, transitEncumbered: bool)

  /** What the handler finds wrong with the accounts given back, in the order of its checks. */
  function Encumbered(c: Chain, s: Step, back: GivenBack): Option<ProgramError> {
    var splits := SplitsFees(c.launch) && (s.HarvestMigrationFee? || s.HarvestLpFees?);
    if splits && back.transitEncumbered then Some(ClaimerQuoteAccountEncumbered)
    else if back.vaultEncumbered && !(SplitsFees(c.launch) && s.HarvestCurveFees?) then Some(VaultEncumbered)
    else None
  }

  /** The outcome of a harvest: the step's, unless an account comes back encumbered; that reverts it. */
  function HarvestOutcome(c: Chain, s: Step, back: GivenBack): (Option<ProgramError>, Chain) {
    if Execute(c, s).Ok? && Encumbered(c, s, back).Some? then (Encumbered(c, s, back), c) else Outcome(c, s)
  }

  /** Whether the accounts of an LP fee harvest belong together. */
  datatype LpAccounts = LpAccounts(mintsMatch: bool, poolMatches: bool, nftMatches: bool)

  function LpOutcome(c: Chain, id: nat, passed: LpAccounts, back: GivenBack): (Option<ProgramError>, Chain) {
    if c.launch.registered && !passed.mintsMatch then (Some(DammPoolMintMismatch), c)
    else if c.launch.registered && IndexOf(c.positions, id).Some? && !passed.poolMatches then (Some(PositionPoolMismatch), c)
    else if c.launch.registered && IndexOf(c.positions, id).Some? && !passed.nftMatches
    then (Some(PositionNftNotOwnedByClaimer), c)
    else HarvestOutcome(c, HarvestLpFees(id), back)
  }

  /** A harvest goes through exactly when its step does and every account it pays out of or into comes back clean. */
  lemma HarvestSucceedsIff(c: Chain, s: Step, back: GivenBack)
    requires IsHarvest(s)
    ensures HarvestOutcome(c, s, back).0.None? <==>
              && Execute(c, s).Ok?
              && (back.vaultEncumbered ==> SplitsFees(c.launch) && s.HarvestCurveFees?)
              && (back.transitEncumbered ==> !SplitsFees(c.launch) || s.HarvestCurveFees? || s.HarvestSurplus?)
    ensures HarvestOutcome(c, s, back).1 == if HarvestOutcome(c, s, back).0.None? then Apply(c, s) else c
  {
  }

  /** An LP fee harvest needs, besides, accounts that belong together. */
  lemma LpSucceedsIff(c: Chain, id: nat, passed: LpAccounts, back: GivenBack)
    ensures LpOutcome(c, id, passed, back).0.None? <==>
              && passed.mintsMatch && passed.poolMatches && passed.nftMatches
              && HarvestOutcome(c, HarvestLpFees(id), back).0.None?
    ensures LpOutcome(c, id, passed, back).1 == if LpOutcome(c, id, passed, back).0.None? then Apply(c, HarvestLpFees(id)) else c
  {
  }

  function CurveFeesTaken(c: Chain, env: Conditions): Chain {
    var funds := if SplitsFees(c.launch) then c.funds.(platform := c.funds.platform + c.curve.quoteFee)
                 else c.funds.(vault := c.funds.vault + c.curve.quoteFee);
    c.(env := env, funds := funds, base := BurnAll(c.base, c.curve.baseFee), curve := c.curve.(quoteFee := 0, baseFee := 0))
  }

  class Accounts {
    var launch: Launch
    var curve: Curve
    var positions: seq<Position>
    var funds: Funds
    var base: Base
    var env: Conditions
    var totals: Totals
    const ownPool: nat

    function State(): Chain
      reads this
    {
      Chain(launch, curve, positions, funds, base, env, ownPool)
    }

    constructor (c: Chain)
      ensures State() == c && totals == NONE
    {
      launch, curve, positions, funds, base, env, ownPool :=
        c.launch, c.curve, c.positions, c.funds, c.base, c.env, c.ownPool;
      totals := NONE;
    }

    method RegisterPool() returns (error: Option<ProgramError>)
      modifies this`launch
      ensures (error, State()) == Outcome(old(State()), Step.RegisterPool)
    {
      if launch.registered { return Some(PoolAlreadyRegistered); }
      if !curve.created { return Some(InvalidDbcPool); }
      if curve.nameReserved { return Some(ReservedTokenName); }
      launch := launch.(registered := true);
      return None;
    }

    /** Pay `amount` out of the transit; a zero amount sends nothing. */
    method PayFromTransit(to: Destination, amount: nat)
      requires amount <= funds.transit && !to.ToTransit?
      modifies this`funds
      ensures funds.transit == old(funds.transit) - amount
      ensures funds.vault == old(funds.vault) + (if to.ToVault? then amount else 0)
      ensures funds.platform == old(funds.platform) + (if to.ToPlatform? then amount else 0)
      ensures funds.creator == old(funds.creator) + (if to.ToCreator? then amount else 0)
      ensures funds.outside == old(funds.outside) + (if to.ToHolder? then amount else 0)
    {
      if amount == 0 { return; }
      funds := funds.(transit := funds.transit - amount);
      match to
      case ToVault => funds := funds.(vault := funds.vault + amount);
      case ToPlatform => funds := funds.(platform := funds.platform + amount);
      case ToCreator => funds := funds.(creator := funds.creator + amount);
      case ToHolder => funds := funds.(outside := funds.outside + amount);
      case ToTransit =>
    }

    /**
     * Pay a split out of the transit: the platform, the creator, then everything left to the vault.
     * The assertions are the handler's closing checks; none of them can fail.
     */
    method Distribute(split: FeeSplit, transitBefore: nat, vaultBefore: nat)
      returns (platform: nat, creator: nat, vault: nat)
      requires funds.transit == transitBefore + split.Total() && funds.vault == vaultBefore
      modifies this`funds
      ensures funds == Distributed(old(funds).(transit := transitBefore), env, split)
      ensures funds.platform == old(funds.platform) + platform && funds.creator == old(funds.creator) + creator
      ensures funds.vault == vaultBefore + vault
    {
      var platformOk := split.platform == 0 || env.platform.Payable?;
      var creatorOk := split.creator == 0 || env.creator.Payable?;
      platform := if platformOk then split.platform else 0;
      creator := if creatorOk then split.creator else 0;
      PayFromTransit(ToPlatform, platform);
      PayFromTransit(ToCreator, creator);
      vault := funds.transit;
      PayFromTransit(ToVault, vault);
      assert funds.transit == 0;                                                    // TransitNotEmptied
      assert vault == split.Total() + transitBefore - platform - creator;           // VaultBalanceMismatch
      assert funds.vault - vaultBefore == vault;                                    // VaultBalanceMismatch
    }

    /** Burn the whole claimer base account after it received `received` more. */
    method BurnClaimer(received: nat) returns (burned: nat)
      requires Claimed(base) + received <= base.supply
      modifies this`base
      ensures base == BurnAll(old(base), received) && base.supply + burned == old(base.supply)
    {
      burned := Claimed(base) + received;
      base := base.(claimer := Some(burned));
      if burned > 0 {
        base := base.(claimer := Some(0), supply := base.supply - burned);
      }
    }

    /** Add a harvest to the running totals. */
    method CountHarvest(vault: nat, platform: nat, creator: nat, burned: nat)
      requires FitU64(totals)
      modifies this`totals
      ensures totals == Counted(old(totals), NONE.(harvestedQuote := vault, platformQuote := platform,
                                                   creatorQuote := creator, burnedBase := burned))
    {
      totals := totals.(harvestedQuote := SaturatingAdd(totals.harvestedQuote, vault),
                        platformQuote := SaturatingAdd(totals.platformQuote, platform),
                        creatorQuote := SaturatingAdd(totals.creatorQuote, creator),
                        burnedBase := SaturatingAdd(totals.burnedBase, burned));
    }

    /** Add a redemption to the running totals. */
    method CountRedemption(amount: nat, net: nat, fee: nat)
      requires FitU64(totals)
      modifies this`totals
      ensures totals == Counted(old(totals), NONE.(redeemedBase := amount, redeemedQuote := net, exitFees := fee))
    {
      totals := totals.(redeemedBase := SaturatingAdd(totals.redeemedBase, amount),
                        redeemedQuote := SaturatingAdd(totals.redeemedQuote, net),
                        exitFees := SaturatingAdd(totals.exitFees, fee));
    }

    /** A harvest straight into the vault, before version 3. */
    method HarvestToVault(quote: nat, burned: nat)
      requires FitU64(totals)
      modifies this`funds, this`totals
      ensures funds == old(funds).(vault := old(funds.vault) + quote)
      ensures totals == Counted(old(totals), Grown(old(funds), funds, burned))
    {
      var vaultBefore := funds.vault;
      funds := funds.(vault := funds.vault + quote);
      assert funds.vault >= vaultBefore;                                            // VaultDecreased
      CountHarvest(funds.vault - vaultBefore, 0, 0, burned);
    }

    /** A harvest into the transit, split on the way out. */
    method HarvestAndSplit(quote: nat, split: FeeSplit, burned: nat)
      requires split.Total() == quote && FitU64(totals)
      modifies this`funds, this`totals
      ensures funds == Distributed(old(funds), env, split)
      ensures totals == Counted(old(totals), Grown(old(funds), funds, burned))
    {
      var transitBefore, vaultBefore := funds.transit, funds.vault;
      funds := funds.(transit := funds.transit + quote);
      var platform, creator, vault := Distribute(split, transitBefore, vaultBefore);
      CountHarvest(vault, platform, creator, burned);
    }

    /** The claim and the burn of the curve fees, paid to the platform on version 3, to the vault before. */
    method ClaimCurveFees(e: Conditions)
      requires Valid(State()) && FitU64(totals)
      modifies this
      ensures State() == CurveFeesTaken(old(State()), e)
      ensures totals == Counted(old(totals), HarvestCounts(old(State()), State()))
    {
      env := e;
      var quote, received := curve.quoteFee, curve.baseFee;
      curve := curve.(quoteFee := 0, baseFee := 0);
      var burned := BurnClaimer(received);
      if SplitsFees(launch) {
        funds := funds.(platform := funds.platform + quote);
        CountHarvest(0, quote, 0, burned);
      } else {
        HarvestToVault(quote, burned);
      }
    }

    method HarvestCurveFees(createPlatformAccount: bool, back: GivenBack) returns (error: Option<ProgramError>)
      requires Valid(State()) && FitU64(totals)
      modifies this
      ensures (error, State()) == HarvestOutcome(old(State()), Step.HarvestCurveFees(createPlatformAccount), back)
      ensures totals == if error.Some? then old(totals) else Counted(old(totals), HarvestCounts(old(State()), State()))
    {
      if !launch.registered { return Some(PoolNotRegistered); }
      var e := env;
      if createPlatformAccount && e.platform.Missing? {
        e := e.(platform := Payable);
      }
      var blocked := if SplitsFees(launch) then QuoteTransferError(e) else QuoteAndVaultError(e);
      if blocked.Some? { return blocked; }
      if SplitsFees(launch) && !e.platform.Payable? { return Some(PlatformQuoteAccountUnavailable); }
      if !SplitsFees(launch) && back.vaultEncumbered { return Some(VaultEncumbered); }
      ClaimCurveFees(e);
      return None;
    }

    method HarvestMigrationFee(back: GivenBack) returns (error: Option<ProgramError>)
      requires Valid(State()) && FitU64(totals)
      modifies this
      ensures (error, State()) == HarvestOutcome(old(State()), Step.HarvestMigrationFee, back)
      ensures totals == if error.Some? then old(totals) else Counted(old(totals), HarvestCounts(old(State()), State()))
    {
      if !launch.registered { return Some(PoolNotRegistered); }
      if launch.feeHarvested { return Some(MigrationFeeAlreadyHarvested); }
      var blocked := QuoteAndVaultError(env);
      if blocked.Some? { return blocked; }
      if !curve.complete { return Some(CurveNotComplete); }
      var migrated := MigrationComplete(curve);
      if curve.feeWithdrawn || (SplitsFees(launch) && env.transitFrozen) { return Some(ExternalProgramFailed); }
      if SplitsFees(launch) && back.transitEncumbered { return Some(ClaimerQuoteAccountEncumbered); }
      if back.vaultEncumbered { return Some(VaultEncumbered); }
      var fee := curve.migrationFee;
      curve := curve.(feeWithdrawn := true, migrationFee := 0);
      if SplitsFees(launch) {
        var split := GraduationSplit(curve.threshold, fee);
        HarvestAndSplit(fee, split.value, 0);
      } else {
        HarvestToVault(fee, 0);
      }
      launch := launch.(feeHarvested := true, migrated := launch.migrated || migrated);
      return None;
    }

    method HarvestSurplus(back: GivenBack) returns (error: Option<ProgramError>)
      requires FitU64(totals)
      modifies this
      ensures (error, State()) == HarvestOutcome(old(State()), Step.HarvestSurplus, back)
      ensures totals == if error.Some? then old(totals) else Counted(old(totals), HarvestCounts(old(State()), State()))
    {
      if !launch.registered { return Some(PoolNotRegistered); }
      if launch.surplusHarvested { return Some(SurplusAlreadyHarvested); }
      var blocked := QuoteAndVaultError(env);
      if blocked.Some? { return blocked; }
      if !curve.complete { return Some(CurveNotComplete); }
      var migrated := MigrationComplete(curve);
      if curve.surplusWithdrawn { return Some(ExternalProgramFailed); }
      if back.vaultEncumbered { return Some(VaultEncumbered); }
      var surplus := curve.surplus;
      curve := curve.(surplusWithdrawn := true, surplus := 0);
      HarvestToVault(surplus, 0);
      launch := launch.(surplusHarvested := true, migrated := launch.migrated || migrated);
      return None;
    }

    method SyncMigration() returns (error: Option<ProgramError>)
      modifies this`launch
      ensures (error, State()) == Outcome(old(State()), Step.SyncMigration)
    {
      if !launch.registered { return Some(PoolNotRegistered); }
      if launch.migrated { return None; }
      if !MigrationComplete(curve) { return Some(MigrationNotComplete); }
      launch := launch.(migrated := true);
      return None;
    }

    method BurnClaimerBase() returns (error: Option<ProgramError>)
      requires Valid(State()) && FitU64(totals)
      modifies this`base, this`totals
      ensures (error, State()) == Outcome(old(State()), Step.BurnClaimerBase)
      ensures totals == if error.Some? then old(totals) else Counted(old(totals), BurnCounts(old(State()), State()))
    {
      if base.claimer.None? { return Some(AccountMissing); }
      var burned := BurnClaimer(0);
      totals := totals.(burnedBase := SaturatingAdd(totals.burnedBase, burned));
      return None;
    }

    /** The claim, the burn and the payout of one position's fees. */
    method ClaimPosition(id: nat)
      requires Valid(State()) && FitU64(totals) && Execute(State(), Step.HarvestLpFees(id)).Ok?
      modifies this`positions, this`base, this`funds, this`totals
      ensures State() == Execute(old(State()), Step.HarvestLpFees(id)).value
      ensures totals == Counted(old(totals), HarvestCounts(old(State()), State()))
    {
      var i := IndexOf(positions, id).value;
      var p := positions[i];
      PositionWithinTotals(State(), i);
      positions := positions[i := p.(base := 0, quote := 0)];
      var burned := BurnClaimer(p.base);
      if SplitsFees(launch) {
        var split := LpFeeSplit(p.quote);
        HarvestAndSplit(p.quote, split.value, burned);
      } else {
        HarvestToVault(p.quote, burned);
      }
    }

    method HarvestLpFees(id: nat, passed: LpAccounts, back: GivenBack) returns (error: Option<ProgramError>)
      requires Valid(State()) && FitU64(totals)
      modifies this
      ensures (error, State()) == LpOutcome(old(State()), id, passed, back)
      ensures totals == if error.Some? then old(totals) else Counted(old(totals), HarvestCounts(old(State()), State()))
    {
      if !launch.registered { return Some(PoolNotRegistered); }
      if !passed.mintsMatch { return Some(DammPoolMintMismatch); }
      var index := IndexOf(positions, id);
      if index.None? { return Some(InvalidDammPosition); }
      if !passed.poolMatches { return Some(PositionPoolMismatch); }
      if !passed.nftMatches { return Some(PositionNftNotOwnedByClaimer); }
      var blocked := QuoteAndVaultError(env);
      if blocked.Some? { return blocked; }
      PositionWithinTotals(State(), index.value);
      if SplitsFees(launch) && env.transitFrozen { return Some(ExternalProgramFailed); }
      if SplitsFees(launch) && back.transitEncumbered { return Some(ClaimerQuoteAccountEncumbered); }
      if back.vaultEncumbered { return Some(VaultEncumbered); }
      ClaimPosition(id);
      return None;
    }

    method Redeem(amount: nat, held: nat, to: Destination) returns (error: Option<ProgramError>)
      requires Valid(State()) && FitU64(totals) && held <= base.others
      modifies this
      ensures (error, State()) == Outcome(old(State()), Step.Redeem(amount, held, to))
      ensures totals == if error.Some? then old(totals) else Counted(old(totals), RedeemCounts(old(State()), State(), amount))
    {
      if !launch.registered { return Some(PoolNotRegistered); }
      if amount == 0 { return Some(ProgramError.ZeroAmount); }
      if to.ToVault? { return Some(DestinationIsVault); }
      if !launch.migrated && !MigrationComplete(curve) { return Some(MigrationNotComplete); }
      if !launch.feeHarvested { return Some(MigrationFeeNotHarvested); }
      if held < amount { return Some(InsufficientBaseBalance); }
      var blocked := QuoteAndVaultError(env);
      if blocked.Some? { return blocked; }
      var vaultBefore, supplyBefore := funds.vault, base.supply;
      var quote := ComputeRedeem(vaultBefore, supplyBefore, amount, launch.exitFeeBps);
      if quote.Err? { return Some(FromRedeemError(quote.error)); }
      if !Receives(env, to) { return Some(ExternalProgramFailed); }
      launch := launch.(migrated := true);
      var net := quote.value.net;
      base := base.(supply := base.supply - amount, others := base.others - amount);
      funds := Paid(funds, to, net);
      assert funds.vault == vaultBefore - net;                                      // VaultBalanceMismatch
      assert base.supply == supplyBefore - amount;                                  // SupplyMismatch
      assert FloorKept(vaultBefore, supplyBefore, funds.vault, base.supply) by {    // FloorDecreased
        RedeemKeepsFloor(vaultBefore, supplyBefore, amount, launch.exitFeeBps);
      }
      CountRedemption(amount, net, quote.value.fee);
      return None;
    }
  }

  /** A position never owes more base than the supply holds beside the claimer's account. */
  lemma PositionWithinTotals(c: Chain, i: nat)
    requires Valid(c) && i < |c.positions|
    ensures Claimed(c.base) + c.positions[i].base <= c.base.supply
    ensures c.positions[i].quote <= U64_MAX
  {
    SumsAfterUpdate(c.positions, i, c.positions[i].(base := 0, quote := 0));
  }
}
