/** The floor over every run, where quote leaves the vault, and when each payment can happen. */
module MarketRuns {
  import opened Results
  import opened Redemption
  import opened Market
  import opened MarketSafety

  // ------------------------------------------------------------ where quote leaves the vault

  /** The payout of a step: what a successful redemption takes out of the vault. */
  function Payout(c: Chain, s: Step): nat {
    if s.Redeem? && Execute(c, s).Ok? then
      ComputeRedeem(c.funds.vault, c.base.supply, s.amount, c.launch.exitFeeBps).value.net
    else 0
  }

  /** The base tokens a step's redemption burns. */
  function Redeemed(c: Chain, s: Step): nat {
    if s.Redeem? && Execute(c, s).Ok? then s.amount else 0
  }

  /** The vault falls in a redemption only, and then by exactly the quoted net amount. */
  lemma VaultFallsByPayout(c: Chain, s: Step)
    ensures Payout(c, s) <= c.funds.vault
    ensures Apply(c, s).funds.vault >= c.funds.vault - Payout(c, s)
    ensures Apply(c, s).funds.vault < c.funds.vault ==>
              s.Redeem? && Execute(c, s).Ok? && Apply(c, s).funds.vault == c.funds.vault - Payout(c, s)
  {
    if s.Redeem? && Execute(c, s).Ok? {
      var q := ComputeRedeem(c.funds.vault, c.base.supply, s.amount, c.launch.exitFeeBps).value;
      assert q.net <= q.gross <= c.funds.vault;
    }
  }

  /** A redemption pays only after both the DBC migration and the migration fee harvest. */
  lemma RedeemGate(c: Chain, amount: nat, held: nat, to: Destination)
    requires Valid(c) && Execute(c, Redeem(amount, held, to)).Ok?
    ensures c.curve.migrated && c.launch.feeHarvested && c.launch.registered
    ensures Payout(c, Redeem(amount, held, to)) > 0
  {
  }

  predicate Redeemable(c: Chain) {
    c.launch.registered && c.launch.feeHarvested && MigrationComplete(c.curve)
  }

  /** A payout to the vault is refused, one to a holder always arrives, the others need an open account. */
  predicate CannotReceive(env: Conditions, to: Destination) {
    || to == ToVault
    || (to == ToTransit && env.transitFrozen)
    || (to == ToPlatform && env.platform != Payable)
    || (to == ToCreator && env.creator != Payable)
  }

  predicate PaysNothing(c: Chain, amount: nat) {
    match RedeemQuote(c.funds.vault, c.base.supply, amount, c.launch.exitFeeBps)
    case Ok(q) => q.net == 0
    case Err(_) => false
  }

  /**
   * Once both conditions hold they hold in every later state, and a redemption is then refused exactly
   * when the issuer blocks transfers, the amount is zero or more than is held, it would pay nothing, or
   * where it is to be paid cannot receive it.
   */
  lemma RedemptionStaysOpen(c: Chain, steps: seq<Step>, amount: nat, held: nat, to: Destination)
    requires Valid(c) && Redeemable(c) && held <= Run(c, steps).base.others
    ensures var d := Run(c, steps);
            Redeemable(d)
            && (Execute(d, Redeem(amount, held, to)).Err? <==>
                  d.env.paused || d.env.hook || d.env.vaultFrozen || amount == 0 || held < amount
                  || PaysNothing(d, amount) || CannotReceive(d.env, to))
  {
    RunKeeps(c, steps);
    var d := Run(c, steps);
    assert d.base.others <= d.base.supply;
    if amount > 0 && amount <= d.base.supply {
      var r := ComputeRedeem(d.funds.vault, d.base.supply, amount, d.launch.exitFeeBps);
      assert r.Err? ==> r.error == RedeemError.NothingToRedeem;
    }
  }

  // ------------------------------------------------------------ paid at most once

  /** How often `s` succeeds in a run. */
  function Successes(c: Chain, steps: seq<Step>, s: Step): nat
    decreases |steps|
  {
    if steps == [] then 0
    else (if steps[0] == s && Execute(c, s).Ok? then 1 else 0) + Successes(Apply(c, steps[0]), steps[1..], s)
  }

  predicate OneShot(s: Step) {
    s.RegisterPool? || s.HarvestMigrationFee? || s.HarvestSurplus?
  }

  predicate Done(c: Chain, s: Step)
    requires OneShot(s)
  {
    match s
    case RegisterPool => c.launch.registered
    case HarvestMigrationFee => c.launch.feeHarvested
    case HarvestSurplus => c.launch.surplusHarvested
  }

  /** Each one-shot instruction succeeds at most once in any run, and the latch records whether it did. */
  lemma {:induction false} OneShotOnce(c: Chain, steps: seq<Step>, s: Step)
    requires Valid(c) && OneShot(s)
    ensures Successes(c, steps, s) <= 1
    ensures Successes(c, steps, s) == 1 <==> !Done(c, s) && Done(Run(c, steps), s)
    decreases |steps|
  {
    if steps != [] {
      var d := Apply(c, steps[0]);
      StepKeeps(c, steps[0]);
      OneShotStep(c, steps[0], s);
      OneShotOnce(d, steps[1..], s);
      RunKeeps(d, steps[1..]);
    }
  }

  lemma OneShotStep(c: Chain, t: Step, s: Step)
    requires Valid(c) && OneShot(s)
    ensures Done(Apply(c, t), s) <==> Done(c, s) || (t == s && Execute(c, s).Ok?)
    ensures Execute(c, s).Ok? ==> !Done(c, s)
  {
  }

  // ------------------------------------------------------------ the migration latch

  /** A step that notes the migration: any redemption, and a one-shot harvest or sync of a migrated pool. */
  predicate LatchesMigration(c: Chain, s: Step) {
    && Execute(c, s).Ok?
    && (s.Redeem? || ((s.HarvestMigrationFee? || s.HarvestSurplus? || s.SyncMigration?) && MigrationComplete(c.curve)))
  }

  lemma LatchStep(c: Chain, s: Step)
    requires Valid(c)
    ensures Apply(c, s).launch.migrated <==> c.launch.migrated || LatchesMigration(c, s)
  {
  }

  predicate LatchedIn(c: Chain, steps: seq<Step>)
    decreases |steps|
  {
    steps != [] && (LatchesMigration(c, steps[0]) || LatchedIn(Apply(c, steps[0]), steps[1..]))
  }

  /** The latch is set in the end exactly when it was set before, or some step of the run noted the migration. */
  lemma {:induction false} MigratedLatchIff(c: Chain, steps: seq<Step>)
    requires Valid(c)
    ensures Run(c, steps).launch.migrated <==> c.launch.migrated || LatchedIn(c, steps)
    decreases |steps|
  {
    if steps != [] {
      StepKeeps(c, steps[0]);
      LatchStep(c, steps[0]);
      MigratedLatchIff(Apply(c, steps[0]), steps[1..]);
    }
  }

  /** What a holder sees of a redemption: its error, or what it leaves of the launch, the balances and the supply. */
  predicate SameRedemption(r: Result<Chain, ProgramError>, t: Result<Chain, ProgramError>) {
    match r
    case Ok(c) => t.Ok? && t.value.launch == c.launch && t.value.funds == c.funds && t.value.base == c.base
    case Err(e) => t.Err? && t.error == e
  }

  /** Behind the latch, redemption no longer looks at the pool: whatever DBC says of it, the outcome is the same. */
  lemma LatchedRedemption(c: Chain, curve: Curve, amount: nat, held: nat, to: Destination)
    requires c.launch.migrated
    ensures SameRedemption(RedeemStep(c, amount, held, to), RedeemStep(c.(curve := curve), amount, held, to))
  {
  }

  // ------------------------------------------------------------ the floor over runs

  lemma StepKeepsMeasures(c: Chain, s: Step)
    requires Valid(c) && c.curve.created
    ensures var d := Apply(c, s);
            FloorKept(c.funds.vault, c.base.supply, d.funds.vault, d.base.supply)
            && PotentialKept(c.funds.vault, c.base.supply, d.funds.vault, d.base.supply, c.launch.exitFeeBps)
  {
    var d := Apply(c, s);
    StepKeeps(c, s);
    VaultFallsByPayout(c, s);
    if s.Redeem? && Execute(c, s).Ok? {
      RedeemKeepsFloor(c.funds.vault, c.base.supply, s.amount, c.launch.exitFeeBps);
      RedeemKeepsPotential(c.funds.vault, c.base.supply, s.amount, c.launch.exitFeeBps);
    } else {
      GrowthKeepsPotential(c.funds.vault, c.base.supply, d.funds.vault, d.base.supply, c.launch.exitFeeBps);
    }
  }

  /**
   * Once the pool exists, no interleaving of redemptions, harvests, burns, donations and trades
   * lowers the floor or the fee-weighted potential.
   */
  lemma {:induction false} RunKeepsMeasures(c: Chain, steps: seq<Step>)
    requires Valid(c) && c.curve.created
    ensures var d := Run(c, steps);
            FloorKept(c.funds.vault, c.base.supply, d.funds.vault, d.base.supply)
            && PotentialKept(c.funds.vault, c.base.supply, d.funds.vault, d.base.supply, c.launch.exitFeeBps)
    decreases |steps|
  {
    if steps == [] {
      GrowthKeepsPotential(c.funds.vault, c.base.supply, c.funds.vault, c.base.supply, c.launch.exitFeeBps);
    } else {
      var d := Apply(c, steps[0]);
      StepKeeps(c, steps[0]);
      StepKeepsMeasures(c, steps[0]);
      RunKeepsMeasures(d, steps[1..]);
      RunKeeps(d, steps[1..]);
      var e := Run(d, steps[1..]);
      MeasuresChain(c.funds.vault, c.base.supply, d.funds.vault, d.base.supply, e.funds.vault, e.base.supply,
                    c.launch.exitFeeBps);
    }
  }

  function Redemptions(c: Chain, steps: seq<Step>): nat
    decreases |steps|
  {
    if steps == [] then 0
    else (if Redeemed(c, steps[0]) > 0 then 1 else 0) + Redemptions(Apply(c, steps[0]), steps[1..])
  }

  /** With an exit fee, a redemption leaves its fee in the vault, so the floor rises strictly. */
  lemma RedeemRaisesFloor(c: Chain, s: Step)
    requires Valid(c) && c.launch.exitFeeBps > 0 && Redeemed(c, s) > 0
    ensures var d := Apply(c, s);
            d.funds.vault > 0 && d.funds.vault * c.base.supply > c.funds.vault * d.base.supply
  {
    RedeemKeepsFloor(c.funds.vault, c.base.supply, s.amount, c.launch.exitFeeBps);
    PaidFee(c.funds.vault, c.base.supply, s.amount, c.launch.exitFeeBps);
  }

  lemma NonEmptyVaultStays(c: Chain, s: Step)
    requires Valid(c) && c.launch.exitFeeBps > 0 && c.funds.vault > 0
    ensures Apply(c, s).funds.vault > 0
  {
    VaultFallsByPayout(c, s);
    if Redeemed(c, s) > 0 {
      RedeemRaisesFloor(c, s);
    }
  }

  lemma {:induction false} NonEmptyVaultStaysOverRuns(c: Chain, steps: seq<Step>)
    requires Valid(c) && c.launch.exitFeeBps > 0 && c.funds.vault > 0
    ensures Run(c, steps).funds.vault > 0
    decreases |steps|
  {
    if steps != [] {
      StepKeeps(c, steps[0]);
      NonEmptyVaultStays(c, steps[0]);
      NonEmptyVaultStaysOverRuns(Apply(c, steps[0]), steps[1..]);
    }
  }

  /** A run with an exit fee and at least one redemption raises the floor strictly, whatever else it holds. */
  lemma {:induction false} RunRaisesFloor(c: Chain, steps: seq<Step>)
    requires Valid(c) && c.curve.created && c.launch.exitFeeBps > 0 && Redemptions(c, steps) > 0
    ensures var d := Run(c, steps);
            d.funds.vault * c.base.supply > c.funds.vault * d.base.supply
    decreases |steps|
  {
    var d := Apply(c, steps[0]);
    var e := Run(d, steps[1..]);
    StepKeeps(c, steps[0]);
    RunKeeps(d, steps[1..]);
    RunKeepsMeasures(d, steps[1..]);
    StepKeepsMeasures(c, steps[0]);
    if Redeemed(c, steps[0]) > 0 {
      RedeemRaisesFloor(c, steps[0]);
      NonEmptyVaultStaysOverRuns(d, steps[1..]);
      StrictThenKept(c.funds.vault, c.base.supply, d.funds.vault, d.base.supply, e.funds.vault, e.base.supply);
    } else {
      RunRaisesFloor(d, steps[1..]);
      KeptThenStrict(c.funds.vault, c.base.supply, d.funds.vault, d.base.supply, e.funds.vault, e.base.supply);
    }
  }

  lemma StrictThenKept(v0: nat, s0: nat, v1: nat, s1: nat, v2: nat, s2: nat)
    requires v1 * s0 > v0 * s1 && v2 * s1 >= v1 * s2 && v2 > 0 && s2 <= s1
    ensures v2 * s0 > v0 * s2
  {
    assert s0 > 0;
    if s2 == 0 {
      assert v2 * s0 > 0;
    } else {
      // v2 s0 s1 >= v1 s2 s0 > v0 s1 s2
      Powers.MulLeft(s0, v1 * s2, v2 * s1);
      Powers.MulStrict(v0 * s1, v1 * s0, s2, s2);
      assert s0 * (v1 * s2) == (v1 * s0) * s2;
      assert (v0 * s1) * s2 == s1 * (v0 * s2);
      assert s0 * (v2 * s1) == s1 * (v2 * s0);
      assert s1 * (v2 * s0) > s1 * (v0 * s2);
      CancelStrict(s1, v0 * s2, v2 * s0);
    }
  }

  lemma CancelStrict(k: nat, x: int, y: int)
    requires k * y > k * x
    ensures y > x
  {
    if y <= x {
      Powers.MulLeft(k, y, x);
    }
  }

  lemma KeptThenStrict(v0: nat, s0: nat, v1: nat, s1: nat, v2: nat, s2: nat)
    requires v1 * s0 >= v0 * s1 && v2 * s1 > v1 * s2 && s1 <= s0
    ensures v2 * s0 > v0 * s2
  {
    assert s1 > 0;
    Powers.MulStrict(v1 * s2, v2 * s1, s0, s0);
    Powers.MulLeft(s2, v0 * s1, v1 * s0);
    assert (v1 * s2) * s0 == s2 * (v1 * s0);
    assert s2 * (v0 * s1) == s1 * (v0 * s2);
    assert (v2 * s1) * s0 == s1 * (v2 * s0);
    CancelStrict(s1, v0 * s2, v2 * s0);
  }

  // ------------------------------------------------------------ what redemptions pay in total

  function TotalPayout(c: Chain, steps: seq<Step>): nat
    decreases |steps|
  {
    if steps == [] then 0 else Payout(c, steps[0]) + TotalPayout(Apply(c, steps[0]), steps[1..])
  }

  function TotalRedeemed(c: Chain, steps: seq<Step>): nat
    decreases |steps|
  {
    if steps == [] then 0 else Redeemed(c, steps[0]) + TotalRedeemed(Apply(c, steps[0]), steps[1..])
  }

  predicate RedeemsOnly(steps: seq<Step>) {
    forall i :: 0 <= i < |steps| ==> steps[i].Redeem?
  }

  lemma RedeemAccount(c: Chain, s: Step)
    requires s.Redeem?
    ensures Apply(c, s).funds.vault + Payout(c, s) == c.funds.vault
    ensures Apply(c, s).base.supply + Redeemed(c, s) == c.base.supply
  {
  }

  lemma {:induction false} RedeemsOnlyAccount(c: Chain, steps: seq<Step>)
    requires Valid(c) && RedeemsOnly(steps)
    ensures Run(c, steps).funds.vault + TotalPayout(c, steps) == c.funds.vault
    ensures Run(c, steps).base.supply + TotalRedeemed(c, steps) == c.base.supply
    decreases |steps|
  {
    if steps != [] {
      StepKeeps(c, steps[0]);
      RedeemAccount(c, steps[0]);
      RedeemsOnlyAccount(Apply(c, steps[0]), steps[1..]);
    }
  }

  /**
   * However holders cut and order their redemptions, in total they get at most the fee-free share
   * of what they burned, and never more than the continuous limit.
   */
  lemma RedeemersBound(c: Chain, steps: seq<Step>)
    requires Valid(c) && c.curve.created && c.base.supply > 0 && RedeemsOnly(steps)
    ensures var paid, burned := TotalPayout(c, steps), TotalRedeemed(c, steps);
            && paid <= c.funds.vault && burned <= c.base.supply
            && paid <= (c.funds.vault * burned) / c.base.supply
            && PotentialKept(c.funds.vault, c.base.supply, c.funds.vault - paid, c.base.supply - burned, c.launch.exitFeeBps)
  {
    RedeemsOnlyAccount(c, steps);
    RunKeepsMeasures(c, steps);
    FloorBoundsPayout(c.funds.vault, c.base.supply, TotalRedeemed(c, steps), TotalPayout(c, steps));
  }

  /** Without an exit fee, no sequence of redemptions pays more than one redemption of the sum. */
  lemma FreeSplitsPayNoMore(c: Chain, steps: seq<Step>)
    requires Valid(c) && c.curve.created && c.base.supply > 0 && RedeemsOnly(steps) && c.launch.exitFeeBps == 0
    ensures TotalRedeemed(c, steps) <= c.base.supply
    ensures TotalPayout(c, steps)
         <= RedeemQuote(c.funds.vault, c.base.supply, TotalRedeemed(c, steps), c.launch.exitFeeBps).value.net
  {
    RedeemersBound(c, steps);
  }
}
