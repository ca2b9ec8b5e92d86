/** How a harvested quote amount is divided between the platform, the creator and the vault. */
module FeeSplits {
  import opened Results
  import opened Redemption

  const PLATFORM_GRADUATION_FEE_BPS: nat := 500
  const CREATOR_GRADUATION_BONUS_BPS: nat := 500
  const LP_FEE_CREATOR_BPS: nat := 5_000
  const LP_FEE_PLATFORM_BPS: nat := 2_000
  const MIN_MIGRATION_FEE_PERCENTAGE: nat := 40
  const MAX_MIGRATION_FEE_PERCENTAGE: nat := 70

  datatype FeeSplit = FeeSplit(platform: nat, creator: nat, vault: nat) {
    function Total(): nat { platform + creator + vault }
  }

  function AllToVault(amount: nat): FeeSplit {
    FeeSplit(0, 0, amount)
  }

  function Min(a: nat, b: nat): nat { if a < b then a else b }

  function BpsFloor(amount: nat, bps: nat): nat { amount * bps / MAX_BPS }

  datatype SplitError = ThresholdNotU64 | ReceivedNotU64

  /** Fixed shares of the raise, each capped by what is left of the received fee; the vault takes the rest. */
  function GraduationSplit(threshold: int, received: int): (r: Result<FeeSplit, SplitError>)
    ensures r.Ok? <==> 0 <= threshold <= U64_MAX && 0 <= received <= U64_MAX
    ensures r.Ok? ==> r.value.Total() == received
    ensures r.Ok? ==> r.value.platform <= threshold / 20 && r.value.creator <= r.value.platform
    ensures r.Ok? && r.value.vault > 0 ==> r.value.platform == r.value.creator == threshold / 20
  {
    if threshold < 0 || threshold > U64_MAX then Err(ThresholdNotU64)
    else if received < 0 || received > U64_MAX then Err(ReceivedNotU64)
    else
      var platform := Min(BpsFloor(threshold, PLATFORM_GRADUATION_FEE_BPS), received);
      var creator := Min(BpsFloor(threshold, CREATOR_GRADUATION_BONUS_BPS), received - platform);
      Ok(FeeSplit(platform, creator, received - platform - creator))
  }

  /** Half to the creator, a fifth to the platform, the rest and every rounding unit to the vault. */
  function LpFeeSplit(received: int): (r: Result<FeeSplit, SplitError>)
    ensures r.Ok? <==> 0 <= received <= U64_MAX
    ensures r.Ok? ==> r.value.Total() == received
    ensures r.Ok? ==> 10 * r.value.vault >= 3 * received
  {
    if received < 0 || received > U64_MAX then Err(ReceivedNotU64)
    else
      var creator := BpsFloor(received, LP_FEE_CREATOR_BPS);
      var platform := BpsFloor(received, LP_FEE_PLATFORM_BPS);
      Ok(FeeSplit(platform, creator, received - creator - platform))
  }

  /** The partner migration fee DBC pays for threshold `t` at `pct` percent, less the pool creator's share. */
  function PartnerMigrationFee(t: nat, pct: nat, creatorPct: nat): (fee: nat)
    requires pct <= 100 && creatorPct <= 100
    ensures fee <= t
    ensures creatorPct == 0 ==> 100 * fee <= t * pct < 100 * (fee + 1)
  {
    var fee := t - (t * (100 - pct) + 99) / 100;
    assert 0 <= fee <= t && 100 * fee <= t * pct < 100 * (fee + 1) by {
      MigrationFeeBounds(t, pct);
    }
    var creator := fee * creatorPct / 100;
    assert 0 <= creator <= fee by {
      Powers.MulLeft(fee, creatorPct, 100);
    }
    fee - creator
  }

  /** The pool creator's share of the fee, rounded down, is all that the partner's misses. */
  lemma CreatorShare(t: nat, pct: nat, creatorPct: nat)
    requires pct <= 100 && creatorPct <= 100
    ensures var whole, fee := PartnerMigrationFee(t, pct, 0), PartnerMigrationFee(t, pct, creatorPct);
            fee <= whole && 100 * (whole - fee) <= whole * creatorPct < 100 * (whole - fee + 1)
  {
    var whole := PartnerMigrationFee(t, pct, 0);
    assert whole * 0 / 100 == 0;
    Powers.MulLeft(whole, creatorPct, 100);
  }

  lemma MigrationFeeBounds(t: nat, pct: nat)
    requires pct <= 100
    ensures var fee := t - (t * (100 - pct) + 99) / 100;
            0 <= fee <= t && 100 * fee <= t * pct < 100 * (fee + 1)
  {
    assert t * (100 - pct) == 100 * t - t * pct;
    Powers.MulLeft(t, pct, 100);
  }

  /**
   * At graduation neither cut is clamped, and the vault share is the promised percentage of the
   * raise rounded down plus at most two rounding units. It is empty only when nothing was received.
   */
  lemma GraduationShares(threshold: nat, pct: nat)
    requires threshold <= U64_MAX
    requires MIN_MIGRATION_FEE_PERCENTAGE <= pct <= MAX_MIGRATION_FEE_PERCENTAGE
    ensures var received := PartnerMigrationFee(threshold, pct, 0);
            var split := GraduationSplit(threshold, received).value;
            && split.platform == split.creator == threshold * 5 / 100
            && threshold * (pct - 10) / 100 <= split.vault <= threshold * (pct - 10) / 100 + 2
            && (split.vault == 0 <==> received == 0)
  {
    var received := PartnerMigrationFee(threshold, pct, 0);
    var p, share := threshold * pct, threshold * (pct - 10);
    assert share == p - 10 * threshold;
    Powers.MulLeft(threshold, 40, pct);
    GraduationRounding(threshold, p, received);
    UnclampedCuts(threshold, received);
  }

  lemma UnclampedCuts(t: nat, received: nat)
    requires t <= U64_MAX && received <= U64_MAX && 2 * (t / 20) <= received
    ensures GraduationSplit(t, received).value == FeeSplit(t / 20, t / 20, received - 2 * (t / 20))
    ensures t / 20 == t * 5 / 100
  {
  }

  lemma GraduationRounding(t: nat, p: nat, received: nat)
    requires 40 * t <= p && 100 * received <= p < 100 * (received + 1)
    ensures 2 * (t / 20) <= received
    ensures (p - 10 * t) / 100 <= received - 2 * (t / 20) <= (p - 10 * t) / 100 + 2
    ensures received - 2 * (t / 20) == 0 <==> received == 0
  {
    var q, r := t / 20, t % 20;
    assert t == 20 * q + r;
    if q == 0 {
      assert received - 2 * q == received;
    } else {
      assert p >= 800 * q;
    }
  }

  // ------------------------------------------------------------ LP harvest histories

  predicate AllU64(harvests: seq<nat>) {
    forall i :: 0 <= i < |harvests| ==> harvests[i] <= U64_MAX
  }

  function VaultShares(harvests: seq<nat>): nat
    requires AllU64(harvests)
  {
    if harvests == [] then 0 else LpFeeSplit(harvests[0]).value.vault + VaultShares(harvests[1..])
  }

  function PaidOut(harvests: seq<nat>): nat
    requires AllU64(harvests)
  {
    if harvests == [] then 0
    else LpFeeSplit(harvests[0]).value.platform + LpFeeSplit(harvests[0]).value.creator + PaidOut(harvests[1..])
  }

  lemma VaultShareBounds(q: nat)
    requires q <= U64_MAX
    ensures 3 * q <= 10 * LpFeeSplit(q).value.vault <= 3 * q + 13
  {
    LpCuts(q);
  }

  /** The parts of any history sum to the total, and the vault keeps between 30% and 30% plus 1.3 units a harvest. */
  lemma {:induction false} LpHistory(harvests: seq<nat>)
    requires AllU64(harvests)
    ensures VaultShares(harvests) + PaidOut(harvests) == Sum(harvests)
    ensures 3 * Sum(harvests) <= 10 * VaultShares(harvests) <= 3 * Sum(harvests) + 13 * |harvests|
  {
    if harvests != [] {
      VaultShareBounds(harvests[0]);
      LpHistory(harvests[1..]);
    }
  }

  /**
   * Cutting one amount into several harvests never lowers the vault's part, and raises it by less
   * than two raw units per harvest.
   */
  lemma CuttingHarvests(harvests: seq<nat>)
    requires Sum(harvests) <= U64_MAX && harvests != []
    ensures AllU64(harvests)
    ensures var whole := LpFeeSplit(Sum(harvests)).value.vault;
            whole <= VaultShares(harvests) < whole + 2 * |harvests|
  {
    PartsAreU64(harvests);
    LpHistory(harvests);
    VaultShareBounds(Sum(harvests));
    CuttingNeverLowers(harvests);
  }

  lemma {:induction false} PartsAreU64(harvests: seq<nat>)
    requires Sum(harvests) <= U64_MAX
    ensures AllU64(harvests)
  {
    if harvests != [] {
      PartsAreU64(harvests[1..]);
      assert forall i :: 1 <= i < |harvests| ==> harvests[i] == harvests[1..][i - 1];
    }
  }

  lemma {:induction false} CuttingNeverLowers(harvests: seq<nat>)
    requires Sum(harvests) <= U64_MAX
    requires AllU64(harvests)
    ensures LpFeeSplit(Sum(harvests)).value.vault <= VaultShares(harvests)
  {
    if harvests != [] {
      CuttingNeverLowers(harvests[1..]);
      CutOnce(harvests[0], Sum(harvests[1..]));
    }
  }

  lemma CutOnce(a: nat, b: nat)
    requires a + b <= U64_MAX
    ensures LpFeeSplit(a + b).value.vault <= LpFeeSplit(a).value.vault + LpFeeSplit(b).value.vault
  {
    LpCuts(a);
    LpCuts(b);
    LpCuts(a + b);
    var x, y, z := LpFeeSplit(a).value.vault, LpFeeSplit(b).value.vault, LpFeeSplit(a + b).value.vault;
    VaultPartsCut(a, b, x, y, z);
  }

  lemma VaultPartsCut(a: nat, b: nat, x: nat, y: nat, z: nat)
    requires x == a - a / 2 - a / 5 && y == b - b / 2 - b / 5 && z == (a + b) - (a + b) / 2 - (a + b) / 5
    ensures z <= x + y
  {
    HalvesAndFifths(a, b);
  }

  lemma HalvesAndFifths(a: nat, b: nat)
    ensures a / 2 + b / 2 <= (a + b) / 2
    ensures a / 5 + b / 5 <= (a + b) / 5
  {
  }

  lemma LpCuts(q: nat)
    requires q <= U64_MAX
    ensures LpFeeSplit(q).value == FeeSplit(q / 5, q / 2, q - q / 2 - q / 5)
  {
  }
}
