/** The redemption quote and what any sequence of quotes pays in total. */
module Redemption {
  import opened Results
  import opened Powers

  const MAX_BPS: nat := 10_000
  const U64_MAX: nat := 0xFFFF_FFFF_FFFF_FFFF

  datatype Quote = Quote(gross: nat, fee: nat, net: nat)

  datatype QuoteError = NegativeVault | NegativeAmount | SupplyNotPositive | AmountExceedsSupply | FeeOutOfRange

  predicate QuoteArguments(vault: int, supply: int, amount: int, bps: int) {
    0 <= vault && 0 <= amount <= supply && 0 < supply && 0 <= bps <= MAX_BPS
  }

  /** The SDK quote. It checks its arguments in this order and rounds both divisions for the vault. */
  function RedeemQuote(vault: int, supply: int, amount: int, bps: int): (r: Result<Quote, QuoteError>)
    ensures r.Ok? <==> QuoteArguments(vault, supply, amount, bps)
    ensures r.Ok? ==> r.value.gross * supply <= vault * amount < (r.value.gross + 1) * supply
    ensures r.Ok? ==> (r.value.fee - 1) * MAX_BPS < r.value.gross * bps <= r.value.fee * MAX_BPS
    ensures r.Ok? ==> r.value.net + r.value.fee == r.value.gross <= vault
  {
    if vault < 0 then Err(NegativeVault)
    else if amount < 0 then Err(NegativeAmount)
    else if supply <= 0 then Err(SupplyNotPositive)
    else if amount > supply then Err(AmountExceedsSupply)
    else if bps < 0 || bps > MAX_BPS then Err(FeeOutOfRange)
    else
      var gross := (vault * amount) / supply;
      var fee := (gross * bps + MAX_BPS - 1) / MAX_BPS;
      assert 0 <= gross <= vault && gross * supply <= vault * amount < (gross + 1) * supply by {
        DivisionBounds(vault, amount, supply);
      }
      assert 0 <= fee <= gross && (fee - 1) * MAX_BPS < gross * bps <= fee * MAX_BPS by {
        FeeBounds(gross, bps);
      }
      Ok(Quote(gross, fee, gross - fee))
  }

  lemma DivisionBounds(v: nat, a: nat, s: nat)
    requires 0 < s && a <= s
    ensures 0 <= (v * a) / s <= v
    ensures ((v * a) / s) * s <= v * a < ((v * a) / s + 1) * s
  {
    var p := v * a;
    assert p == s * (p / s) + p % s;
    assert (p / s + 1) * s == s * (p / s) + s;
    MulLeft(v, a, s);
    CancelLeft(s, p / s, v);
  }

  lemma FeeBounds(gross: nat, bps: nat)
    requires bps <= MAX_BPS
    ensures 0 <= (gross * bps + MAX_BPS - 1) / MAX_BPS <= gross
    ensures ((gross * bps + MAX_BPS - 1) / MAX_BPS - 1) * MAX_BPS < gross * bps
    ensures gross * bps <= ((gross * bps + MAX_BPS - 1) / MAX_BPS) * MAX_BPS
  {
    MulLeft(gross, bps, MAX_BPS);
  }

  datatype RedeemError = ZeroAmount | ZeroSupply | AmountAboveSupply | InvalidFeeBps | NothingToRedeem

  /** The program's quote: the same amounts, but a zero amount and a zero payout are refused. */
  function ComputeRedeem(vault: nat, supply: nat, amount: nat, bps: nat): (r: Result<Quote, RedeemError>)
    ensures r.Ok? ==> RedeemQuote(vault, supply, amount, bps) == Ok(r.value)
    ensures r.Ok? <==> amount > 0 && RedeemQuote(vault, supply, amount, bps).Ok?
                       && RedeemQuote(vault, supply, amount, bps).value.net > 0
    ensures r.Err? ==> (r.error == ZeroAmount <==> amount == 0)
    ensures r.Err? ==> (r.error == ZeroSupply <==> amount > 0 && supply == 0)
    ensures r.Err? ==> (r.error == AmountAboveSupply <==> 0 < supply < amount)
    ensures r.Err? ==> (r.error == InvalidFeeBps <==> 0 < amount <= supply && bps > MAX_BPS)
    ensures r.Err? ==> (r.error == NothingToRedeem <==> amount > 0 && RedeemQuote(vault, supply, amount, bps).Ok?)
  {
    if amount == 0 then Err(ZeroAmount)
    else if supply == 0 then Err(ZeroSupply)
    else if amount > supply then Err(AmountAboveSupply)
    else if bps > MAX_BPS then Err(InvalidFeeBps)
    else
      var q := RedeemQuote(vault, supply, amount, bps).value;
      if q.net == 0 then Err(NothingToRedeem) else Ok(q)
  }

  /** The payout is at most the fee-adjusted pro-rata share, as exact rationals. */
  lemma NetWithinFeeAdjustedShare(vault: nat, supply: nat, amount: nat, bps: nat)
    requires QuoteArguments(vault, supply, amount, bps)
    ensures RedeemQuote(vault, supply, amount, bps).value.net * supply * MAX_BPS <= vault * amount * (MAX_BPS - bps)
  {
    var q := RedeemQuote(vault, supply, amount, bps).value;
    assert q.net * MAX_BPS <= q.gross * (MAX_BPS - bps);
    ScaleShare(q.net, q.gross, supply, vault * amount, MAX_BPS - bps);
  }

  lemma ScaleShare(net: nat, gross: nat, supply: nat, share: nat, rest: nat)
    requires net * MAX_BPS <= gross * rest && gross * supply <= share
    ensures net * supply * MAX_BPS <= share * rest
  {
    MulLeft(supply, net * MAX_BPS, gross * rest);
    assert supply * (net * MAX_BPS) == net * supply * MAX_BPS;
    assert supply * (gross * rest) == rest * (gross * supply);
    MulLeft(rest, gross * supply, share);
  }

  /** The floor `vault / supply` did not fall, by cross-multiplication. */
  predicate FloorKept(v0: nat, s0: nat, v1: nat, s1: nat) {
    v1 * s0 >= v0 * s1
  }

  /** The fee-weighted potential `vault^10000 / supply^(10000 - bps)` did not fall. */
  ghost predicate PotentialKept(v0: nat, s0: nat, v1: nat, s1: nat, bps: nat)
    requires bps <= MAX_BPS
  {
    Pow(v1, MAX_BPS) * Pow(s0, MAX_BPS - bps) >= Pow(v0, MAX_BPS) * Pow(s1, MAX_BPS - bps)
  }

  lemma RedeemKeepsFloor(vault: nat, supply: nat, amount: nat, bps: nat)
    requires QuoteArguments(vault, supply, amount, bps)
    ensures var q := RedeemQuote(vault, supply, amount, bps).value;
            FloorKept(vault, supply, vault - q.net, supply - amount)
            && (q.fee > 0 ==> (vault - q.net) * supply > vault * (supply - amount))
  {
    var q := RedeemQuote(vault, supply, amount, bps).value;
    assert (vault - q.net) * supply == vault * supply - q.net * supply;
    assert vault * (supply - amount) == vault * supply - vault * amount;
    MulLeft(supply, q.net, q.gross);
    if q.fee > 0 {
      MulLeft(supply, q.net + 1, q.gross);
      assert supply * (q.net + 1) == q.net * supply + supply;
    }
  }

  /** A paying redemption with an exit fee leaves at least its fee in the vault. */
  lemma PaidFee(vault: nat, supply: nat, amount: nat, bps: nat)
    requires QuoteArguments(vault, supply, amount, bps) && bps > 0
    requires RedeemQuote(vault, supply, amount, bps).value.net > 0
    ensures var q := RedeemQuote(vault, supply, amount, bps).value; q.fee > 0 && vault - q.net > 0
  {
    var q := RedeemQuote(vault, supply, amount, bps).value;
    Powers.MulLeft(q.gross, 1, bps);
  }

  /** One redemption keeps the potential: the weighted mean inequality for the shares kept and burned. */
  lemma RedeemKeepsPotential(vault: nat, supply: nat, amount: nat, bps: nat)
    requires QuoteArguments(vault, supply, amount, bps)
    ensures PotentialKept(vault, supply, vault - RedeemQuote(vault, supply, amount, bps).value.net, supply - amount, bps)
  {
    var net := RedeemQuote(vault, supply, amount, bps).value.net;
    var rest: nat := MAX_BPS - bps;
    NetWithinFeeAdjustedShare(vault, supply, amount, bps);
    PotentialStep(vault, supply, amount, net, bps, rest, MAX_BPS);
  }

  lemma PotentialStep(vault: nat, supply: nat, amount: nat, net: nat, bps: nat, rest: nat, k: nat)
    requires bps + rest == k && 0 < k && 0 < supply && amount <= supply && net <= vault
    requires net * supply * k <= vault * amount * rest
    ensures Pow(vault - net, k) * Pow(supply, rest) >= Pow(vault, k) * Pow(supply - amount, rest)
  {
    var left: nat, kept: nat := supply - amount, vault - net;
    var mean := bps * supply + rest * left;
    PotentialLinear(vault, supply, amount, net, bps, rest, k);
    PotentialPowers(vault, mean, k * supply * kept, k);
    WeightedMean(bps, rest, supply, left);
    PotentialFinish(vault, supply, left, kept, mean, bps, rest, k);
  }

  lemma PotentialPowers(vault: nat, mean: nat, whole: nat, k: nat)
    requires whole >= vault * mean
    ensures Pow(whole, k) >= Pow(vault, k) * Pow(mean, k)
  {
    PowMonotone(vault * mean, whole, k);
    PowOfProduct(vault, mean, k);
  }

  lemma PotentialFinish(vault: nat, supply: nat, left: nat, kept: nat, mean: nat, bps: nat, rest: nat, k: nat)
    requires bps + rest == k && 0 < k && 0 < supply
    requires Pow(k * supply * kept, k) >= Pow(vault, k) * Pow(mean, k)
    requires Pow(mean, k) >= Pow(k, k) * (Pow(supply, bps) * Pow(left, rest))
    ensures Pow(kept, k) * Pow(supply, rest) >= Pow(vault, k) * Pow(left, rest)
  {
    PowerOfLeft(supply, kept, bps, rest, k);
    PowPositive(k, k);
    PowPositive(supply, bps);
    PotentialCancel(Pow(k, k), Pow(supply, bps), Pow(supply, rest), Pow(left, rest),
                    Pow(vault, k), Pow(mean, k), Pow(kept, k));
  }

  lemma PowerOfLeft(supply: nat, kept: nat, bps: nat, rest: nat, k: nat)
    requires bps + rest == k
    ensures Pow(k * supply * kept, k) == Pow(k, k) * (Pow(supply, bps) * Pow(supply, rest)) * Pow(kept, k)
  {
    var x := k * supply;
    PowOfProduct(x, kept, k);
    PowOfProduct(k, supply, k);
    PowSum(supply, bps, rest);
    FourFactors(Pow(x * kept, k), Pow(x, k), Pow(kept, k), Pow(k, k), Pow(supply, k), Pow(supply, bps), Pow(supply, rest));
  }

  lemma FourFactors(total: nat, xk: nat, wk: nat, kk: nat, sk: nat, sb: nat, sr: nat)
    requires total == xk * wk && xk == kk * sk && sk == sb * sr
    ensures total == kk * (sb * sr) * wk
  {
  }

  lemma PotentialLinear(vault: nat, supply: nat, amount: nat, net: nat, bps: nat, rest: nat, k: nat)
    requires bps + rest == k && amount <= supply && net <= vault
    requires net * supply * k <= vault * amount * rest
    ensures k * supply * (vault - net) >= vault * (bps * supply + rest * (supply - amount))
  {
    assert k * supply * (vault - net) == k * supply * vault - net * supply * k;
    assert bps * supply + rest * (supply - amount) == k * supply - rest * amount;
    assert vault * (k * supply - rest * amount) == k * supply * vault - vault * amount * rest;
  }

  lemma PotentialCancel(kk: nat, sb: nat, sr: nat, lr: nat, vk: nat, mk: nat, wk: nat)
    requires kk > 0 && sb > 0
    requires kk * (sb * sr) * wk >= vk * mk && mk >= kk * (sb * lr)
    ensures wk * sr >= vk * lr
  {
    MulLeft(vk, kk * (sb * lr), mk);
    var c := kk * sb;
    assert c > 0;
    assert kk * (sb * sr) * wk == c * (wk * sr) by {
      Regroup(kk, sb, sr);
      Regroup(c, sr, wk);
    }
    assert vk * (kk * (sb * lr)) == c * (vk * lr) by {
      Regroup(kk, sb, lr);
      assert vk * (c * lr) == c * (vk * lr);
    }
    CancelLeft(c, vk * lr, wk * sr);
  }

  /** Raising the vault or shrinking the supply keeps both measures. */
  lemma GrowthKeepsPotential(v0: nat, s0: nat, v1: nat, s1: nat, bps: nat)
    requires bps <= MAX_BPS && v0 <= v1 && s1 <= s0
    ensures PotentialKept(v0, s0, v1, s1, bps)
    ensures FloorKept(v0, s0, v1, s1)
  {
    var k, rest: nat := MAX_BPS, MAX_BPS - bps;
    PowMonotone(v0, v1, k);
    PowMonotone(s1, s0, rest);
    MulBoth(Pow(v0, k), Pow(v1, k), Pow(s1, rest), Pow(s0, rest));
    MulBoth(v0, v1, s1, s0);
  }

  lemma MulBoth(a: nat, b: nat, c: nat, d: nat)
    requires a <= b && c <= d
    ensures a * c <= b * d
  {
    MulLeft(a, c, d);
    MulLeft(d, a, b);
  }

  /** Both measures chain as long as the supply never grows. */
  lemma MeasuresChain(v0: nat, s0: nat, v1: nat, s1: nat, v2: nat, s2: nat, bps: nat)
    requires bps <= MAX_BPS && s2 <= s1
    requires FloorKept(v0, s0, v1, s1) && FloorKept(v1, s1, v2, s2)
    requires PotentialKept(v0, s0, v1, s1, bps) && PotentialKept(v1, s1, v2, s2, bps)
    ensures FloorKept(v0, s0, v2, s2) && PotentialKept(v0, s0, v2, s2, bps)
  {
    var k, rest: nat := MAX_BPS, MAX_BPS - bps;
    if s1 == 0 {
      assert v0 * s2 == 0;
      if rest == 0 {
        assert Pow(s0, rest) == 1 && Pow(s1, rest) == 1 && Pow(s2, rest) == 1;
      } else {
        PowOfZero(rest);
      }
    } else {
      CrossChain(v0, s0, v1, s1, v2, s2);
      PowPositive(s1, rest);
      CrossChain(Pow(v0, k), Pow(s0, rest), Pow(v1, k), Pow(s1, rest), Pow(v2, k), Pow(s2, rest));
    }
  }

  lemma CrossChain(a0: nat, b0: nat, a1: nat, b1: nat, a2: nat, b2: nat)
    requires b1 > 0 && a1 * b0 >= a0 * b1 && a2 * b1 >= a1 * b2
    ensures a2 * b0 >= a0 * b2
  {
    MulLeft(b0, a1 * b2, a2 * b1);
    MulLeft(b2, a0 * b1, a1 * b0);
    assert b0 * (a1 * b2) == b2 * (a1 * b0);
    assert b0 * (a2 * b1) == b1 * (a2 * b0);
    assert b2 * (a0 * b1) == b1 * (a0 * b2);
    CancelLeft(b1, a0 * b2, a2 * b0);
  }

  // ------------------------------------------------------------ splitting one redemption

  datatype Redeemed = Redeemed(vault: nat, supply: nat, paid: nat)

  function Sum(amounts: seq<nat>): nat {
    if amounts == [] then 0 else amounts[0] + Sum(amounts[1..])
  }

  /** Quote the amounts one after the other, each against what the previous ones left. */
  function Split(vault: nat, supply: nat, amounts: seq<nat>, bps: nat): (r: Result<Redeemed, QuoteError>)
    ensures r.Ok? ==> r.value.vault + r.value.paid == vault
    ensures r.Ok? ==> r.value.supply + Sum(amounts) == supply
    decreases |amounts|
  {
    if amounts == [] then Ok(Redeemed(vault, supply, 0))
    else match RedeemQuote(vault, supply, amounts[0], bps)
      case Err(e) => Err(e)
      case Ok(q) =>
        match Split(vault - q.net, supply - amounts[0], amounts[1..], bps)
        case Err(e) => Err(e)
        case Ok(rest) => Ok(Redeemed(rest.vault, rest.supply, q.net + rest.paid))
  }

  /** However a redemption is cut, the floor and the fee-weighted potential are kept. */
  lemma {:induction false} SplitKeepsMeasures(vault: nat, supply: nat, amounts: seq<nat>, bps: nat)
    requires bps <= MAX_BPS && Split(vault, supply, amounts, bps).Ok?
    ensures var end := Split(vault, supply, amounts, bps).value;
            FloorKept(vault, supply, end.vault, end.supply) && PotentialKept(vault, supply, end.vault, end.supply, bps)
    decreases |amounts|
  {
    if amounts == [] {
      GrowthKeepsPotential(vault, supply, vault, supply, bps);
    } else {
      var q := RedeemQuote(vault, supply, amounts[0], bps).value;
      var v1, s1 := vault - q.net, supply - amounts[0];
      RedeemKeepsFloor(vault, supply, amounts[0], bps);
      RedeemKeepsPotential(vault, supply, amounts[0], bps);
      SplitKeepsMeasures(v1, s1, amounts[1..], bps);
      var end := Split(v1, s1, amounts[1..], bps).value;
      MeasuresChain(vault, supply, v1, s1, end.vault, end.supply, bps);
    }
  }

  /**
   * No way of cutting a redemption beats the continuous limit, nor the fee-free pro-rata share
   * rounded down.
   */
  lemma SplitPayoutBound(vault: nat, supply: nat, amounts: seq<nat>, bps: nat)
    requires bps <= MAX_BPS && Split(vault, supply, amounts, bps).Ok? && supply > 0
    ensures var total := Split(vault, supply, amounts, bps).value.paid;
            Pow(vault - total, MAX_BPS) * Pow(supply, MAX_BPS - bps)
              >= Pow(vault, MAX_BPS) * Pow(supply - Sum(amounts), MAX_BPS - bps)
            && total <= (vault * Sum(amounts)) / supply
  {
    SplitKeepsMeasures(vault, supply, amounts, bps);
    var end := Split(vault, supply, amounts, bps).value;
    FloorBoundsPayout(vault, supply, Sum(amounts), end.paid);
  }

  lemma FloorBoundsPayout(vault: nat, supply: nat, amount: nat, total: nat)
    requires 0 < supply && amount <= supply && total <= vault
    requires FloorKept(vault, supply, vault - total, supply - amount)
    ensures total <= (vault * amount) / supply
  {
    assert (vault - total) * supply == vault * supply - total * supply;
    assert vault * (supply - amount) == vault * supply - vault * amount;
    DivisionBounds(vault, amount, supply);
    var q := (vault * amount) / supply;
    if total > q {
      MulLeft(supply, q + 1, total);
    }
  }

  /** Cutting a redemption never pays more than quoting the whole amount at once. */
  ghost predicate SplittingNeverPays(bps: nat) {
    forall vault: nat, supply: nat, amounts: seq<nat> ::
      Split(vault, supply, amounts, bps).Ok? && RedeemQuote(vault, supply, Sum(amounts), bps).Ok? ==>
        Split(vault, supply, amounts, bps).value.paid <= RedeemQuote(vault, supply, Sum(amounts), bps).value.net
  }

  /** Exactly the fee-free launches (and the degenerate full fee) have that property. */
  lemma SplittingNeverPaysIff(bps: nat)
    requires bps <= MAX_BPS
    ensures SplittingNeverPays(bps) <==> bps == 0 || bps == MAX_BPS
  {
    if bps == 0 {
      forall vault: nat, supply: nat, amounts: seq<nat>
        | Split(vault, supply, amounts, 0).Ok? && RedeemQuote(vault, supply, Sum(amounts), 0).Ok?
        ensures Split(vault, supply, amounts, 0).value.paid <= RedeemQuote(vault, supply, Sum(amounts), 0).value.net
      {
        SplitPayoutBound(vault, supply, amounts, 0);
      }
    } else if bps == MAX_BPS {
      forall vault: nat, supply: nat, amounts: seq<nat> | Split(vault, supply, amounts, bps).Ok?
        ensures Split(vault, supply, amounts, bps).value.paid == 0
      {
        FullFeePaysNothing(vault, supply, amounts);
      }
    } else {
      SplitWitness(bps);
    }
  }

  lemma {:induction false} FullFeePaysNothing(vault: nat, supply: nat, amounts: seq<nat>)
    requires Split(vault, supply, amounts, MAX_BPS).Ok?
    ensures Split(vault, supply, amounts, MAX_BPS).value.paid == 0
    decreases |amounts|
  {
    if amounts != [] {
      var q := RedeemQuote(vault, supply, amounts[0], MAX_BPS).value;
      assert q.gross <= q.fee;
      FullFeePaysNothing(vault - q.net, supply - amounts[0], amounts[1..]);
    }
  }

  /** Two units of supply over 2 * 10^8 of vault: redeeming one by one pays more by `bps * (10000 - bps)`. */
  lemma SplitWitness(bps: nat)
    requires 0 < bps < MAX_BPS
    ensures Split(200_000_000, 2, [1, 1], bps).Ok? && RedeemQuote(200_000_000, 2, Sum([1, 1]), bps).Ok?
    ensures Split(200_000_000, 2, [1, 1], bps).value.paid
         == RedeemQuote(200_000_000, 2, Sum([1, 1]), bps).value.net + bps * (MAX_BPS - bps)
    ensures bps * (MAX_BPS - bps) > 0
  {
    assert Sum([1, 1]) == 2 by {
      assert [1, 1][1..] == [1] && [1][1..] == [];
    }
    ExactQuote(200_000_000, 2, 2, bps, 20_000);
    ExactQuote(200_000_000, 2, 1, bps, 10_000);
    var vault: nat := 200_000_000 - 10_000 * (MAX_BPS - bps);
    ExactQuote(vault, 1, 1, bps, MAX_BPS + bps);
    SplitOfTwo(200_000_000, 2, 1, 1, bps);
    DifferenceOfSquares(bps, MAX_BPS - bps);
  }

  lemma DifferenceOfSquares(bps: nat, rest: nat)
    requires bps + rest == MAX_BPS && 0 < bps && 0 < rest
    ensures (MAX_BPS + bps) * rest == MAX_BPS * rest + bps * rest
    ensures bps * rest > 0
  {
  }

  lemma SplitOfTwo(vault: nat, supply: nat, a: nat, b: nat, bps: nat)
    requires QuoteArguments(vault, supply, a, bps) && QuoteArguments(vault, supply, b, bps) && a + b <= supply && a < supply
    ensures Split(vault, supply, [a, b], bps).Ok?
    ensures var first := RedeemQuote(vault, supply, a, bps).value.net;
            Split(vault, supply, [a, b], bps).value.paid == first + RedeemQuote(vault - first, supply - a, b, bps).value.net
  {
    assert [a, b][1..] == [b] && [b][1..] == [];
    var first := RedeemQuote(vault, supply, a, bps).value.net;
    assert Split(vault - first, supply - a, [b], bps).Ok?;
  }

  /** A gross amount that is a multiple of 10000 pays its fee without rounding. */
  lemma ExactQuote(vault: nat, supply: nat, amount: nat, bps: nat, units: nat)
    requires QuoteArguments(vault, supply, amount, bps)
    requires vault * amount == units * MAX_BPS * supply
    ensures RedeemQuote(vault, supply, amount, bps).value.net == units * (MAX_BPS - bps)
  {
    var q := RedeemQuote(vault, supply, amount, bps).value;
    SandwichEqual(q.gross, units * MAX_BPS, supply);
    assert q.gross * bps == (units * bps) * MAX_BPS;
    assert q.fee == units * bps;
  }

  lemma SandwichEqual(g: nat, h: nat, s: nat)
    requires 0 < s && g * s <= h * s < (g + 1) * s
    ensures g == h
  {
    CancelLeft(s, g, h);
    if h >= g + 1 {
      MulLeft(s, g + 1, h);
    }
  }
}
