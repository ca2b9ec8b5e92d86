/** The bonding curve's one segment: how its liquidity is sized and where the migration price lands. */
module CurveSizing {
  import opened Results
  import opened Redemption
  import opened Powers
  import opened Positional

  const Q128: nat := 0x1_0000_0000_0000_0000_0000_0000_0000_0000
  const U128_MAX: nat := Q128 - 1
  const MIN_SQRT_PRICE: nat := 4295048016
  const MAX_SQRT_PRICE: nat := 79226673521066979257578248091

  datatype CurvePoint = CurvePoint(sqrtPrice: nat, liquidity: nat)

  datatype CurveError =
    | MathOverflow | TypeCastFailed | InvalidCurve | NotEnoughLiquidity
    | PriceOutOfRange | PricesDoNotIncrease | LiquidityTooLarge

  // ------------------------------------------------------------ division rounded up

  function DivCeil(a: nat, b: nat): (r: nat)
    requires b > 0
    ensures a <= r * b && r * b <= a + b - 1
  {
    DivisionLaw(a + b - 1, b);
    (a + b - 1) / b
  }

  function DivFloor(a: nat, b: nat): (r: nat)
    requires b > 0
    ensures r * b <= a < (r + 1) * b
  {
    DivisionLaw(a, b);
    assert (a / b + 1) * b == (a / b) * b + b && (a / b) * b == b * (a / b);
    a / b
  }

  /** `r` is the least whose product with `b` reaches `a`. */
  lemma DivCeilIs(a: nat, b: nat, r: nat)
    requires b > 0 && a <= r * b && r * b <= a + b - 1
    ensures DivCeil(a, b) == r
  {
    var s := DivCeil(a, b);
    Successor(r, b);
    Successor(s, b);
    BelowNext(s, r, b);
    BelowNext(r, s, b);
  }

  // ------------------------------------------------------------ integer square root

  predicate IsRoot(r: nat, n: nat) { r * r <= n < (r + 1) * (r + 1) }

  lemma SquareMonotone(x: nat, y: nat)
    requires x <= y
    ensures x * x <= y * y
  {
    MulLeft(x, x, y);
    MulLeft(y, x, y);
  }

  lemma RootIsUnique(r: nat, s: nat, n: nat)
    requires IsRoot(r, n) && IsRoot(s, n)
    ensures r == s
  {
    if r < s {
      SquareMonotone(r + 1, s);
    } else if s < r {
      SquareMonotone(s + 1, r);
    }
  }

  lemma SquareOfSum(a: int, b: int)
    ensures (a + b) * (a + b) == 4 * (a * b) + (a - b) * (a - b)
  {
  }

  lemma SquareNotNegative(a: int)
    ensures a * a >= 0
  {
  }

  lemma DoubleSquare(y: int)
    ensures (2 * y) * (2 * y) == 4 * (y * y)
  {
  }

  /** A Newton step from above the root never falls below it. */
  lemma NewtonStaysAbove(x: nat, n: nat, q: nat, y: nat)
    requires x > 0 && q * x <= n < (q + 1) * x && 2 * y <= x + q <= 2 * y + 1
    ensures n < (y + 1) * (y + 1)
  {
    SquareOfSum(x, q + 1);
    SquareNotNegative(x - (q + 1));
    SquareMonotone(x + (q + 1), 2 * (y + 1));
    DoubleSquare(y + 1);
    assert x * (q + 1) == (q + 1) * x;
  }

  lemma NextDigitBelow(v: nat, p: nat, d: nat, base: nat)
    requires v < p && d < base
    ensures v * base + d < base * p
  {
    MulLeft(base, v + 1, p);
    Successor(v, base);
    assert v * base == base * v;
  }

  lemma {:induction false} ValueBelowPower(ds: seq<nat>, base: nat)
    requires base > 0 && Numeral(ds, base)
    ensures Value(ds, base) < Pow(base, |ds|)
    decreases |ds|
  {
    if ds != [] {
      var init := ds[..|ds| - 1];
      ValueBelowPower(init, base);
      NextDigitBelow(Value(init, base), Pow(base, |init|), ds[|ds| - 1], base);
    }
  }

  lemma RootIsPositive(y: nat, n: nat)
    requires 2 <= n < (y + 1) * (y + 1)
    ensures y > 0
  {
  }

  /** A power of two above the root: half the binary digits, rounded up. */
  lemma StartIsAbove(n: nat, bits: nat)
    requires bits == |Digits(n, 2)|
    ensures n < Pow(2, (bits + 1) / 2) * Pow(2, (bits + 1) / 2)
  {
    var h := (bits + 1) / 2;
    ValueOfDigits(n, 2);
    ValueBelowPower(Digits(n, 2), 2);
    PowSum(2, h, h);
    PowMonotoneInExponent(bits, h + h);
  }

  lemma {:induction false} PowMonotoneInExponent(e: nat, f: nat)
    requires e <= f
    ensures Pow(2, e) <= Pow(2, f)
    decreases f
  {
    if e < f {
      PowMonotoneInExponent(e, f - 1);
    }
  }

  /** Newton's iteration, from a power of two above the root down to the floor of the root. */
  method Isqrt(n: nat) returns (r: nat)
    ensures IsRoot(r, n)
  {
    if n < 2 { return n; }
    var x := Pow(2, (|Digits(n, 2)| + 1) / 2);
    StartIsAbove(n, |Digits(n, 2)|);
    PowPositive(2, (|Digits(n, 2)| + 1) / 2);
    SquareMonotone(x, x + 1);
    while true
      invariant x > 0 && n < (x + 1) * (x + 1)
      decreases x
    {
      DivisionLaw(n, x);
      Successor(n / x, x);
      assert (n / x) * x == x * (n / x);
      var y := (x + n / x) / 2;
      if y >= x {
        MulLeft(x, x, n / x);
        return x;
      }
      NewtonStaysAbove(x, n, n / x, y);
      RootIsPositive(y, n);
      x := y;
    }
  }

  // ------------------------------------------------------------ the segment formulas

  /** L * (upper - lower) / 2^128, rounded up or down. */
  function GetDeltaAmountQuote(lower: nat, upper: nat, liquidity: nat, roundUp: bool): Result<nat, CurveError> {
    if upper < lower then Err(MathOverflow)
    else
      MulLeft(liquidity, 0, upper - lower);
      var product: nat := liquidity * (upper - lower);
      Ok(if roundUp then DivCeil(product, Q128) else DivFloor(product, Q128))
  }

  function Shifted(amount: nat): nat { amount * Q128 }

  /** The price plus amountIn * 2^128 / L, rounded down. */
  function GetNextSqrtPrice(sqrtPrice: nat, liquidity: nat, amountIn: nat): Result<nat, CurveError> {
    if liquidity == 0 then Err(MathOverflow)
    else
      var next := sqrtPrice + DivFloor(Shifted(amountIn), liquidity);
      if next > U128_MAX then Err(TypeCastFailed) else Ok(next)
  }

  /** The two formulas as inequalities: the cost of a stretch of curve, and the price an amount reaches. */
  lemma DeltaIs(lower: nat, upper: nat, liquidity: nat, d: nat)
    ensures GetDeltaAmountQuote(lower, upper, liquidity, true) == Ok(d) <==>
              lower <= upper && (d - 1) * Q128 < liquidity * (upper - lower) <= d * Q128
    ensures GetDeltaAmountQuote(lower, upper, liquidity, false) == Ok(d) <==>
              lower <= upper && d * Q128 <= liquidity * (upper - lower) < (d + 1) * Q128
  {
    if lower <= upper {
      MulLeft(liquidity, 0, upper - lower);
      var product: nat := liquidity * (upper - lower);
      Bracketed(product, d);
    }
  }

  lemma Bracketed(n: nat, d: nat)
    ensures DivCeil(n, Q128) == d <==> (d - 1) * Q128 < n <= d * Q128
    ensures DivFloor(n, Q128) == d <==> d * Q128 <= n < (d + 1) * Q128
  {
  }

  lemma NextPriceIs(price: nat, liquidity: nat, amount: nat, next: nat)
    ensures GetNextSqrtPrice(price, liquidity, amount) == Ok(next) <==>
              && liquidity > 0 && price <= next <= U128_MAX
              && (next - price) * liquidity <= amount * Q128 < (next - price + 1) * liquidity
  {
    if liquidity > 0 && price <= next {
      FloorIs(amount * Q128, liquidity, next - price);
    }
  }

  lemma FloorIs(n: nat, d: nat, q: nat)
    requires d > 0
    ensures DivFloor(n, d) == q <==> q * d <= n < (q + 1) * d
  {
    var r := DivFloor(n, d);
    if q < r {
      MulLeft(d, q + 1, r);
    } else if q > r {
      MulLeft(d, r + 1, q);
    }
  }

  /** The price that `left` more quote reaches from `price` along `points`. */
  function Walk(price: nat, left: nat, points: seq<CurvePoint>): Result<nat, CurveError>
    decreases |points|
  {
    if points == [] then (if left != 0 then Err(NotEnoughLiquidity) else Ok(price))
    else match GetDeltaAmountQuote(price, points[0].sqrtPrice, points[0].liquidity, true)
      case Err(e) => Err(e)
      case Ok(most) =>
        if most > left then GetNextSqrtPrice(price, points[0].liquidity, left)
        else if most > U64_MAX then Err(MathOverflow)
        else Walk(points[0].sqrtPrice, left - most, points[1..])
  }

  /** What one segment of the curve does to the walk. */
  lemma NextSegment(price: nat, left: nat, curve: seq<CurvePoint>, i: nat)
    requires i < |curve| && left <= U64_MAX
    ensures match GetDeltaAmountQuote(price, curve[i].sqrtPrice, curve[i].liquidity, true)
            case Err(e) => Walk(price, left, curve[i..]) == Err(e)
            case Ok(most) =>
              if most > left then Walk(price, left, curve[i..]) == GetNextSqrtPrice(price, curve[i].liquidity, left)
              else Walk(price, left, curve[i..]) == Walk(curve[i].sqrtPrice, left - most, curve[i + 1..])
  {
    assert curve[i..][0] == curve[i] && curve[i..][1..] == curve[i + 1..];
  }

  /** The program's walk: the first segment, then the others while the threshold lasts. */
  method GetMigrationThresholdPrice(threshold: nat, start: nat, curve: seq<CurvePoint>) returns (r: Result<nat, CurveError>)
    requires threshold <= U64_MAX
    ensures r == if curve == [] then Err(InvalidCurve) else Walk(start, threshold, curve)
  {
    if curve == [] { return Err(InvalidCurve); }
    var first := GetDeltaAmountQuote(start, curve[0].sqrtPrice, curve[0].liquidity, true);
    assert curve[0..] == curve;
    NextSegment(start, threshold, curve, 0);
    if first.Err? { return Err(first.error); }
    if first.value > threshold {
      r := GetNextSqrtPrice(start, curve[0].liquidity, threshold);
      return;
    }
    r := WalkOn(curve[0].sqrtPrice, threshold - first.value, curve);
  }

  method WalkOn(from: nat, amount: nat, curve: seq<CurvePoint>) returns (r: Result<nat, CurveError>)
    requires amount <= U64_MAX && curve != []
    ensures r == Walk(from, amount, curve[1..])
  {
    var next: nat, left: nat := from, amount;
    var i := 1;
    while i < |curve|
      invariant 1 <= i <= |curve| && left <= U64_MAX
      invariant Walk(from, amount, curve[1..]) == Walk(next, left, curve[i..])
    {
      var point := curve[i];
      NextSegment(next, left, curve, i);
      var most := GetDeltaAmountQuote(next, point.sqrtPrice, point.liquidity, true);
      if most.Err? { return Err(most.error); }
      if most.value > left {
        r := GetNextSqrtPrice(next, point.liquidity, left);
        return;
      }
      if most.value > U64_MAX { return Err(MathOverflow); }
      left := left - most.value;
      next := point.sqrtPrice;
      i := i + 1;
    }
    if left != 0 { return Err(NotEnoughLiquidity); }
    return Ok(next);
  }

  // ------------------------------------------------------------ general curves

  /** What it costs to walk the whole curve, segment by segment, each rounded up. */
  function TotalCost(price: nat, points: seq<CurvePoint>): Result<nat, CurveError>
    decreases |points|
  {
    if points == [] then Ok(0)
    else match GetDeltaAmountQuote(price, points[0].sqrtPrice, points[0].liquidity, true)
      case Err(e) => Err(e)
      case Ok(most) =>
        match TotalCost(points[0].sqrtPrice, points[1..])
        case Err(e) => Err(e)
        case Ok(rest) => Ok(most + rest)
  }

  /** A curve falls short exactly when walking all of it costs less than the threshold. */
  lemma {:induction false} ShortIff(price: nat, left: nat, points: seq<CurvePoint>)
    requires left <= U64_MAX && TotalCost(price, points).Ok?
    ensures Walk(price, left, points) == Err(NotEnoughLiquidity) <==> TotalCost(price, points).value < left
    decreases |points|
  {
    if points != [] {
      var most := GetDeltaAmountQuote(price, points[0].sqrtPrice, points[0].liquidity, true).value;
      if most <= left {
        ShortIff(points[0].sqrtPrice, left - most, points[1..]);
      }
    }
  }

  // ------------------------------------------------------------ one segment

  /** The liquidity that makes a segment of `width` cost the threshold: ceil(T * 2^128 / width). */
  function Sized(threshold: nat, width: nat): nat
    requires width > 0
  {
    DivCeil(Shifted(threshold), width)
  }

  lemma SizedIsPositive(threshold: nat, width: nat)
    requires threshold > 0 && width > 0
    ensures Sized(threshold, width) > 0
  {
  }

  /** For one segment of any curve: `product` is L * D and `scale` is 2^128. */
  lemma CostOfProduct(t: nat, product: nat, width: nat, scale: nat)
    requires 0 < width <= scale && t * scale <= product <= t * scale + width - 1
    ensures DivCeil(product, scale) == (if product == t * scale then t else t + 1)
  {
    Successor(t, scale);
    DivCeilIs(product, scale, if product == t * scale then t else t + 1);
  }

  /** Sized liquidity costs the threshold exactly when the width divides T * 2^128, and one unit more otherwise. */
  lemma SizedCost(threshold: nat, start: nat, end: nat)
    requires start < end && end - start <= Q128
    ensures var width := end - start;
            GetDeltaAmountQuote(start, end, Sized(threshold, width), true)
            == Ok(if Sized(threshold, width) * width == Shifted(threshold) then threshold else threshold + 1)
  {
    var width := end - start;
    CostOfProduct(threshold, Sized(threshold, width) * width, width, Q128);
  }

  lemma DividesIff(a: nat, width: nat)
    requires width > 0
    ensures DivCeil(a, width) * width == a <==> a % width == 0
  {
    DivisionLaw(a, width);
    if a % width == 0 {
      DivCeilIs(a, width, a / width);
    } else if DivCeil(a, width) * width == a {
      DivMod(DivCeil(a, width), width, 0);
    }
  }

  /** The walk over a sized segment: it always succeeds and ends at the end price or below it. */
  function Landing(threshold: nat, start: nat, end: nat): nat
    requires threshold > 0 && start < end
  {
    SizedIsPositive(threshold, end - start);
    if Shifted(threshold) % (end - start) == 0 then end
    else start + DivFloor(Shifted(threshold), Sized(threshold, end - start))
  }

  lemma FloorBelow(a: nat, liquidity: nat, width: nat)
    requires liquidity > 0 && width > 0 && a < liquidity * width
    ensures DivFloor(a, liquidity) <= width - 1
  {
    assert liquidity * width == width * liquidity;
    BelowNext(DivFloor(a, liquidity), width - 1, liquidity);
  }

  lemma FloorAtLeast(a: nat, liquidity: nat, width: nat)
    requires liquidity > 0 && width > 0
    ensures DivFloor(a, liquidity) >= width - 1 <==> liquidity * width - a <= liquidity
  {
    var f := DivFloor(a, liquidity);
    assert liquidity * width == width * liquidity;
    Successor(width - 1, liquidity);
    if f >= width - 1 {
      MulLeft(liquidity, width - 1, f);
      assert liquidity * f == f * liquidity && liquidity * (width - 1) == (width - 1) * liquidity;
    } else if (width - 1) * liquidity <= a {
      BelowNext(width - 1, f, liquidity);
    }
  }

  /**
   * Where the migration price lands: exactly on the end price when the width divides T * 2^128, never
   * above it, and at most one rounding step below it if and only if the rounding surplus of the
   * liquidity, L * D - T * 2^128, does not exceed L; so always when D <= L.
   */
  lemma LandingBounds(threshold: nat, start: nat, end: nat)
    requires threshold > 0 && start < end
    ensures var width := end - start;
            var liquidity := Sized(threshold, width);
            var price := Landing(threshold, start, end);
            && (price == end <==> Shifted(threshold) % width == 0)
            && start <= price <= end
            && (price >= end - 1 <==> liquidity * width - Shifted(threshold) <= liquidity)
            && (width <= liquidity ==> price >= end - 1)
  {
    var width := end - start;
    var liquidity := Sized(threshold, width);
    SizedIsPositive(threshold, width);
    DividesIff(Shifted(threshold), width);
    FloorAtLeast(Shifted(threshold), liquidity, width);
    if liquidity * width != Shifted(threshold) {
      FloorBelow(Shifted(threshold), liquidity, width);
    }
  }

  lemma WalkLands(threshold: nat, start: nat, end: nat)
    requires 0 < threshold <= U64_MAX && start < end <= U128_MAX
    ensures Walk(start, threshold, [CurvePoint(end, Sized(threshold, end - start))]) == Ok(Landing(threshold, start, end))
  {
    var width := end - start;
    var point := CurvePoint(end, Sized(threshold, width));
    SizedIsPositive(threshold, width);
    SizedCost(threshold, start, end);
    DividesIff(Shifted(threshold), width);
    LandingBounds(threshold, start, end);
    NextSegment(start, threshold, [point], 0);
    assert [point][0..] == [point] && [point][1..] == [];
  }

  // ------------------------------------------------------------ the presets

  datatype Preset = Gentle | Flat

  function Num(p: Preset): nat { if p == Gentle then 6 else 101 }

  function Den(p: Preset): (d: nat)
    ensures d > 0
  {
    if p == Gentle then 5 else 100
  }

  /** The square of the end price: start^2 times the preset's ratio, rounded down. */
  function EndSquare(p: Preset, start: nat): nat { DivFloor(start * start * Num(p), Den(p)) }

  lemma RisesIff(p: Preset, start: nat, end: nat)
    requires IsRoot(end, EndSquare(p, start))
    ensures end > start <==> Den(p) * ((start + 1) * (start + 1)) <= start * start * Num(p)
  {
    var n := EndSquare(p, start);
    var next := (start + 1) * (start + 1);
    assert n * Den(p) == Den(p) * n && next * Den(p) == Den(p) * next;
    if end > start {
      SquareMonotone(start + 1, end);
      MulLeft(Den(p), next, n);
    } else {
      SquareMonotone(end + 1, start + 1);
      MulLeft(Den(p), n + 1, next);
      Successor(n, Den(p));
    }
  }

  lemma Crosses(s: nat, k: nat)
    requires k >= 2
    ensures s * s >= k * s + k / 2 <==> s >= k + 1
  {
    if s >= k + 1 {
      MulLeft(s, k + 1, s);
      assert s * (k + 1) == k * s + s;
    } else {
      MulLeft(s, s, k);
      assert s * k == k * s;
    }
  }

  lemma NextSquare(s: nat)
    ensures (s + 1) * (s + 1) == s * s + 2 * s + 1
  {
  }

  /** The prices increase for every start price of at least 11 (gentle) or 201 (flat), and for no smaller one. */
  lemma PresetRisesIff(p: Preset, start: nat, end: nat)
    requires IsRoot(end, EndSquare(p, start))
    ensures end > start <==> start >= (if p == Gentle then 11 else 201)
  {
    RisesIff(p, start, end);
    NextSquare(start);
    Crosses(start, if p == Gentle then 10 else 200);
  }

  datatype Segment = Segment(end: nat, liquidity: nat, migrationPrice: nat)

  /**
   * The curve for a start price. Of its checks only the price range and the liquidity width can fail:
   * inside the range the prices always increase, and the walk always reaches the threshold.
   */
  method EvaluateCurve(threshold: nat, p: Preset, start: nat) returns (r: Result<Segment, CurveError>)
    requires 0 < threshold <= U64_MAX
    ensures r.Ok? ==> MIN_SQRT_PRICE <= start < r.value.end < MAX_SQRT_PRICE && IsRoot(r.value.end, EndSquare(p, start))
    ensures r.Ok? ==> r.value.liquidity == Sized(threshold, r.value.end - start) <= U128_MAX
    ensures r.Ok? ==> r.value.migrationPrice == Landing(threshold, start, r.value.end)
    ensures r.Err? ==> r.error == PriceOutOfRange || r.error == LiquidityTooLarge
    ensures forall end: nat :: IsRoot(end, EndSquare(p, start)) ==>
              (r.Ok? <==> MIN_SQRT_PRICE <= start < end < MAX_SQRT_PRICE && Sized(threshold, end - start) <= U128_MAX)
  {
    var end := Isqrt(EndSquare(p, start));
    forall other: nat | IsRoot(other, EndSquare(p, start)) ensures other == end {
      RootIsUnique(other, end, EndSquare(p, start));
    }
    if start < MIN_SQRT_PRICE || end >= MAX_SQRT_PRICE { return Err(PriceOutOfRange); }
    PresetRisesIff(p, start, end);
    if end <= start { return Err(PricesDoNotIncrease); }
    var liquidity := Sized(threshold, end - start);
    if liquidity > U128_MAX { return Err(LiquidityTooLarge); }
    WalkLands(threshold, start, end);
    var price := GetMigrationThresholdPrice(threshold, start, [CurvePoint(end, liquidity)]);
    match price {
      case Err(e) => return Err(e);
      case Ok(migrationPrice) => return Ok(Segment(end, liquidity, migrationPrice));
    }
  }

  // ------------------------------------------------------------ refining the start price

  const SUPPLY_TARGET: nat := 1_000_000_000_000_000

  /** The next start price: sqrt(start^2 * supply / target), rounded down twice. */
  predicate Refines(start: nat, supply: nat, next: nat) {
    IsRoot(next, DivFloor(start * start * supply, SUPPLY_TARGET))
  }

  /** Each start price before the last was evaluated and refines to the next, a different one. */
  predicate Refinements(starts: seq<nat>, supplyAt: nat -> Option<nat>) {
    forall i :: 0 <= i < |starts| - 1 ==>
      supplyAt(starts[i]).Some? && Refines(starts[i], supplyAt(starts[i]).value, starts[i + 1]) && starts[i + 1] != starts[i]
  }

  /**
   * At most five start prices from the first one on: the result is the last of them, None exactly where
   * it throws; it is settled exactly when one of the first four refines to itself, and else all five are tried.
   */
  predicate Search(starts: seq<nat>, first: nat, supplyAt: nat -> Option<nat>, r: Option<nat>, settled: bool) {
    && 1 <= |starts| <= 5 && starts[0] == first && Refinements(starts, supplyAt)
    && r == (if supplyAt(starts[|starts| - 1]).Some? then Some(starts[|starts| - 1]) else None)
    && (settled <==> r.Some? && |starts| <= 4 && Refines(r.value, supplyAt(r.value).value, r.value))
    && (r.Some? && !settled ==> |starts| == 5)
  }

  /** `supplyAt` is the supply of the evaluated curve, or None where it throws, which ends the search. */
  method RefineStart(first: nat, supplyAt: nat -> Option<nat>) returns (r: Option<nat>, settled: bool)
    ensures exists starts :: Search(starts, first, supplyAt, r, settled)
  {
    var start := first;
    ghost var starts := [first];
    var result := supplyAt(start);
    if result.None? {
      assert Search(starts, first, supplyAt, None, false);
      return None, false;
    }
    for i := 0 to 4
      invariant |starts| == i + 1 && starts[0] == first && starts[i] == start && Refinements(starts, supplyAt)
      invariant result.Some? && result == supplyAt(start)
    {
      var next := Isqrt(DivFloor(start * start * result.value, SUPPLY_TARGET));
      if next == start {
        assert Search(starts, first, supplyAt, Some(start), true);
        return Some(start), true;
      }
      assert Refines(start, result.value, next);
      start := next;
      starts := starts + [next];
      result := supplyAt(start);
      if result.None? {
        assert Search(starts, first, supplyAt, None, false);
        return None, false;
      }
    }
    assert Search(starts, first, supplyAt, Some(start), false);
    return Some(start), false;
  }

  /** Refinements are determined by their first price. */
  lemma {:induction false} RefinementsAreUnique(a: seq<nat>, b: seq<nat>, supplyAt: nat -> Option<nat>, i: nat)
    requires Refinements(a, supplyAt) && Refinements(b, supplyAt) && i < |a| && i < |b| && a[0] == b[0]
    ensures a[i] == b[i]
    decreases i
  {
    if i > 0 {
      RefinementsAreUnique(a, b, supplyAt, i - 1);
      var n := DivFloor(a[i - 1] * a[i - 1] * supplyAt(a[i - 1]).value, SUPPLY_TARGET);
      assert Refines(a[i - 1], supplyAt(a[i - 1]).value, a[i - 1 + 1]) && Refines(b[i - 1], supplyAt(b[i - 1]).value, b[i - 1 + 1]);
      RootIsUnique(a[i], b[i], n);
    }
  }

  /** So a first price has one outcome only. */
  lemma SearchIsUnique(a: seq<nat>, b: seq<nat>, first: nat, supplyAt: nat -> Option<nat>, r: Option<nat>, q: Option<nat>,
                       settled: bool, done: bool)
    requires Search(a, first, supplyAt, r, settled) && Search(b, first, supplyAt, q, done)
    ensures a == b && r == q && settled == done
  {
    forall i | 0 <= i < |a| && i < |b| ensures a[i] == b[i] {
      RefinementsAreUnique(a, b, supplyAt, i);
    }
    if |a| < |b| {
      EndsSearch(a, b, first, supplyAt, r, settled);
    } else if |b| < |a| {
      EndsSearch(b, a, first, supplyAt, q, done);
    }
  }

  /** A search does not go on behind its end. */
  lemma EndsSearch(a: seq<nat>, b: seq<nat>, first: nat, supplyAt: nat -> Option<nat>, r: Option<nat>, settled: bool)
    requires Search(a, first, supplyAt, r, settled) && |a| < |b| <= 5 && a[|a| - 1] == b[|a| - 1]
    ensures !Refinements(b, supplyAt)
  {
    var n := |a| - 1;
    if Refinements(b, supplyAt) {
      assert supplyAt(b[n]).Some? && Refines(b[n], supplyAt(b[n]).value, b[n + 1]) && b[n + 1] != b[n];
      RootIsUnique(b[n], b[n + 1], DivFloor(b[n] * b[n] * supplyAt(b[n]).value, SUPPLY_TARGET));
    }
  }

  /** A start price that refines to itself meets the supply target, to within one step of the price. */
  lemma SettledMeetsTarget(start: nat, supply: nat)
    requires start > 0 && Refines(start, supply, start)
    ensures 1_000_000_000_000_000 <= supply
    ensures start * start * supply < (start + 1) * (start + 1) * 1_000_000_000_000_000
  {
    var square, n := start * start, DivFloor(start * start * supply, SUPPLY_TARGET);
    MulLeft(SUPPLY_TARGET, square, n);
    MulLeft(start, 1, start);
    CancelLeft(square, SUPPLY_TARGET, supply);
    MulLeft(SUPPLY_TARGET, n + 1, (start + 1) * (start + 1));
  }
}
