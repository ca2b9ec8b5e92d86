/** Exact rationals of decimal text, and raw amounts rounded from them exactly once. */
module Amounts {
  import opened Results
  import opened Powers
  import opened Positional
  import opened Decimals
  import opened Rationals

  const MAX_EXPONENT: int := 400
  const MAX_DECIMALS: int := 30

  datatype Rational = Rational(n: int, d: int)

  datatype AmountError =
    | NotADecimal | ExponentOutOfRange | DecimalsOutOfRange | BadMultiplier | NegativeAmount | PriceNotPositive

  /** The number a digit string stands for, the fraction it stands for after a point, and powers of ten. */
  function NumberOf(ds: seq<nat>): nat { Value(ds, 10) }

  function PowTen(e: nat): (p: nat)
    ensures p > 0
  {
    PowPositive(10, e);
    Pow(10, e)
  }

  function FracDigits(x: Spelling): seq<nat> {
    if x.frac.Some? then x.frac.value else []
  }

  function Negate(condition: bool, n: int): int { if condition then -n else n }

  function ExponentOf(x: Spelling): int {
    match x.exponent
    case None => 0
    case Some(e) => Negate(e.sign == Minus, NumberOf(e.digits))
  }

  /** `n / d` times ten to the exponent. */
  function Scaled(n: int, d: int, exponent: int): (r: Rational)
    requires d > 0
    ensures r.d > 0
  {
    if exponent > 0 then Rational(n * PowTen(exponent), d)
    else if exponent < 0 then MulStrict(0, d, 1, PowTen(-exponent)); Rational(n, d * PowTen(-exponent))
    else Rational(n, d)
  }

  /** The numerator and denominator of an accepted spelling. */
  function Fraction(x: Spelling): (r: Rational)
    ensures r.d > 0
  {
    var frac := FracDigits(x);
    Scaled(Negate(x.sign == Minus, NumberOf(x.whole + frac)), PowTen(|frac|), ExponentOf(x))
  }

  function ToRational(text: string): (r: Result<Rational, AmountError>)
    ensures r.Ok? ==> r.value.d > 0
  {
    match ReadDecimal(TrimEnd(TrimStart(text)))
    case None => Err(NotADecimal)
    case Some(x) =>
      if x.whole == [] && FracDigits(x) == [] then Err(NotADecimal)
      else if ExponentOf(x) > MAX_EXPONENT || ExponentOf(x) < -MAX_EXPONENT then Err(ExponentOutOfRange)
      else Ok(Fraction(x))
  }

  // ------------------------------------------------------------ the number a spelling stands for

  /** `n / d` is exactly `m`. */
  ghost predicate Exactly(n: int, m: real, d: int) { n as real == m * (d as real) }

  /** Each digit after the point counts a tenth of the one before it. */
  ghost function AfterPoint(ds: seq<nat>): real {
    if ds == [] then 0.0 else (ds[0] as real + AfterPoint(ds[1..])) / 10.0
  }

  ghost function Scale(exponent: int): real {
    if exponent >= 0 then PowTen(exponent) as real
    else 1.0 / (PowTen(-exponent) as real)
  }

  /** The fraction a digit string stands for after the point. */
  ghost function TailOf(ds: seq<nat>): real { AfterPoint(ds) }

  ghost function Times(m: real, exponent: int): real { m * Scale(exponent) }

  ghost function Magnitude(whole: seq<nat>, frac: seq<nat>, exponent: int): real {
    Times(NumberOf(whole) as real + TailOf(frac), exponent)
  }

  /** The power of ten that is written: negative behind a minus sign, zero when there is none. */
  ghost function Written(x: Spelling): int {
    match x.exponent
    case None => 0
    case Some(e) =>
      var power: int := NumberOf(e.digits);
      if e.sign == Minus then -power else power
  }

  ghost function Meaning(x: Spelling): real {
    var m := Magnitude(x.whole, FracDigits(x), Written(x));
    if x.sign == Minus then -m else m
  }

  lemma RealProduct(a: nat, b: nat)
    ensures (a * b) as real == (a as real) * (b as real)
  {
  }

  lemma TenthStep(d: nat, f: nat, p: nat, a: real)
    requires Exactly(f, a, p)
    ensures Exactly(d * p + f, (d as real + a) / 10.0, 10 * p)
  {
    RealProduct(d, p);
    var t := (d as real + a) / 10.0;
    assert t * 10.0 == d as real + a;
    assert t * ((10 * p) as real) == (t * 10.0) * (p as real);
  }

  lemma HeadValue(ds: seq<nat>, rest: seq<nat>, p: nat)
    requires ds != [] && rest == ds[1..] && p == Pow(10, |rest|)
    ensures Value(ds, 10) == ds[0] * p + Value(rest, 10)
  {
    assert [ds[0]] + rest == ds;
    assert [ds[0]][..0] == [];
    ValueAppend([ds[0]], rest, 10);
  }

  lemma {:induction false} AfterPointValue(ds: seq<nat>)
    ensures Exactly(Value(ds, 10), AfterPoint(ds), Pow(10, |ds|))
    decreases |ds|
  {
    if ds != [] {
      var rest := ds[1..];
      AfterPointValue(rest);
      HeadValue(ds, rest, Pow(10, |rest|));
      TenthStep(ds[0], Value(rest, 10), Pow(10, |rest|), AfterPoint(rest));
    }
  }

  lemma JoinParts(v: nat, w: nat, f: nat, p: nat, a: real)
    requires v == w * p + f && Exactly(f, a, p)
    ensures Exactly(v, w as real + a, p)
  {
    RealProduct(w, p);
  }

  lemma TailValue(frac: seq<nat>, f: nat, p: nat, a: real)
    requires f == Value(frac, 10) && p == Pow(10, |frac|) && a == AfterPoint(frac)
    ensures Exactly(f, a, p)
  {
    AfterPointValue(frac);
  }

  lemma PartsValue(whole: seq<nat>, frac: seq<nat>, v: nat, w: nat, f: nat, p: nat, a: real)
    requires v == Value(whole + frac, 10) && w == Value(whole, 10) && f == Value(frac, 10) && p == Pow(10, |frac|)
    requires Exactly(f, a, p)
    ensures Exactly(v, w as real + a, p)
  {
    assert v == w * p + f by { ValueAppend(whole, frac, 10); }
    JoinParts(v, w, f, p, a);
  }

  lemma DigitsValue(whole: seq<nat>, frac: seq<nat>)
    ensures Exactly(NumberOf(whole + frac), NumberOf(whole) as real + TailOf(frac), PowTen(|frac|))
  {
    TailValue(frac, NumberOf(frac), PowTen(|frac|), TailOf(frac));
    PartsValue(whole, frac, NumberOf(whole + frac), NumberOf(whole), NumberOf(frac), PowTen(|frac|), TailOf(frac));
  }

  lemma ScaleUp(n: nat, p: nat, t: nat, m: real)
    requires n as real == m * (p as real)
    ensures (n * t) as real == (m * (t as real)) * (p as real)
  {
    RealProduct(n, t);
    Rotate(m, p as real, t as real);
  }

  lemma Rotate(m: real, p: real, t: real)
    ensures (m * p) * t == (m * t) * p
  {
  }

  lemma ScaleDown(n: nat, p: nat, t: nat, m: real)
    requires n as real == m * (p as real) && t > 0
    ensures n as real == (m * (1.0 / (t as real))) * ((p * t) as real)
  {
    RealProduct(p, t);
    CancelFactor(m, p as real, t as real);
  }

  lemma CancelFactor(m: real, p: real, t: real)
    requires t > 0.0
    ensures m * p == (m * (1.0 / t)) * (p * t)
  {
    var u := 1.0 / t;
    assert u * t == 1.0;
    FourFactors(m, u, p, t);
  }

  lemma FourFactors(m: real, u: real, p: real, t: real)
    requires u * t == 1.0
    ensures m * p == (m * u) * (p * t)
  {
    assert (m * u) * (p * t) == (m * p) * (u * t);
  }

  /** Multiplying or dividing by the power of ten that the exponent asks for. */
  lemma ScaledExact(n: nat, p: nat, m: real, exponent: int)
    requires p > 0 && Exactly(n, m, p)
    ensures Exactly(Scaled(n, p, exponent).n, Times(m, exponent), Scaled(n, p, exponent).d)
  {
    if exponent > 0 {
      ScaleUp(n, p, PowTen(exponent), m);
    } else if exponent < 0 {
      ScaleDown(n, p, PowTen(-exponent), m);
    }
  }

  lemma MagnitudeExact(whole: seq<nat>, frac: seq<nat>, exponent: int)
    ensures var r := Scaled(NumberOf(whole + frac), PowTen(|frac|), exponent);
            Exactly(r.n, Magnitude(whole, frac, exponent), r.d)
  {
    DigitsValue(whole, frac);
    ScaledExact(NumberOf(whole + frac), PowTen(|frac|), NumberOf(whole) as real + TailOf(frac), exponent);
  }

  lemma SignMovesOut(negative: bool, n: nat, d: nat, exponent: int)
    requires d > 0
    ensures Scaled(Negate(negative, n), d, exponent).d == Scaled(n, d, exponent).d
    ensures Scaled(Negate(negative, n), d, exponent).n == Negate(negative, Scaled(n, d, exponent).n)
  {
    NegatedInt(n, if exponent > 0 then PowTen(exponent) else 1);
  }

  lemma NegatedInt(a: int, b: int)
    ensures (-a) * b == -(a * b)
  {
  }

  lemma SignedExact(negative: bool, n: int, d: int, m: real)
    requires Exactly(n, m, d)
    ensures Exactly(Negate(negative, n), if negative then -m else m, d)
  {
  }

  /** The fraction is exactly the number the digits, the point and the exponent stand for. */
  lemma FractionExact(x: Spelling)
    ensures Exactly(Fraction(x).n, Meaning(x), Fraction(x).d)
  {
    var frac, exponent := FracDigits(x), ExponentOf(x);
    var s := Scaled(NumberOf(x.whole + frac), PowTen(|frac|), exponent);
    MagnitudeExact(x.whole, frac, exponent);
    SignMovesOut(x.sign == Minus, NumberOf(x.whole + frac), PowTen(|frac|), exponent);
    SignedExact(x.sign == Minus, s.n, s.d, Magnitude(x.whole, frac, exponent));
  }

  // ------------------------------------------------------------ rounding divisions

  /** Division of big integers in the source's language: it truncates toward zero. */
  function TruncDiv(n: int, d: int): int
    requires d > 0
  {
    if n >= 0 then n / d else -((-n) / d)
  }

  function FloorDiv(n: int, d: int): int
    requires d > 0
  {
    var q := TruncDiv(n, d);
    if n < 0 && q * d != n then q - 1 else q
  }

  function RoundUp(n: int, d: int, q: int): int {
    if n > 0 && q * d != n then q + 1 else q
  }

  function CeilDiv(n: int, d: int): int
    requires d > 0
  {
    RoundUp(n, d, TruncDiv(n, d))
  }

  lemma Truncated(n: int, d: int)
    requires d > 0
    ensures n >= 0 ==> TruncDiv(n, d) * d <= n < (TruncDiv(n, d) + 1) * d
    ensures n < 0 ==> (TruncDiv(n, d) - 1) * d < n <= TruncDiv(n, d) * d
  {
    if n >= 0 {
      DivisionLaw(n, d);
      Successor(n / d, d);
    } else {
      DivisionLaw(-n, d);
      NegatedInt((-n) / d, d);
      Successor(TruncDiv(n, d) - 1, d);
    }
  }

  /** The greatest integer at most n / d, for either sign. */
  lemma FloorDivBounds(n: int, d: int)
    requires d > 0
    ensures FloorDiv(n, d) * d <= n < (FloorDiv(n, d) + 1) * d
  {
    var q := TruncDiv(n, d);
    Truncated(n, d);
    if n < 0 {
      Successor(q, d);
      Successor(q - 1, d);
    }
  }

  lemma RoundUpBounds(n: int, d: int, q: int)
    requires d > 0
    requires n >= 0 ==> q * d <= n < (q + 1) * d
    requires n < 0 ==> (q - 1) * d < n <= q * d
    ensures (RoundUp(n, d, q) - 1) * d < n <= RoundUp(n, d, q) * d
  {
    Successor(q - 1, d);
    if n == 0 && q != 0 {
      MulLeft(d, 1, if q > 0 then q else -q);
    }
  }

  /** The least integer at least n / d, for either sign. */
  lemma CeilDivBounds(n: int, d: int)
    requires d > 0
    ensures (CeilDiv(n, d) - 1) * d < n <= CeilDiv(n, d) * d
  {
    Truncated(n, d);
    RoundUpBounds(n, d, TruncDiv(n, d));
  }

  // ------------------------------------------------------------ raw amounts

  function Raised(u: Rational, decimals: nat, m: Rational): int { u.n * PowTen(decimals) * m.d }

  /** raw = floor(u * 10^decimals / m). */
  function RawOf(u: Rational, decimals: nat, m: Rational): int
    requires u.d > 0 && m.d > 0 && m.n > 0
  {
    MulStrict(0, u.d, 1, m.n);
    FloorDiv(Raised(u, decimals, m), u.d * m.n)
  }

  function CheckedMultiplier(multiplier: string): (r: Result<Rational, AmountError>)
    ensures r.Ok? ==> r.value.d > 0 && r.value.n > 0
  {
    match ToRational(multiplier)
    case Err(_) => Err(BadMultiplier)
    case Ok(m) => if m.n <= 0 then Err(BadMultiplier) else Ok(m)
  }

  function Converted(u: Rational, decimals: nat, m: Rational): Result<int, AmountError>
    requires u.d > 0 && m.d > 0 && m.n > 0
  {
    if u.n < 0 then Err(NegativeAmount) else Ok(RawOf(u, decimals, m))
  }

  function UiToRaw(ui: string, decimals: int, multiplier: string): Result<int, AmountError> {
    if decimals < 0 || decimals > MAX_DECIMALS then Err(DecimalsOutOfRange)
    else match CheckedMultiplier(multiplier)
      case Err(e) => Err(e)
      case Ok(m) =>
        match ToRational(ui)
        case Err(e) => Err(e)
        case Ok(u) => Converted(u, decimals, m)
  }

  datatype Rounding = Up | Down

  function Numerator(v: Rational, p: Rational, decimals: nat, m: Rational): int { v.n * p.d * m.d * PowTen(decimals) }

  function Denominator(v: Rational, p: Rational, m: Rational): (d: int)
    requires v.d > 0 && p.n > 0 && m.n > 0
    ensures d > 0
  {
    MulStrict(0, v.d, 1, p.n);
    MulStrict(0, v.d * p.n, 1, m.n);
    v.d * p.n * m.n
  }

  function UsdToQuoteRaw(usd: string, price: string, decimals: int, multiplier: string, rounding: Rounding)
    : Result<int, AmountError>
  {
    if decimals < 0 || decimals > MAX_DECIMALS then Err(DecimalsOutOfRange)
    else match CheckedMultiplier(multiplier)
      case Err(e) => Err(e)
      case Ok(m) =>
        match ToRational(usd)
        case Err(e) => Err(e)
        case Ok(v) =>
          match ToRational(price)
          case Err(e) => Err(e)
          case Ok(p) =>
            if v.n < 0 then Err(NegativeAmount)
            else if p.n <= 0 then Err(PriceNotPositive)
            else
              var num, den := Numerator(v, p, decimals, m), Denominator(v, p, m);
              Ok(if rounding == Up then CeilDiv(num, den) else FloorDiv(num, den))
  }

  /**
   * A text is accepted exactly when, without the space around it, it spells a number with at least one
   * digit before or after the point and a power of ten between -400 and 400; it is then that number.
   */
  lemma AcceptedIff(text: string)
    ensures ToRational(text).Ok? <==>
              match ReadDecimal(TrimEnd(TrimStart(text)))
              case None => false
              case Some(x) => (x.whole != [] || (x.frac.Some? && x.frac.value != [])) && -400 <= Written(x) <= 400
    ensures ToRational(text).Ok? ==> ToRational(text).value == Fraction(ReadDecimal(TrimEnd(TrimStart(text))).value)
  {
  }

  predicate Positive(text: string) { ToRational(text).Ok? && ToRational(text).value.n > 0 }

  predicate NotNegative(text: string) { ToRational(text).Ok? && ToRational(text).value.n >= 0 }

  /** Conversions are refused exactly for more than 30 decimals, a value below zero, or a price or multiplier not above it. */
  lemma ConvertedIff(value: string, price: string, decimals: int, multiplier: string, rounding: Rounding)
    ensures UiToRaw(value, decimals, multiplier).Ok? <==> 0 <= decimals <= 30 && Positive(multiplier) && NotNegative(value)
    ensures UsdToQuoteRaw(value, price, decimals, multiplier, rounding).Ok? <==>
              0 <= decimals <= 30 && Positive(multiplier) && NotNegative(value) && Positive(price)
  {
  }

  // ------------------------------------------------------------ what the rounding means

  /** `q` is the floor as soon as it brackets the quotient. */
  lemma FloorIsUnique(n: int, d: int, q: int)
    requires d > 0 && q * d <= n < (q + 1) * d
    ensures FloorDiv(n, d) == q
  {
    FloorDivBounds(n, d);
    BelowNext(q, FloorDiv(n, d), d);
    BelowNext(FloorDiv(n, d), q, d);
  }

  lemma Swap3(a: int, b: int, c: int)
    ensures (a * b) * c == (a * c) * b
  {
  }

  lemma MulPositive(a: int, b: int, k: int)
    requires k > 0 && a < b
    ensures a * k < b * k
  {
    MulLeft(k, 1, b - a);
    assert k * (b - a) == b * k - a * k;
  }

  /** Equal ratios have equal floors. */
  lemma FloorOfEqualRatios(n: int, d: int, n2: int, d2: int)
    requires d > 0 && d2 > 0 && n * d2 == n2 * d
    ensures FloorDiv(n, d) == FloorDiv(n2, d2)
  {
    var q := FloorDiv(n, d);
    FloorDivBounds(n, d);
    MulLeft(d2, q * d, n);
    MulPositive(n, (q + 1) * d, d2);
    Swap3(q, d, d2);
    Swap3(q + 1, d, d2);
    ScaledBracket(q, d, n2, d2);
    FloorIsUnique(n2, d2, q);
  }

  lemma ScaledBracket(q: int, d: int, n2: int, d2: int)
    requires d > 0 && (q * d2) * d <= n2 * d < ((q + 1) * d2) * d
    ensures q * d2 <= n2 < (q + 1) * d2
  {
    CancelRight(q * d2, n2, d);
    LessRight(n2, (q + 1) * d2, d);
  }

  lemma CancelRight(a: int, b: int, d: int)
    requires d > 0 && a * d <= b * d
    ensures a <= b
  {
    if a > b {
      MulPositive(b, a, d);
    }
  }

  lemma LessRight(a: int, b: int, d: int)
    requires d > 0 && a * d < b * d
    ensures a < b
  {
    if a >= b {
      MulLeft(d, b, a);
    }
  }

  /** The same number in two spellings, or in lowest terms or not. */
  predicate SameValue(a: Rational, b: Rational) { a.n * b.d == b.n * a.d }

  lemma CrossProducts(un: int, ud: int, mn: int, md: int, vn: int, vd: int, kn: int, kd: int, t: int)
    requires un * vd == vn * ud && mn * kd == kn * md
    ensures (un * t * md) * (vd * kn) == (vn * t * kd) * (ud * mn)
  {
    assert (un * t * md) * (vd * kn) == t * ((un * vd) * (kn * md));
    assert (vn * t * kd) * (ud * mn) == t * ((vn * ud) * (mn * kd));
  }

  /** A raw amount depends on the numbers, not on how they are spelled. */
  lemma SameValueSameRaw(u: Rational, v: Rational, decimals: nat, m: Rational, k: Rational)
    requires u.d > 0 && v.d > 0 && m.d > 0 && m.n > 0 && k.d > 0 && k.n > 0
    requires SameValue(u, v) && SameValue(m, k)
    ensures RawOf(u, decimals, m) == RawOf(v, decimals, k)
  {
    CrossProducts(u.n, u.d, m.n, m.d, v.n, v.d, k.n, k.d, PowTen(decimals));
    MulStrict(0, u.d, 1, m.n);
    MulStrict(0, v.d, 1, k.n);
    FloorOfEqualRatios(Raised(u, decimals, m), u.d * m.n, Raised(v, decimals, k), v.d * k.n);
  }

  /** The UI value of a raw amount, exactly: u = raw / 10^decimals * m. */
  predicate IsUiValue(u: Rational, raw: int, decimals: nat, m: Rational) {
    u.n * Pow(10, decimals) * m.d == raw * (u.d * m.n)
  }

  lemma ExactRaw(u: Rational, raw: int, decimals: nat, m: Rational)
    requires u.d > 0 && m.d > 0 && m.n > 0 && IsUiValue(u, raw, decimals, m)
    ensures RawOf(u, decimals, m) == raw
  {
    MulStrict(0, u.d, 1, m.n);
    Successor(raw, u.d * m.n);
    FloorIsUnique(Raised(u, decimals, m), u.d * m.n, raw);
  }

  /** `raw` quote units are worth at least `num / den` in the terms of the conversion. */
  predicate WorthAtLeast(raw: int, num: int, den: int) { raw * den >= num }

  predicate WorthAtMost(raw: int, num: int, den: int) { raw * den <= num }

  /**
   * Rounding up gives the least raw amount worth at least the USD value, rounding down the greatest
   * worth at most it; they differ by one, or by nothing when some amount is worth it exactly.
   */
  lemma RoundingIsTight(num: int, den: int, raw: int)
    requires den > 0
    ensures WorthAtLeast(raw, num, den) <==> raw >= CeilDiv(num, den)
    ensures WorthAtMost(raw, num, den) <==> raw <= FloorDiv(num, den)
    ensures FloorDiv(num, den) <= CeilDiv(num, den) <= FloorDiv(num, den) + 1
    ensures raw * den == num ==> CeilDiv(num, den) == FloorDiv(num, den) == raw
  {
    LeastAbove(num, den, raw);
    GreatestBelow(num, den, raw);
    UpAndDown(num, den);
  }

  /** `raw` quote units against the USD value: raw / 10^decimals * m * p compared with v, cross-multiplied. */
  predicate Buys(raw: int, v: Rational, p: Rational, decimals: nat, m: Rational)
    requires v.d > 0 && p.n > 0 && m.n > 0
  {
    WorthAtLeast(raw, v.n * p.d * m.d * Pow(10, decimals), v.d * p.n * m.n)
  }

  predicate IsBoughtBy(raw: int, v: Rational, p: Rational, decimals: nat, m: Rational)
    requires v.d > 0 && p.n > 0 && m.n > 0
  {
    WorthAtMost(raw, v.n * p.d * m.d * Pow(10, decimals), v.d * p.n * m.n)
  }

  /** Of the two roundings, up is the least amount worth the USD value, down the greatest the value still pays for. */
  lemma UsdRoundings(usd: string, price: string, decimals: int, multiplier: string, raw: int)
    requires UsdToQuoteRaw(usd, price, decimals, multiplier, Up).Ok?
    ensures UsdToQuoteRaw(usd, price, decimals, multiplier, Down).Ok?
    ensures ToRational(usd).Ok? && ToRational(price).Ok? && CheckedMultiplier(multiplier).Ok? && decimals >= 0
    ensures var up := UsdToQuoteRaw(usd, price, decimals, multiplier, Up).value;
            var down := UsdToQuoteRaw(usd, price, decimals, multiplier, Down).value;
            var v, p, m := ToRational(usd).value, ToRational(price).value, CheckedMultiplier(multiplier).value;
            && p.n > 0
            && (Buys(raw, v, p, decimals, m) <==> raw >= up)
            && (IsBoughtBy(raw, v, p, decimals, m) <==> raw <= down)
            && down <= up <= down + 1
  {
    var v, p, m := ToRational(usd).value, ToRational(price).value, CheckedMultiplier(multiplier).value;
    RoundingIsTight(Numerator(v, p, decimals, m), Denominator(v, p, m), raw);
  }

  lemma RaisedSign(u: Rational, raw: nat, decimals: nat, m: Rational)
    requires u.d > 0 && m.d > 0 && m.n > 0 && IsUiValue(u, raw, decimals, m)
    ensures u.n >= 0
  {
    var k := m.d * PowTen(decimals);
    assert k > 0 && Raised(u, decimals, m) == u.n * k by {
      MulStrict(0, m.d, 1, PowTen(decimals));
      assert u.n * m.d * PowTen(decimals) == u.n * k;
    }
    MulStrict(0, u.d, 1, m.n);
    MulLeft(u.d * m.n, 0, raw);
    if u.n < 0 { MulPositive(u.n, 0, k); }
  }

  /** A text of the exact UI value of a raw amount converts back to that amount. */
  lemma ExactUiValue(ui: string, decimals: int, multiplier: string, raw: nat)
    requires 0 <= decimals <= MAX_DECIMALS && ToRational(ui).Ok? && CheckedMultiplier(multiplier).Ok?
    requires IsUiValue(ToRational(ui).value, raw, decimals, CheckedMultiplier(multiplier).value)
    ensures UiToRaw(ui, decimals, multiplier) == Ok(raw)
  {
    var u, m := ToRational(ui).value, CheckedMultiplier(multiplier).value;
    RaisedSign(u, raw, decimals, m);
    ExactRaw(u, raw, decimals, m);
  }

  /** Any accepted text converts to the greatest raw amount that is worth no more than it says. */
  lemma UiToRawIsGreatest(ui: string, decimals: int, multiplier: string, raw: int)
    requires UiToRaw(ui, decimals, multiplier).Ok?
    ensures ToRational(ui).Ok? && CheckedMultiplier(multiplier).Ok? && 0 <= decimals <= MAX_DECIMALS
    ensures var u, m := ToRational(ui).value, CheckedMultiplier(multiplier).value;
            raw <= UiToRaw(ui, decimals, multiplier).value <==> WorthAtMost(raw, u.n * Pow(10, decimals) * m.d, u.d * m.n)
    ensures UiToRaw(ui, decimals, multiplier).value >= 0
  {
    var u, m := ToRational(ui).value, CheckedMultiplier(multiplier).value;
    MulStrict(0, u.d, 1, m.n);
    GreatestBelow(Raised(u, decimals, m), u.d * m.n, raw);
    GreatestBelow(Raised(u, decimals, m), u.d * m.n, 0);
    RaisedIsNatural(u, decimals, m);
  }

  lemma RaisedIsNatural(u: Rational, decimals: nat, m: Rational)
    requires u.n >= 0 && m.d > 0
    ensures Raised(u, decimals, m) >= 0
  {
  }

  lemma LeastAbove(num: int, den: int, raw: int)
    requires den > 0
    ensures raw * den >= num <==> raw >= CeilDiv(num, den)
  {
    var c := CeilDiv(num, den);
    CeilDivBounds(num, den);
    if raw >= c {
      MulLeft(den, c, raw);
    } else {
      MulLeft(den, raw, c - 1);
    }
  }

  lemma GreatestBelow(num: int, den: int, raw: int)
    requires den > 0
    ensures raw * den <= num <==> raw <= FloorDiv(num, den)
  {
    var f := FloorDiv(num, den);
    FloorDivBounds(num, den);
    if raw <= f {
      MulLeft(den, raw, f);
    } else {
      MulLeft(den, f + 1, raw);
    }
  }

  lemma UpAndDown(num: int, den: int)
    requires den > 0
    ensures FloorDiv(num, den) <= CeilDiv(num, den) <= FloorDiv(num, den) + 1
  {
    var f, c := FloorDiv(num, den), CeilDiv(num, den);
    FloorDivBounds(num, den);
    CeilDivBounds(num, den);
    LeastAbove(num, den, f + 1);
    GreatestBelow(num, den, c - 1);
  }

  lemma SameSign(a: Rational, b: Rational)
    requires a.d > 0 && b.d > 0 && SameValue(a, b)
    ensures a.n < 0 <==> b.n < 0
  {
    if a.n < 0 {
      MulPositive(a.n, 0, b.d);
      if b.n >= 0 { MulLeft(a.d, 0, b.n); }
    } else {
      MulLeft(b.d, 0, a.n);
      if b.n < 0 { MulPositive(b.n, 0, a.d); }
    }
  }

  lemma SameValueConvertsAlike(u: Rational, v: Rational, decimals: nat, m: Rational)
    requires u.d > 0 && v.d > 0 && m.d > 0 && m.n > 0 && SameValue(u, v)
    ensures Converted(u, decimals, m) == Converted(v, decimals, m)
  {
    SameSign(u, v);
    SameValueSameRaw(u, v, decimals, m, m);
  }

  /** Two accepted texts of the same number convert alike: to the same raw amount or the same error. */
  lemma EqualTextsConvertAlike(ui: string, ui2: string, decimals: int, multiplier: string)
    requires ToRational(ui).Ok? && ToRational(ui2).Ok? && SameValue(ToRational(ui).value, ToRational(ui2).value)
    ensures UiToRaw(ui, decimals, multiplier) == UiToRaw(ui2, decimals, multiplier)
  {
    if 0 <= decimals && CheckedMultiplier(multiplier).Ok? {
      SameValueConvertsAlike(ToRational(ui).value, ToRational(ui2).value, decimals, CheckedMultiplier(multiplier).value);
    }
  }

  /** Spellings that mean the same number give the same value. */
  lemma EqualMeaningsSameValue(x: Spelling, y: Spelling)
    requires Meaning(x) == Meaning(y)
    ensures SameValue(Fraction(x), Fraction(y))
  {
    FractionExact(x);
    FractionExact(y);
    CrossMultiply(Fraction(x).n, Fraction(x).d, Fraction(y).n, Fraction(y).d, Meaning(x));
  }

  lemma CrossMultiply(a: int, b: int, c: int, d: int, m: real)
    requires Exactly(a, m, b) && Exactly(c, m, d)
    ensures a * d == c * b
  {
    RealProductInt(a, d);
    RealProductInt(c, b);
    Rotate(m, b as real, d as real);
  }

  lemma RealProductInt(a: int, b: int)
    ensures (a * b) as real == (a as real) * (b as real)
  {
  }

  // ------------------------------------------------------------ typed amounts

  lemma PaddedFraction(frac: seq<nat>, decimals: nat, f: nat, pad: nat, p: nat)
    requires |frac| <= decimals && f == Value(frac, 10) && p == Pow(10, decimals - |frac|)
    requires pad == Value((frac + Zeros(decimals))[..decimals], 10)
    ensures pad == f * p
  {
    var zeros := Zeros(decimals - |frac|);
    assert (frac + Zeros(decimals))[..decimals] == frac + zeros;
    ValueAppend(frac, zeros, 10);
    assert zeros + [] == zeros;
    ValueSkipsZeros(decimals - |frac|, [], 10);
  }

  lemma CommonScale(w: nat, f: nat, a: nat, b: nat, p: nat)
    requires a == b * p
    ensures (w * a + f * p) * b == (w * b + f) * a
  {
    assert (f * p) * b == f * (b * p);
    assert (w * a) * b == (w * b) * a;
  }

  lemma TypedParts(whole: seq<nat>, frac: seq<nat>, decimals: nat, n: nat, b: nat, a: nat)
    requires |frac| <= decimals && n == Value(whole + frac, 10) && b == Pow(10, |frac|) && a == Pow(10, decimals)
    ensures Worth(whole, (frac + Zeros(decimals))[..decimals], decimals) * b == n * a
  {
    var w, f, p := Value(whole, 10), Value(frac, 10), Pow(10, decimals - |frac|);
    var pad := Value((frac + Zeros(decimals))[..decimals], 10);
    PaddedFraction(frac, decimals, f, pad, p);
    assert a == b * p by { PowSum(10, |frac|, decimals - |frac|); }
    assert n == w * b + f by { ValueAppend(whole, frac, 10); }
    CommonScale(w, f, a, b, p);
  }

  /** The spelling of a cleaned, well-formed input. */
  function SpellingOf(s: string): (x: Spelling)
    requires WellFormed(s)
    ensures WellSpelled(x)
  {
    Spelling(NoSign, Read(IntPart(s)), if PointIn(s).Some? then Some(Read(FracPart(s))) else None, None)
  }

  lemma TextOfRead(s: string)
    requires AllDigits(s)
    ensures Text(Read(s)) == s
  {
  }

  lemma WellFormedIsSpelled(s: string)
    requires WellFormed(s)
    ensures SpelledOut(SpellingOf(s)) == s
  {
    TextOfRead(IntPart(s));
    TextOfRead(FracPart(s));
    match PointIn(s)
    case None => assert "" + (s + ("" + "")) == s;
    case Some(i) => assert "" + (s[..i] + (("." + s[i + 1..]) + "")) == s;
  }

  lemma WellFormedIsTrimmed(s: string)
    requires WellFormed(s)
    ensures TrimEnd(TrimStart(s)) == s
  {
    forall i | 0 <= i < |s| ensures IsDigit(s[i]) || s[i] == '.' {
      assert PointIn(s).Some? && i > PointIn(s).value ==> s[i] == FracPart(s)[i - PointIn(s).value - 1];
      assert i < |IntPart(s)| ==> s[i] == IntPart(s)[i];
    }
  }

  lemma TypedIsRead(s: string)
    requires WellFormed(s)
    ensures ToRational(s) == Ok(Fraction(SpellingOf(s)))
    ensures FracDigits(SpellingOf(s)) == Read(FracPart(s))
  {
    WellFormedIsSpelled(s);
    WellFormedIsTrimmed(s);
    ReadSpelledOut(SpellingOf(s));
  }

  /** A spelling without sign and exponent is its digits over a power of ten. */
  lemma PlainFraction(x: Spelling)
    requires x.sign == NoSign && x.exponent == None
    ensures Fraction(x) == Rational(NumberOf(x.whole + FracDigits(x)), PowTen(|FracDigits(x)|))
  {
  }

  /** A typed amount is read as exactly the number it spells, in raw units of the token. */
  lemma TypedAmountIsExact(input: string, decimals: nat)
    requires ParseTokenInput(input, decimals).Some?
    ensures ToRational(Cleaned(input)).Ok?
    ensures var q := ToRational(Cleaned(input)).value;
            ParseTokenInput(input, decimals).value * q.d == q.n * PowTen(decimals)
  {
    var s := Cleaned(input);
    var x := SpellingOf(s);
    TypedIsRead(s);
    PlainFraction(x);
    TypedParts(x.whole, FracDigits(x), decimals, NumberOf(x.whole + FracDigits(x)), PowTen(|FracDigits(x)|), PowTen(decimals));
  }
}
