/** Big-endian positional numerals in any base: values, digits and leading zeros. */
module Positional {
  import Powers

  predicate Numeral(ds: seq<nat>, base: nat) {
    forall i :: 0 <= i < |ds| ==> ds[i] < base
  }

  function Value(ds: seq<nat>, base: nat): nat {
    if ds == [] then 0 else Value(ds[..|ds| - 1], base) * base + ds[|ds| - 1]
  }

  /** The digits of `n` without leading zeros; zero has none. */
  function Digits(n: nat, base: nat): (ds: seq<nat>)
    requires base >= 2
    ensures Numeral(ds, base)
    ensures ds != [] ==> ds[0] != 0
    ensures ds == [] <==> n == 0
  {
    if n == 0 then []
    else
      Shrinks(n, base);
      Digits(n / base, base) + [n % base]
  }

  lemma DivisionLaw(n: nat, base: nat)
    requires base > 0
    ensures n == base * (n / base) + n % base && 0 <= n % base < base && 0 <= n / base
  {
  }

  lemma SplitProduct(b: nat, q: int, p: int)
    ensures b * p == b * q + b * (p - q)
  {
  }

  lemma QuotientBelow(b: nat, q: int, r: nat, p: int, s: nat)
    requires r < b && s < b && b * q + r == b * p + s
    ensures p <= q
  {
    SplitProduct(b, q, p);
    if q < p {
      Powers.MulLeft(b, 1, p - q);
    }
  }

  lemma DivMod(q: nat, base: nat, r: nat)
    requires r < base
    ensures (q * base + r) / base == q && (q * base + r) % base == r
  {
    var n := q * base + r;
    DivisionLaw(n, base);
    QuotientBelow(base, q, r, n / base, n % base);
    QuotientBelow(base, n / base, n % base, q, r);
  }

  lemma Shrinks(n: nat, base: nat)
    requires n > 0 && base >= 2
    ensures 0 <= n / base < n && n == (n / base) * base + n % base && 0 <= n % base < base
    ensures n / base == 0 ==> n % base == n
  {
    DivisionLaw(n, base);
    if n / base >= n {
      Powers.MulLeft(base, 1, n / base);
      Powers.MulLeft(n / base, 2, base);
    }
  }

  function LeadingZeros(ds: seq<nat>): (k: nat)
    ensures k <= |ds| && (forall i :: 0 <= i < k ==> ds[i] == 0) && (k < |ds| ==> ds[k] != 0)
  {
    if ds != [] && ds[0] == 0 then 1 + LeadingZeros(ds[1..]) else 0
  }

  function Zeros(k: nat): (ds: seq<nat>)
    ensures |ds| == k && forall i :: 0 <= i < k ==> ds[i] == 0
  {
    if k == 0 then [] else [0] + Zeros(k - 1)
  }

  lemma {:induction false} ValueOfDigits(n: nat, base: nat)
    requires base >= 2
    ensures Value(Digits(n, base), base) == n
    decreases n
  {
    if n > 0 {
      Shrinks(n, base);
      ValueOfDigits(n / base, base);
      var ds := Digits(n, base);
      assert ds[..|ds| - 1] == Digits(n / base, base);
    }
  }

  /** Digits without a leading zero are the digits of their value. */
  lemma {:induction false} DigitsOfValue(ds: seq<nat>, base: nat)
    requires base >= 2 && Numeral(ds, base) && (ds == [] || ds[0] != 0)
    ensures Digits(Value(ds, base), base) == ds
    decreases |ds|
  {
    if ds != [] {
      var init, last := ds[..|ds| - 1], ds[|ds| - 1];
      DigitsOfValue(init, base);
      DivMod(Value(init, base), base, last);
      if init == [] {
        assert Value(init, base) == 0 && Value(ds, base) == last != 0;
      } else {
        assert Value(init, base) != 0;
      }
      assert Value(ds, base) > 0;
      assert ds == init + [last];
    }
  }

  /** Leading zeros do not count. */
  lemma {:induction false} ValueSkipsZeros(k: nat, ds: seq<nat>, base: nat)
    ensures Value(Zeros(k) + ds, base) == Value(ds, base)
    decreases |ds|, k
  {
    if ds == [] {
      assert Zeros(k) + ds == Zeros(k);
      if k > 0 {
        assert Zeros(k)[..k - 1] == Zeros(k - 1);
        assert Zeros(k - 1) + [] == Zeros(k - 1);
        ValueSkipsZeros(k - 1, [], base);
      }
    } else {
      var all := Zeros(k) + ds;
      assert all[..|all| - 1] == Zeros(k) + ds[..|ds| - 1];
      ValueSkipsZeros(k, ds[..|ds| - 1], base);
    }
  }

  lemma StripZeros(ds: seq<nat>)
    ensures ds == Zeros(LeadingZeros(ds)) + ds[LeadingZeros(ds)..]
  {
  }

  lemma {:induction false} LeadingZerosOf(k: nat, ds: seq<nat>)
    requires ds == [] || ds[0] != 0
    ensures LeadingZeros(Zeros(k) + ds) == k
  {
    if k == 0 {
      assert Zeros(0) + ds == ds;
    } else {
      assert (Zeros(k) + ds)[1..] == Zeros(k - 1) + ds;
      LeadingZerosOf(k - 1, ds);
    }
  }

  /** A numeral is its leading zeros and the digits of its value, in every base. */
  lemma RebuildNumeral(ds: seq<nat>, base: nat)
    requires base >= 2 && Numeral(ds, base)
    ensures ds == Zeros(LeadingZeros(ds)) + Digits(Value(ds, base), base)
  {
    var k := LeadingZeros(ds);
    StripZeros(ds);
    ValueSkipsZeros(k, ds[k..], base);
    DigitsOfValue(ds[k..], base);
  }

  /** The same number with the same leading zeros in another base: undone by converting back. */
  function Rebase(ds: seq<nat>, from: nat, to: nat): (r: seq<nat>)
    requires to >= 2
    ensures Numeral(r, to)
  {
    Zeros(LeadingZeros(ds)) + Digits(Value(ds, from), to)
  }

  lemma RebaseBack(ds: seq<nat>, from: nat, to: nat)
    requires from >= 2 && to >= 2 && Numeral(ds, from)
    ensures Rebase(Rebase(ds, from, to), to, from) == ds
  {
    var k, n := LeadingZeros(ds), Value(ds, from);
    LeadingZerosOf(k, Digits(n, to));
    ValueSkipsZeros(k, Digits(n, to), to);
    ValueOfDigits(n, to);
    RebuildNumeral(ds, from);
  }
}
