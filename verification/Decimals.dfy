/** Raw amounts as decimal text: how they are printed and how typed input is read back. */
module Decimals {
  import opened Results
  import opened Powers
  import opened Positional

  // ------------------------------------------------------------ digit text

  predicate IsDigit(c: char) { '0' <= c <= '9' }

  predicate AllDigits(s: string) { forall i :: 0 <= i < |s| ==> IsDigit(s[i]) }

  function Text(ds: seq<nat>): (s: string)
    requires Numeral(ds, 10)
    ensures |s| == |ds| && AllDigits(s)
  {
    seq(|ds|, i requires 0 <= i < |ds| => (0x30 + ds[i]) as char)
  }

  function Read(s: string): (ds: seq<nat>)
    requires AllDigits(s)
    ensures |ds| == |s| && Numeral(ds, 10)
  {
    seq(|s|, i requires 0 <= i < |s| => s[i] as int - 0x30)
  }

  lemma ReadText(ds: seq<nat>)
    requires Numeral(ds, 10)
    ensures Read(Text(ds)) == ds
  {
  }

  lemma {:induction false} ValueAppend(a: seq<nat>, b: seq<nat>, base: nat)
    ensures Value(a + b, base) == Value(a, base) * Pow(base, |b|) + Value(b, base)
    decreases |b|
  {
    if b == [] {
      assert a + b == a;
    } else {
      var n := |b| - 1;
      ValueAppend(a, b[..n], base);
      assert (a + b)[..|a| + n] == a + b[..n];
      ShiftDigit(Value(a, base), Pow(base, n), Value(b[..n], base), base, b[n]);
    }
  }

  lemma ShiftDigit(x: nat, p: nat, y: nat, base: nat, d: nat)
    ensures (x * p + y) * base + d == x * (base * p) + (y * base + d)
  {
    Regroup(x, p, base);
    assert p * base == base * p;
    assert (x * p + y) * base == (x * p) * base + y * base;
  }

  // ------------------------------------------------------------ printing

  function StripTrailing(ds: seq<nat>): (r: seq<nat>)
    ensures |r| <= |ds| && r == ds[..|r|]
    ensures forall i :: |r| <= i < |ds| ==> ds[i] == 0
    ensures r != [] ==> r[|r| - 1] != 0
  {
    if ds != [] && ds[|ds| - 1] == 0 then StripTrailing(ds[..|ds| - 1]) else ds
  }

  function PadStart(ds: seq<nat>, n: nat): seq<nat> {
    if |ds| >= n then ds else Zeros(n - |ds|) + ds
  }

  function DecimalDigits(raw: nat): (ds: seq<nat>)
    ensures ds != [] && Numeral(ds, 10)
  {
    if raw == 0 then [0] else Digits(raw, 10)
  }

  /** The digits of `raw` with at least one before the decimal point. */
  function Padded(raw: nat, decimals: nat): (ds: seq<nat>)
    ensures |ds| > decimals && Numeral(ds, 10)
  {
    PadStart(DecimalDigits(raw), decimals + 1)
  }

  /** A whole part and, when it is not empty, a point and a fraction. */
  function Joined(whole: seq<nat>, frac: seq<nat>): string
    requires Numeral(whole, 10) && Numeral(frac, 10)
  {
    Text(whole) + (if frac == [] then "" else "." + Text(frac))
  }

  /** The digits with a point before the last `decimals` of them, without trailing zeros behind it. */
  function Printed(ds: seq<nat>, decimals: nat): string
    requires Numeral(ds, 10) && |ds| > decimals
  {
    var whole, frac := ds[..|ds| - decimals], StripTrailing(ds[|ds| - decimals..]);
    Joined(whole, frac)
  }

  function RawToUnits(raw: nat, decimals: nat): string {
    Printed(Padded(raw, decimals), decimals)
  }

  // ------------------------------------------------------------ parsing

  predicate IsSpace(c: char) {
    var n := c as int;
    || 0x09 <= n <= 0x0D || n == 0x20 || n == 0xA0 || n == 0x1680 || 0x2000 <= n <= 0x200A
    || n == 0x2028 || n == 0x2029 || n == 0x202F || n == 0x205F || n == 0x3000 || n == 0xFEFF
  }

  function TrimStart(s: string): string {
    if s != "" && IsSpace(s[0]) then TrimStart(s[1..]) else s
  }

  function TrimEnd(s: string): string {
    if s != "" && IsSpace(s[|s| - 1]) then TrimEnd(s[..|s| - 1]) else s
  }

  function WithoutCommas(s: string): string {
    if s == "" then ""
    else if s[0] == ',' then WithoutCommas(s[1..])
    else [s[0]] + WithoutCommas(s[1..])
  }

  function Cleaned(input: string): string {
    WithoutCommas(TrimEnd(TrimStart(input)))
  }

  /** The index of the first decimal point. */
  function PointIn(s: string): (r: Option<nat>)
    ensures r.Some? ==> r.value < |s| && s[r.value] == '.' && forall i :: 0 <= i < r.value ==> s[i] != '.'
    ensures r.None? ==> forall i :: 0 <= i < |s| ==> s[i] != '.'
  {
    if s == "" then None
    else if s[0] == '.' then Some(0)
    else match PointIn(s[1..])
      case None => None
      case Some(i) => Some(i + 1)
  }

  function IntPart(s: string): string {
    match PointIn(s) case None => s case Some(i) => s[..i]
  }

  function FracPart(s: string): string {
    match PointIn(s) case None => "" case Some(i) => s[i + 1..]
  }

  /** Digits with at most one point, and at least one digit. */
  predicate WellFormed(s: string) {
    AllDigits(IntPart(s)) && AllDigits(FracPart(s)) && (IntPart(s) != "" || FracPart(s) != "")
  }

  /** What the two parts of an amount are worth. */
  function Worth(whole: seq<nat>, rest: seq<nat>, decimals: nat): nat {
    Value(whole, 10) * Pow(10, decimals) + Value(rest, 10)
  }

  function ParseTokenInput(input: string, decimals: nat): Option<nat> {
    var s := Cleaned(input);
    if !WellFormed(s) then None
    else
      var whole, frac := Read(IntPart(s)), Read(FracPart(s));
      if |frac| > decimals then None
      else Some(Worth(whole, (frac + Zeros(decimals))[..decimals], decimals))
  }

  // ------------------------------------------------------------ what typed input may hold besides

  /** White space and line terminators of ECMAScript, sections 12.2 and 12.3 of ECMA-262. */
  const ECMA_SPACES: set<int> := {
    0x09, 0x0A, 0x0B, 0x0C, 0x0D, 0x20, 0xA0, 0x1680, 0x2000, 0x2001, 0x2002, 0x2003, 0x2004, 0x2005, 0x2006, 0x2007,
    0x2008, 0x2009, 0x200A, 0x2028, 0x2029, 0x202F, 0x205F, 0x3000, 0xFEFF
  }

  /** Exactly such characters go at either end of a text. */
  lemma TrimmedIff(c: char, s: string)
    ensures TrimStart([c] + s) == if c as int in ECMA_SPACES then TrimStart(s) else [c] + s
    ensures TrimEnd(s + [c]) == if c as int in ECMA_SPACES then TrimEnd(s) else s + [c]
  {
    assert ([c] + s)[1..] == s && (s + [c])[..|s|] == s;
    assert IsSpace(c) <==> c as int in ECMA_SPACES;
  }

  lemma {:induction false} WithoutCommasJoin(a: string, b: string)
    ensures WithoutCommas(a + b) == WithoutCommas(a) + WithoutCommas(b)
  {
    if a == "" {
      assert a + b == b;
    } else {
      assert (a + b)[0] == a[0] && (a + b)[1..] == a[1..] + b;
      WithoutCommasJoin(a[1..], b);
    }
  }

  lemma {:induction false} TrimStartJoin(s: string, t: string)
    ensures TrimStart(s) != "" ==> TrimStart(s + t) == TrimStart(s) + t
    ensures TrimStart(s) == "" ==> TrimStart(s + t) == TrimStart(t)
  {
    if s == "" {
      assert s + t == t;
    } else {
      assert (s + t)[0] == s[0] && (s + t)[1..] == s[1..] + t;
      if IsSpace(s[0]) {
        TrimStartJoin(s[1..], t);
      }
    }
  }

  predicate Blank(s: string) { forall i :: 0 <= i < |s| ==> s[i] as int in ECMA_SPACES }

  /** Trimming takes the space at both ends and nothing else. */
  lemma Trimmed(before: string, s: string, after: string)
    requires Blank(before) && Blank(after)
    requires s != "" ==> s[0] as int !in ECMA_SPACES && s[|s| - 1] as int !in ECMA_SPACES
    ensures TrimEnd(TrimStart(before + s + after)) == s
  {
    assert before + s + after == before + (s + after);
    SpaceBefore(before, s + after);
    if s == "" {
      assert s + after == after + "" && TrimStart("") == "";
      SpaceBefore(after, "");
    } else {
      assert s + after == [s[0]] + (s + after)[1..] && s == s[..|s| - 1] + [s[|s| - 1]];
      TrimmedIff(s[0], (s + after)[1..]);
      SpaceAfter(s, after);
      TrimmedIff(s[|s| - 1], s[..|s| - 1]);
    }
  }

  lemma {:induction false} SpaceBefore(before: string, s: string)
    requires Blank(before)
    ensures TrimStart(before + s) == TrimStart(s)
  {
    if before == "" {
      assert before + s == s;
    } else {
      assert before + s == [before[0]] + (before[1..] + s);
      TrimmedIff(before[0], before[1..] + s);
      SpaceBefore(before[1..], s);
    }
  }

  lemma {:induction false} SpaceAfter(s: string, after: string)
    requires Blank(after)
    ensures TrimEnd(s + after) == TrimEnd(s)
    decreases |after|
  {
    if after == "" {
      assert s + after == s;
    } else {
      var n := |after| - 1;
      assert s + after == (s + after[..n]) + [after[n]];
      TrimmedIff(after[n], s + after[..n]);
      SpaceAfter(s, after[..n]);
    }
  }

  /** Typed input reads the same with any space around it. */
  lemma SpaceAroundIsIgnored(c: char, s: string, decimals: nat)
    requires c as int in ECMA_SPACES
    ensures ParseTokenInput([c] + s, decimals) == ParseTokenInput(s, decimals)
    ensures ParseTokenInput(s + [c], decimals) == ParseTokenInput(s, decimals)
  {
    TrimmedIff(c, s);
    TrimStartJoin(s, [c]);
    if TrimStart(s) == "" {
      TrimmedIff(c, "");
      assert [c] + "" == [c];
    } else {
      TrimmedIff(c, TrimStart(s));
    }
  }

  /** A thousands separator between two other characters is ignored. */
  lemma CommaIsIgnored(a: string, b: string)
    ensures WithoutCommas(a + "," + b) == WithoutCommas(a + b)
  {
    WithoutCommasJoin(a + ",", b);
    WithoutCommasJoin(a, ",");
    WithoutCommasJoin(a, b);
    assert WithoutCommas(",") == "" by { assert ","[1..] == ""; }
    assert WithoutCommas(a) + "" == WithoutCommas(a);
  }

  // ------------------------------------------------------------ print and parse

  predicate Plain(s: string) {
    forall i :: 0 <= i < |s| ==> IsDigit(s[i]) || s[i] == '.'
  }

  lemma {:induction false} PlainIsClean(s: string)
    requires Plain(s)
    ensures Cleaned(s) == s
  {
    PlainHasNoCommas(s);
  }

  lemma {:induction false} PlainHasNoCommas(s: string)
    requires Plain(s)
    ensures WithoutCommas(s) == s
  {
    if s != "" {
      PlainHasNoCommas(s[1..]);
    }
  }

  lemma {:induction false} PointAfter(whole: string, rest: string)
    requires AllDigits(whole)
    ensures PointIn(whole + "." + rest) == Some(|whole|)
  {
    var s := whole + "." + rest;
    assert s[|whole|] == '.';
    assert forall i :: 0 <= i < |whole| ==> s[i] == whole[i];
  }

  lemma NoPoint(whole: string)
    requires AllDigits(whole)
    ensures PointIn(whole).None?
  {
  }

  /** The printed parts are the parts that are read. */
  lemma PrintedParts(whole: seq<nat>, frac: seq<nat>)
    requires Numeral(whole, 10) && Numeral(frac, 10) && whole != []
    ensures var s := Joined(whole, frac);
            Plain(s) && IntPart(s) == Text(whole) && FracPart(s) == Text(frac)
  {
    var s := Joined(whole, frac);
    if frac == [] {
      assert s == Text(whole);
      NoPoint(Text(whole));
    } else {
      assert s == Text(whole) + "." + Text(frac);
      PointAfter(Text(whole), Text(frac));
    }
  }

  lemma PaddedValue(raw: nat, decimals: nat)
    ensures Value(Padded(raw, decimals), 10) == raw
  {
    var ds := DecimalDigits(raw);
    if raw == 0 {
      assert [0][..0] == [] && Value([], 10) == 0;
    } else {
      ValueOfDigits(raw, 10);
    }
    if |ds| < decimals + 1 {
      ValueSkipsZeros(decimals + 1 - |ds|, ds, 10);
    }
  }

  lemma StrippedRefills(ds: seq<nat>)
    ensures (StripTrailing(ds) + Zeros(|ds|))[..|ds|] == ds
  {
  }

  lemma ParseParts(s: string, whole: seq<nat>, frac: seq<nat>, decimals: nat)
    requires Numeral(whole, 10) && Numeral(frac, 10) && whole != [] && |frac| <= decimals
    requires Plain(s) && IntPart(s) == Text(whole) && FracPart(s) == Text(frac)
    ensures ParseTokenInput(s, decimals)
         == Some(Worth(whole, (frac + Zeros(decimals))[..decimals], decimals))
  {
    PlainIsClean(s);
    ReadText(whole);
    ReadText(frac);
  }

  lemma ParseJoined(text: string, whole: seq<nat>, rest: seq<nat>, frac: seq<nat>, decimals: nat)
    requires Numeral(whole, 10) && Numeral(rest, 10) && whole != [] && |rest| == decimals && frac == StripTrailing(rest)
    requires text == Joined(whole, frac)
    ensures ParseTokenInput(text, decimals) == Some(Worth(whole, rest, decimals))
  {
    PrintedParts(whole, frac);
    StrippedRefills(rest);
    assert (frac + Zeros(decimals))[..decimals] == rest;
    ParseParts(text, whole, frac, decimals);
  }

  lemma WholeAndRest(ds: seq<nat>, decimals: nat)
    requires decimals <= |ds|
    ensures Worth(ds[..|ds| - decimals], ds[|ds| - decimals..], decimals) == Value(ds, 10)
  {
    var whole, rest := ds[..|ds| - decimals], ds[|ds| - decimals..];
    assert |rest| == decimals && whole + rest == ds;
    ValueAppend(whole, rest, 10);
  }

  lemma ParsePadded(ds: seq<nat>, decimals: nat)
    requires Numeral(ds, 10) && |ds| > decimals
    ensures ParseTokenInput(Printed(ds, decimals), decimals) == Some(Value(ds, 10))
  {
    var whole, rest := ds[..|ds| - decimals], ds[|ds| - decimals..];
    ParseJoined(Printed(ds, decimals), whole, rest, StripTrailing(rest), decimals);
    WholeAndRest(ds, decimals);
  }

  /** Printing loses nothing: what is printed parses back to the same amount, for every amount and scale. */
  lemma ParsePrinted(raw: nat, decimals: nat)
    ensures ParseTokenInput(RawToUnits(raw, decimals), decimals) == Some(raw)
  {
    var ds := Padded(raw, decimals);
    ParsePadded(ds, decimals);
    PaddedValue(raw, decimals);
  }

  /** So different amounts print differently. */
  lemma PrintingIsInjective(raw: nat, other: nat, decimals: nat)
    ensures RawToUnits(raw, decimals) == RawToUnits(other, decimals) <==> raw == other
  {
    ParsePrinted(raw, decimals);
    ParsePrinted(other, decimals);
  }
}
