/** The accepted spellings of decimal numbers, and reading them without ambiguity. */
module Rationals {
  import opened Results
  import opened Positional
  import opened Decimals
  import Sequences

  // ------------------------------------------------------------ the accepted spellings

  datatype Sign = NoSign | Plus | Minus

  datatype Exponent = Exponent(upper: bool, sign: Sign, digits: seq<nat>)

  /** What the pattern captures: a sign, whole digits, maybe a point with digits, maybe an exponent. */
  datatype Spelling = Spelling(sign: Sign, whole: seq<nat>, frac: Option<seq<nat>>, exponent: Option<Exponent>)

  predicate WellSpelled(x: Spelling) {
    && Numeral(x.whole, 10)
    && (x.frac.Some? ==> Numeral(x.frac.value, 10))
    && (x.exponent.Some? ==> Numeral(x.exponent.value.digits, 10) && x.exponent.value.digits != [])
  }

  function SignText(sign: Sign): string {
    match sign case NoSign => "" case Plus => "+" case Minus => "-"
  }

  function FracText(frac: Option<seq<nat>>): string
    requires frac.Some? ==> Numeral(frac.value, 10)
  {
    match frac case None => "" case Some(ds) => "." + Text(ds)
  }

  function ExponentText(exponent: Option<Exponent>): string
    requires exponent.Some? ==> Numeral(exponent.value.digits, 10)
  {
    match exponent
    case None => ""
    case Some(e) => [if e.upper then 'E' else 'e'] + (SignText(e.sign) + Text(e.digits))
  }

  function SpelledOut(x: Spelling): string
    requires WellSpelled(x)
  {
    SignText(x.sign) + (Text(x.whole) + (FracText(x.frac) + ExponentText(x.exponent)))
  }

  // ------------------------------------------------------------ reading them

  function ReadSign(s: string): (r: (Sign, string))
    ensures s == SignText(r.0) + r.1
  {
    if s != "" && s[0] == '+' then (Plus, s[1..])
    else if s != "" && s[0] == '-' then (Minus, s[1..])
    else (NoSign, s)
  }

  /** How many digits a text starts with. */
  function DigitRun(s: string): (n: nat)
    ensures n <= |s| && AllDigits(s[..n]) && (n < |s| ==> !IsDigit(s[n]))
  {
    if s == "" || !IsDigit(s[0]) then 0
    else
      var m := DigitRun(s[1..]);
      assert s[..m + 1] == [s[0]] + s[1..][..m];
      m + 1
  }

  function ReadDigits(s: string): (seq<nat>, string) {
    (Read(s[..DigitRun(s)]), s[DigitRun(s)..])
  }

  function ReadFrac(s: string): (Option<seq<nat>>, string) {
    if s != "" && s[0] == '.' then (Some(ReadDigits(s[1..]).0), ReadDigits(s[1..]).1) else (None, s)
  }

  /** The exponent must take the whole rest; None where the pattern does not match. */
  function ReadExponent(s: string): Option<Option<Exponent>> {
    if s == "" then Some(None)
    else if s[0] != 'e' && s[0] != 'E' then None
    else
      var (sign, digits) := ReadSign(s[1..]);
      if digits == "" || !AllDigits(digits) then None
      else Some(Some(Exponent(s[0] == 'E', sign, Read(digits))))
  }

  function ReadDecimal(s: string): Option<Spelling> {
    var (sign, a) := ReadSign(s);
    var (whole, b) := ReadDigits(a);
    var (frac, c) := ReadFrac(b);
    match ReadExponent(c)
    case None => None
    case Some(exponent) => Some(Spelling(sign, whole, frac, exponent))
  }

  /** Text that no digit run continues into. */
  predicate NoDigitFirst(s: string) { s == "" || !IsDigit(s[0]) }

  lemma {:induction false} DigitRunOf(ds: seq<nat>, rest: string)
    requires Numeral(ds, 10) && NoDigitFirst(rest)
    ensures DigitRun(Text(ds) + rest) == |ds|
    decreases |ds|
  {
    var s := Text(ds) + rest;
    if ds == [] {
      assert s == rest;
    } else {
      assert IsDigit(s[0]);
      assert s[1..] == Text(ds[1..]) + rest;
      DigitRunOf(ds[1..], rest);
    }
  }

  lemma ReadDigitsOf(ds: seq<nat>, rest: string)
    requires Numeral(ds, 10) && NoDigitFirst(rest)
    ensures ReadDigits(Text(ds) + rest) == (ds, rest)
  {
    DigitRunOf(ds, rest);
    var s := Text(ds) + rest;
    assert s[..|ds|] == Text(ds) && s[|ds|..] == rest;
    ReadText(ds);
  }

  predicate NoSignFirst(s: string) { s == "" || (s[0] != '+' && s[0] != '-') }

  lemma ReadSignOf(sign: Sign, rest: string)
    requires NoSignFirst(rest)
    ensures ReadSign(SignText(sign) + rest) == (sign, rest)
  {
    var s := SignText(sign) + rest;
    assert if sign == NoSign then s == rest else s[1..] == rest;
  }

  lemma ReadExponentOf(exponent: Option<Exponent>)
    requires exponent.Some? ==> Numeral(exponent.value.digits, 10) && exponent.value.digits != []
    ensures ReadExponent(ExponentText(exponent)) == Some(exponent)
    ensures NoDigitFirst(ExponentText(exponent)) && NoSignFirst(ExponentText(exponent))
    ensures ExponentText(exponent) == "" || ExponentText(exponent)[0] != '.'
  {
    match exponent
    case None =>
    case Some(e) =>
      var digits := Text(e.digits);
      assert IsDigit(digits[0]);
      ReadSignOf(e.sign, digits);
      ReadText(e.digits);
      assert ExponentText(exponent)[1..] == SignText(e.sign) + digits;
  }

  lemma ReadFracOf(frac: Option<seq<nat>>, rest: string)
    requires frac.Some? ==> Numeral(frac.value, 10)
    requires NoDigitFirst(rest) && (rest == "" || rest[0] != '.')
    ensures ReadFrac(FracText(frac) + rest) == (frac, rest)
  {
    match frac
    case None => assert FracText(frac) + rest == rest;
    case Some(ds) =>
      ReadDigitsOf(ds, rest);
      assert (FracText(frac) + rest)[1..] == Text(ds) + rest;
  }

  /** Every accepted spelling is read back as itself, so no text has two readings. */
  lemma ReadSpelledOut(x: Spelling)
    requires WellSpelled(x)
    ensures ReadDecimal(SpelledOut(x)) == Some(x)
  {
    var c := ExponentText(x.exponent);
    ReadExponentOf(x.exponent);
    var b := FracText(x.frac) + c;
    assert NoDigitFirst(b) && NoSignFirst(b) by { assert x.frac.None? ==> b == c; }
    ReadFracOf(x.frac, c);
    var a := Text(x.whole) + b;
    assert NoSignFirst(a) by { assert x.whole == [] ==> a == b; assert x.whole != [] ==> IsDigit(a[0]); }
    ReadDigitsOf(x.whole, b);
    ReadSignOf(x.sign, a);
  }

  /** And what is read spells the text. */
  lemma SpelledOutRead(s: string)
    ensures ReadDecimal(s).Some? ==> WellSpelled(ReadDecimal(s).value) && SpelledOut(ReadDecimal(s).value) == s
  {
    if ReadDecimal(s).Some? {
      var a := ReadSign(s).1;
      var b := ReadDigits(a).1;
      DigitsSpell(a);
      FracSpells(b);
      ExponentSpells(ReadFrac(b).1);
    }
  }

  lemma FracSpells(s: string)
    ensures var (frac, rest) := ReadFrac(s);
            (frac.Some? ==> Numeral(frac.value, 10)) && FracText(frac) + rest == s
  {
    if s != "" && s[0] == '.' {
      DigitsSpell(s[1..]);
      assert s == "." + s[1..];
      Sequences.Associate(".", Text(ReadDigits(s[1..]).0), ReadDigits(s[1..]).1);
    } else {
      assert "" + s == s;
    }
  }

  lemma DigitsSpell(s: string)
    ensures Text(ReadDigits(s).0) + ReadDigits(s).1 == s
  {
    var n := DigitRun(s);
    assert Text(Read(s[..n])) == s[..n];
  }

  lemma ExponentSpells(s: string)
    ensures ReadExponent(s).Some? ==>
              var e := ReadExponent(s).value;
              (e.Some? ==> Numeral(e.value.digits, 10) && e.value.digits != []) && ExponentText(e) == s
  {
    if s != "" && ReadExponent(s).Some? {
      var (sign, digits) := ReadSign(s[1..]);
      assert Text(Read(digits)) == digits;
      assert s == [s[0]] + s[1..];
    }
  }
}
