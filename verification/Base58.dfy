/** Base58 as the research script and the client's sender write it, and both round trips. */
module Base58 {
  import opened Results
  import opened Positional
  import Sequences

  const ALPHABET: string := "123456789" + "ABCDEFGH" + "JKLMN" + "PQRSTUVWXYZ" + "abcdefghijk" + "mnopqrstuvwxyz"

  datatype DecodeError = NotInAlphabet(c: char)

  // ------------------------------------------------------------ the alphabet

  predicate Consecutive(s: string, first: nat) {
    forall i :: 0 <= i < |s| ==> s[i] as int == first + i
  }

  /** The symbol of a digit: digits and letters in ascending order, without 0, I, O and l. */
  function Symbol(d: nat): char
    requires d < 58
  {
    if d < 9 then (0x31 + d) as char
    else if d < 17 then (0x41 + d - 9) as char
    else if d < 22 then (0x4A + d - 17) as char
    else if d < 33 then (0x50 + d - 22) as char
    else if d < 44 then (0x61 + d - 33) as char
    else (0x6D + d - 44) as char
  }

  lemma SymbolsAreTheAlphabet(d: nat)
    requires d < 58
    ensures |ALPHABET| == 58 && ALPHABET[d] == Symbol(d)
  {
    assert Consecutive("123456789", 0x31) && Consecutive("ABCDEFGH", 0x41) && Consecutive("JKLMN", 0x4A);
    assert Consecutive("PQRSTUVWXYZ", 0x50) && Consecutive("abcdefghijk", 0x61) && Consecutive("mnopqrstuvwxyz", 0x6D);
  }

  /** The index of the first symbol equal to `c`, or None where the script's lookup raises. */
  function IndexFrom(c: char, i: nat): (r: Option<nat>)
    requires i <= 58
    ensures r.Some? ==> i <= r.value < 58 && Symbol(r.value) == c
    ensures r.None? ==> forall j :: i <= j < 58 ==> Symbol(j) != c
    decreases 58 - i
  {
    if i == 58 then None
    else if Symbol(i) == c then Some(i)
    else IndexFrom(c, i + 1)
  }

  function IndexOf(c: char): Option<nat> { IndexFrom(c, 0) }

  lemma IndexOfSymbol(d: nat)
    requires d < 58
    ensures IndexOf(Symbol(d)) == Some(d)
  {
  }

  function Spell(ds: seq<nat>): (s: string)
    requires Numeral(ds, 58)
    ensures |s| == |ds|
  {
    if ds == [] then "" else [Symbol(ds[0])] + Spell(ds[1..])
  }

  lemma {:induction false} SpellAt(ds: seq<nat>, i: nat)
    requires Numeral(ds, 58) && i < |ds|
    ensures Spell(ds)[i] == Symbol(ds[i])
  {
    if i > 0 {
      SpellAt(ds[1..], i - 1);
    }
  }

  lemma {:induction false} SpellJoin(a: seq<nat>, b: seq<nat>)
    requires Numeral(a, 58) && Numeral(b, 58)
    ensures Spell(a + b) == Spell(a) + Spell(b)
  {
    if a == [] {
      assert a + b == b;
    } else {
      assert (a + b)[1..] == a[1..] + b;
      SpellJoin(a[1..], b);
    }
  }

  lemma SpellOne(d: nat)
    requires d < 58
    ensures Spell([d]) == [Symbol(d)]
  {
    assert [d][1..] == [];
  }

  function Indices(s: string): (r: Result<seq<nat>, DecodeError>)
    ensures r.Ok? ==> |r.value| == |s| && forall i :: 0 <= i < |s| ==> r.value[i] < 58 && Symbol(r.value[i]) == s[i]
  {
    if s == "" then Ok([])
    else match Indices(s[..|s| - 1])
      case Err(e) => Err(e)
      case Ok(ds) =>
        match IndexOf(s[|s| - 1])
        case None => Err(NotInAlphabet(s[|s| - 1]))
        case Some(d) => Ok(ds + [d])
  }

  // ------------------------------------------------------------ what the two functions compute

  function Encoded(bytes: seq<nat>): string
  {
    Spell(Rebase(bytes, 256, 58))
  }

  function Decoded(s: string): Result<seq<nat>, DecodeError> {
    match Indices(s)
    case Err(e) => Err(e)
    case Ok(ds) => Ok(Rebase(ds, 58, 256))
  }

  lemma {:induction false} IndicesOfSpell(ds: seq<nat>)
    requires Numeral(ds, 58)
    ensures Indices(Spell(ds)) == Ok(ds)
    decreases |ds|
  {
    if ds != [] {
      var n := |ds| - 1;
      assert ds == ds[..n] + [ds[n]];
      SpellJoin(ds[..n], [ds[n]]);
      SpellOne(ds[n]);
      IndicesOfSpell(ds[..n]);
      IndexOfSymbol(ds[n]);
      assert Spell(ds)[..n] == Spell(ds[..n]);
    }
  }

  /** Decoding undoes encoding for every byte string, leading zeros and all-zero input included. */
  lemma DecodeEncode(bytes: seq<nat>)
    requires Numeral(bytes, 256)
    ensures Decoded(Encoded(bytes)) == Ok(bytes)
  {
    IndicesOfSpell(Rebase(bytes, 256, 58));
    RebaseBack(bytes, 256, 58);
  }

  /** Encoding undoes decoding for every string of the alphabet. */
  lemma EncodeDecode(s: string)
    ensures Decoded(s).Ok? ==> Numeral(Decoded(s).value, 256) && Encoded(Decoded(s).value) == s
  {
    match Indices(s)
    case Err(_) =>
    case Ok(ds) =>
      RebaseBack(ds, 58, 256);
      forall i | 0 <= i < |s| ensures Spell(ds)[i] == s[i] {
        SpellAt(ds, i);
      }
      assert Spell(ds) == s;
  }

  predicate InAlphabet(c: char) { exists d :: 0 <= d < 58 && Symbol(d) == c }

  /** A string decodes exactly when every character is in the alphabet. */
  lemma {:induction false} DecodesIff(s: string)
    ensures Decoded(s).Ok? <==> forall i :: 0 <= i < |s| ==> InAlphabet(s[i])
    decreases |s|
  {
    if s != "" {
      var n := |s| - 1;
      DecodesIff(s[..n]);
      assert forall i :: 0 <= i < n ==> s[i] == s[..n][i];
      assert IndexOf(s[n]).Some? <==> InAlphabet(s[n]);
    }
  }

  // ------------------------------------------------------------ the script

  /** The number of bits of `n`, and the whole bytes that hold them. */
  function BitLength(n: nat): nat {
    if n == 0 then 0 else 1 + BitLength(n / 2)
  }

  /** `n` in exactly `length` big-endian bytes. */
  function ToBytes(n: nat, length: nat): (r: seq<nat>)
    ensures |r| == length
  {
    if length == 0 then [] else ToBytes(n / 256, length - 1) + [n % 256]
  }

  lemma TwoBits(n: nat)
    requires n >= 4
    ensures BitLength(n) == 2 + BitLength(n / 4)
  {
    assert n / 2 / 2 == n / 4;
  }

  lemma FourBits(n: nat)
    requires n >= 16
    ensures BitLength(n) == 4 + BitLength(n / 16)
  {
    TwoBits(n);
    TwoBits(n / 4);
    assert n / 4 / 4 == n / 16;
  }

  lemma EightBits(n: nat)
    requires n >= 256
    ensures BitLength(n) == 8 + BitLength(n / 256)
  {
    FourBits(n);
    FourBits(n / 16);
    assert n / 16 / 16 == n / 256;
  }

  lemma NoMoreBits(n: nat)
    requires n < 4
    ensures BitLength(n) <= 2
  {
    assert n / 2 < 2 && n / 2 / 2 == 0;
    assert BitLength(n / 2) <= 1;
  }

  lemma FewBits(n: nat)
    requires n < 16
    ensures BitLength(n) <= 4
  {
    if n >= 4 {
      TwoBits(n);
      NoMoreBits(n / 4);
    } else {
      NoMoreBits(n);
    }
  }

  lemma SmallBits(n: nat)
    requires 0 < n < 256
    ensures 1 <= BitLength(n) <= 8
  {
    if n >= 16 {
      FourBits(n);
      FewBits(n / 16);
    } else {
      FewBits(n);
    }
  }

  /** Rounding the bit length up to bytes gives no leading zero byte and loses none. */
  lemma {:induction false} MinimalBytes(n: nat)
    ensures ToBytes(n, (BitLength(n) + 7) / 8) == Digits(n, 256)
    decreases n
  {
    if n >= 256 {
      EightBits(n);
      MinimalBytes(n / 256);
      assert (BitLength(n) + 7) / 8 - 1 == (BitLength(n / 256) + 7) / 8;
    } else if n > 0 {
      SmallBits(n);
      assert n / 256 == 0 && n % 256 == n;
    }
  }

  lemma DigitsStep(n: nat, out: string)
    requires n > 0
    ensures Spell(Digits(n, 58)) + out == Spell(Digits(n / 58, 58)) + ([Symbol(n % 58)] + out)
  {
    var front, last := Digits(n / 58, 58), n % 58;
    SpellJoin(front, [last]);
    SpellOne(last);
    Sequences.Associate(Spell(front), [Symbol(last)], out);
  }

  function Ones(k: nat): string { Spell(Zeros(k)) }

  /** The division loop both encoders have: the least significant digit is found first. */
  method SpellNumber(number: nat) returns (out: string)
    ensures out == Spell(Digits(number, 58))
  {
    var n := number;
    out := "";
    while n > 0
      invariant Spell(Digits(n, 58)) + out == Spell(Digits(number, 58))
    {
      DigitsStep(n, out);
      SymbolsAreTheAlphabet(n % 58);
      n, out := n / 58, [ALPHABET[n % 58]] + out;
    }
  }

  method B58e(b: seq<nat>) returns (s: string)
    requires Numeral(b, 256)
    ensures s == Encoded(b)
  {
    var n := Value(b, 256);
    var out := SpellNumber(n);
    SpellJoin(Zeros(LeadingZeros(b)), Digits(n, 58));
    s := Ones(LeadingZeros(b)) + out;
  }

  /** The lookup in the alphabet: the first position of the character. */
  method IndexInAlphabet(c: char) returns (r: Option<nat>)
    ensures r == IndexOf(c)
  {
    SymbolsAreTheAlphabet(0);
    var i := 0;
    while i < |ALPHABET|
      invariant 0 <= i <= 58 && IndexOf(c) == IndexFrom(c, i)
    {
      SymbolsAreTheAlphabet(i);
      if ALPHABET[i] == c { return Some(i); }
      i := i + 1;
    }
    return None;
  }

  method B58d(s: string) returns (r: Result<seq<nat>, DecodeError>)
    ensures r == Decoded(s)
  {
    var n := 0;
    for i := 0 to |s|
      invariant Indices(s[..i]).Ok? && n == Value(Indices(s[..i]).value, 58)
    {
      NextIndex(s, i);
      var index := IndexInAlphabet(s[i]);
      match index {
        case None =>
          ErrorStays(s, i + 1);
          return Err(NotInAlphabet(s[i]));
        case Some(d) =>
          n := n * 58 + d;
      }
    }
    assert s[..|s|] == s;
    var raw := ToBytes(n, (BitLength(n) + 7) / 8);
    MinimalBytes(n);
    OnesAreZeros(s, Indices(s).value);
    return Ok(Zeros(LeadingOnes(s)) + raw);
  }

  lemma NextIndex(s: string, i: nat)
    requires i < |s| && Indices(s[..i]).Ok?
    ensures match IndexOf(s[i])
            case None => Indices(s[..i + 1]) == Err(NotInAlphabet(s[i]))
            case Some(d) => Indices(s[..i + 1]).Ok?
                            && Value(Indices(s[..i + 1]).value, 58) == Value(Indices(s[..i]).value, 58) * 58 + d
  {
    var ds := Indices(s[..i]).value;
    assert s[..i + 1][..i] == s[..i];
    match IndexOf(s[i])
    case None =>
    case Some(d) => assert (ds + [d])[..|ds|] == ds;
  }

  /** What stripping the leading '1's removes. */
  function LeadingOnes(s: string): nat {
    if s != "" && s[0] == '1' then 1 + LeadingOnes(s[1..]) else 0
  }

  lemma {:induction false} OnesAreZeros(s: string, ds: seq<nat>)
    requires |ds| == |s| && Numeral(ds, 58) && forall i :: 0 <= i < |s| ==> s[i] == Symbol(ds[i])
    ensures LeadingOnes(s) == LeadingZeros(ds)
  {
    if s != "" {
      assert s[0] == '1' <==> ds[0] == 0;
      OnesAreZeros(s[1..], ds[1..]);
    }
  }

  /** The first character outside the alphabet decides the result. */
  lemma {:induction false} ErrorStays(s: string, i: nat)
    requires i <= |s| && Indices(s[..i]).Err?
    ensures Indices(s) == Indices(s[..i])
    decreases |s|
  {
    if i == |s| {
      assert s[..i] == s;
    } else {
      var n := |s| - 1;
      assert s[..n][..i] == s[..i];
      ErrorStays(s[..n], i);
    }
  }

  // ------------------------------------------------------------ the client's sender

  method Base58Encode(bytes: seq<nat>) returns (s: string)
    requires Numeral(bytes, 256)
    ensures s == Encoded(bytes)
  {
    var zeros := 0;
    while zeros < |bytes| && bytes[zeros] == 0
      invariant 0 <= zeros <= LeadingZeros(bytes)
    {
      zeros := zeros + 1;
    }
    var n := 0;
    for i := 0 to |bytes|
      invariant n == Value(bytes[..i], 256)
    {
      assert bytes[..i + 1][..i] == bytes[..i];
      n := n * 256 + bytes[i];
    }
    assert bytes[..|bytes|] == bytes;
    var out := SpellNumber(n);
    SpellJoin(Zeros(LeadingZeros(bytes)), Digits(Value(bytes, 256), 58));
    s := Ones(zeros) + out;
  }
}
