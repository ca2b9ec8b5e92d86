/** UTF-8 as both sides read it: well-formed sequences and the maximal subparts of everything else. */
module Utf8 {
  import opened Results
  import opened Sequences

  type Bytes = seq<nat>

  /** One decoded scalar value, or one ill-formed subpart. */
  datatype Piece = Char(cp: nat) | Invalid

  // ------------------------------------------------------------ the encoding

  /** A Unicode scalar value: any code point but a surrogate. */
  predicate IsScalar(cp: nat) {
    cp < 0xD800 || 0xE000 <= cp < 0x110000
  }

  predicate AreScalars(s: seq<nat>) {
    forall i :: 0 <= i < |s| ==> IsScalar(s[i])
  }

  function Encode(cp: nat): (bytes: Bytes)
    ensures bytes != []
  {
    if cp < 0x80 then [cp]
    else if cp < 0x800 then [0xC0 + cp / 0x40, 0x80 + cp % 0x40]
    else if cp < 0x10000 then [0xE0 + cp / 0x1000, 0x80 + cp / 0x40 % 0x40, 0x80 + cp % 0x40]
    else [0xF0 + cp / 0x40000, 0x80 + cp / 0x1000 % 0x40, 0x80 + cp / 0x40 % 0x40, 0x80 + cp % 0x40]
  }

  function EncodeAll(s: seq<nat>): Bytes {
    if s == [] then [] else Encode(s[0]) + EncodeAll(s[1..])
  }

  // ------------------------------------------------------------ one step of the decoder

  /** How long a sequence with this first byte is; 0 for a byte that starts none. */
  function SequenceLength(lead: nat): (n: nat)
    ensures n <= 4
  {
    if lead < 0x80 then 1
    else if 0xC2 <= lead <= 0xDF then 2
    else if 0xE0 <= lead <= 0xEF then 3
    else if 0xF0 <= lead <= 0xF4 then 4
    else 0
  }

  predicate IsTrail(b: nat) { 0x80 <= b <= 0xBF }

  /** The second bytes a first byte allows: no overlong form, no surrogate, nothing beyond U+10FFFF. */
  predicate IsSecond(lead: nat, b: nat) {
    IsTrail(b)
    && (lead == 0xE0 ==> b >= 0xA0) && (lead == 0xED ==> b <= 0x9F)
    && (lead == 0xF0 ==> b >= 0x90) && (lead == 0xF4 ==> b <= 0x8F)
  }

  /** How many first bytes begin some well-formed sequence. */
  function Matched(bytes: Bytes): (n: nat)
    requires bytes != []
    ensures n <= |bytes| && n <= SequenceLength(bytes[0])
    ensures SequenceLength(bytes[0]) > 0 ==> n > 0
  {
    var length := SequenceLength(bytes[0]);
    if length <= 1 then length
    else if |bytes| < 2 || !IsSecond(bytes[0], bytes[1]) then 1
    else if length == 2 || |bytes| < 3 || !IsTrail(bytes[2]) then 2
    else if length == 3 || |bytes| < 4 || !IsTrail(bytes[3]) then 3
    else 4
  }

  predicate StartsWell(bytes: Bytes)
    requires bytes != []
  {
    SequenceLength(bytes[0]) > 0 && Matched(bytes) == SequenceLength(bytes[0])
  }

  /** The value of the well-formed sequence in front. */
  function FirstValue(bytes: Bytes): (cp: nat)
    requires bytes != [] && StartsWell(bytes)
    ensures IsScalar(cp)
  {
    match SequenceLength(bytes[0])
    case 1 => bytes[0]
    case 2 => (bytes[0] - 0xC0) * 0x40 + (bytes[1] - 0x80)
    case 3 => (bytes[0] - 0xE0) * 0x1000 + (bytes[1] - 0x80) * 0x40 + (bytes[2] - 0x80)
    case _ => (bytes[0] - 0xF0) * 0x40000 + (bytes[1] - 0x80) * 0x1000 + (bytes[2] - 0x80) * 0x40 + (bytes[3] - 0x80)
  }

  function First(bytes: Bytes): Piece
    requires bytes != []
  {
    if StartsWell(bytes) then Char(FirstValue(bytes)) else Invalid
  }

  /** A byte that starts nothing is skipped alone; otherwise the longest beginning of a sequence goes. */
  function Consumed(bytes: Bytes): (n: nat)
    requires bytes != []
    ensures 0 < n <= |bytes|
  {
    if Matched(bytes) == 0 then 1 else Matched(bytes)
  }

  /** The scalar values of a byte string, with one `Invalid` per maximal ill-formed subpart. */
  function Pieces(bytes: Bytes): seq<Piece>
    decreases |bytes|
  {
    if bytes == [] then [] else [First(bytes)] + Pieces(bytes[Consumed(bytes)..])
  }

  predicate WellFormed(bytes: Bytes) { Invalid !in Pieces(bytes) }

  // ------------------------------------------------------------ texts

  /** The scalar values alone: ill-formed subparts are dropped. */
  function Dropping(ps: seq<Piece>): seq<nat> {
    if ps == [] then []
    else match ps[0]
      case Char(cp) => [cp] + Dropping(ps[1..])
      case Invalid => Dropping(ps[1..])
  }

  /** U+FFFD in place of every ill-formed subpart. */
  function Replacing(ps: seq<Piece>): seq<nat> {
    if ps == [] then []
    else [if ps[0].Char? then ps[0].cp else 0xFFFD] + Replacing(ps[1..])
  }

  /** What the program's `for_each_char` visits. */
  function ProgramText(bytes: Bytes): seq<nat> { Dropping(Pieces(bytes)) }

  /** A leading byte order mark is not part of the text. */
  function WithoutMark(s: seq<nat>): seq<nat> {
    if s != [] && s[0] == 0xFEFF then s[1..] else s
  }

  /** What the client's `TextDecoder` returns. */
  function ClientText(bytes: Bytes): seq<nat> { WithoutMark(Replacing(Pieces(bytes))) }

  lemma {:induction false} DroppingAppend(ps: seq<Piece>, qs: seq<Piece>)
    ensures Dropping(ps + qs) == Dropping(ps) + Dropping(qs)
  {
    if ps == [] {
      assert ps + qs == qs;
    } else {
      assert (ps + qs)[1..] == ps[1..] + qs;
      DroppingAppend(ps[1..], qs);
    }
  }

  lemma {:induction false} DroppedAreScalars(bytes: Bytes)
    ensures AreScalars(ProgramText(bytes))
    decreases |bytes|
  {
    if bytes != [] {
      DroppedAreScalars(bytes[Consumed(bytes)..]);
    }
  }

  lemma {:induction false} ReplacedAreScalars(bytes: Bytes)
    ensures AreScalars(Replacing(Pieces(bytes)))
    decreases |bytes|
  {
    if bytes != [] {
      ReplacedAreScalars(bytes[Consumed(bytes)..]);
    }
  }

  // ------------------------------------------------------------ round trips

  lemma TwoBytes(cp: nat)
    requires 0x80 <= cp < 0x800
    ensures 0xC2 <= 0xC0 + cp / 0x40 <= 0xDF
    ensures cp / 0x40 * 0x40 + cp % 0x40 == cp
  {
  }

  lemma ThreeBytes(cp: nat)
    requires 0x800 <= cp < 0x10000 && IsScalar(cp)
    ensures 0xE0 <= 0xE0 + cp / 0x1000 <= 0xEF && IsSecond(0xE0 + cp / 0x1000, 0x80 + cp / 0x40 % 0x40)
    ensures cp / 0x1000 * 0x1000 + cp / 0x40 % 0x40 * 0x40 + cp % 0x40 == cp
  {
    assert cp / 0x40 / 0x40 == cp / 0x1000;
  }

  lemma FourBytes(cp: nat)
    requires 0x10000 <= cp < 0x110000
    ensures 0xF0 <= 0xF0 + cp / 0x40000 <= 0xF4 && IsSecond(0xF0 + cp / 0x40000, 0x80 + cp / 0x1000 % 0x40)
    ensures cp / 0x40000 * 0x40000 + cp / 0x1000 % 0x40 * 0x1000 + cp / 0x40 % 0x40 * 0x40 + cp % 0x40 == cp
  {
    assert cp / 0x1000 / 0x40 == cp / 0x40000 && cp / 0x40 / 0x40 == cp / 0x1000;
  }

  /** An encoded scalar value is read back, whatever follows it. */
  lemma FirstEncoded(cp: nat, rest: Bytes)
    requires IsScalar(cp)
    ensures First(Encode(cp) + rest) == Char(cp) && Consumed(Encode(cp) + rest) == |Encode(cp)|
  {
    if 0x80 <= cp < 0x800 {
      TwoBytes(cp);
    } else if 0x800 <= cp < 0x10000 {
      ThreeBytes(cp);
    } else if 0x10000 <= cp {
      FourBytes(cp);
    }
  }

  function Chars(s: seq<nat>): (ps: seq<Piece>)
    ensures |ps| == |s|
  {
    if s == [] then [] else [Char(s[0])] + Chars(s[1..])
  }

  /** Every text of scalar values is decoded to itself, whatever bytes follow it. */
  lemma {:induction false} DecodeEncoded(s: seq<nat>, rest: Bytes)
    requires AreScalars(s)
    ensures Pieces(EncodeAll(s) + rest) == Chars(s) + Pieces(rest)
  {
    if s == [] {
      assert EncodeAll(s) + rest == rest;
    } else {
      var tail := EncodeAll(s[1..]) + rest;
      assert EncodeAll(s) + rest == Encode(s[0]) + tail;
      FirstEncoded(s[0], tail);
      assert (Encode(s[0]) + tail)[|Encode(s[0])|..] == tail;
      DecodeEncoded(s[1..], rest);
    }
  }

  lemma TwoDigits(a: nat, b: nat, x: nat)
    requires b < 0x40 && x == a * 0x40 + b
    ensures x / 0x40 == a && x % 0x40 == b
  {
  }

  lemma ThreeDigits(a: nat, b: nat, c: nat, x: nat)
    requires b < 0x40 && c < 0x40 && x == a * 0x1000 + b * 0x40 + c
    ensures x / 0x1000 == a && x / 0x40 % 0x40 == b && x % 0x40 == c
  {
    TwoDigits(a * 0x40 + b, c, x);
    TwoDigits(a, b, x / 0x40);
  }

  lemma FourDigits(a: nat, b: nat, c: nat, d: nat, x: nat)
    requires b < 0x40 && c < 0x40 && d < 0x40 && x == a * 0x40000 + b * 0x1000 + c * 0x40 + d
    ensures x / 0x40000 == a && x / 0x1000 % 0x40 == b && x / 0x40 % 0x40 == c && x % 0x40 == d
  {
    TwoDigits(a * 0x1000 + b * 0x40 + c, d, x);
    ThreeDigits(a, b, c, x / 0x40);
    assert x / 0x40 / 0x1000 == x / 0x40000 && x / 0x40 / 0x40 == x / 0x1000;
  }

  /** A decoded scalar value has one encoding: the bytes it was read from. */
  lemma FirstEncodesBack(bytes: Bytes)
    requires bytes != [] && StartsWell(bytes)
    ensures Encode(FirstValue(bytes)) == bytes[..Consumed(bytes)]
  {
    var cp := FirstValue(bytes);
    match SequenceLength(bytes[0])
    case 1 =>
    case 2 =>
      TwoDigits(bytes[0] - 0xC0, bytes[1] - 0x80, cp);
    case 3 =>
      ThreeDigits(bytes[0] - 0xE0, bytes[1] - 0x80, bytes[2] - 0x80, cp);
    case _ =>
      FourDigits(bytes[0] - 0xF0, bytes[1] - 0x80, bytes[2] - 0x80, bytes[3] - 0x80, cp);
  }

  lemma SplitIff(bytes: Bytes, n: nat, whole: Bytes, tail: Bytes)
    requires n <= |bytes| && whole == bytes[..n] + tail
    ensures bytes == whole <==> bytes[n..] == tail
  {
    assert bytes == bytes[..n] + bytes[n..] && (bytes[..n] + tail)[n..] == tail;
  }

  lemma {:induction false} CharsAreValid(s: seq<nat>)
    ensures Invalid !in Chars(s) && Dropping(Chars(s)) == s
  {
    if s != [] {
      CharsAreValid(s[1..]);
      assert Chars(s)[1..] == Chars(s[1..]);
    }
  }

  lemma EncodingIsWellFormed(s: seq<nat>, bytes: Bytes)
    requires s == ProgramText(bytes)
    ensures bytes == EncodeAll(s) ==> WellFormed(bytes)
  {
    DroppedAreScalars(bytes);
    DecodeEncoded(s, []);
    CharsAreValid(s);
    assert EncodeAll(s) + [] == EncodeAll(s) && Chars(s) + Pieces([]) == Chars(s);
  }

  /** What follows the first piece. */
  function Rest(bytes: Bytes): Bytes
    requires bytes != []
  {
    bytes[Consumed(bytes)..]
  }

  lemma PiecesCons(bytes: Bytes)
    requires bytes != []
    ensures WellFormed(bytes) <==> StartsWell(bytes) && WellFormed(Rest(bytes))
    ensures StartsWell(bytes) ==> ProgramText(bytes) == [FirstValue(bytes)] + ProgramText(Rest(bytes))
  {
    var ps := Pieces(Rest(bytes));
    assert Pieces(bytes) == [First(bytes)] + ps && ([First(bytes)] + ps)[1..] == ps;
    assert Invalid in [First(bytes)] + ps <==> First(bytes) == Invalid || Invalid in ps;
  }

  lemma EncodeCons(bytes: Bytes)
    requires bytes != [] && StartsWell(bytes)
    ensures EncodeAll(ProgramText(bytes)) == bytes[..Consumed(bytes)] + EncodeAll(ProgramText(Rest(bytes)))
  {
    PiecesCons(bytes);
    FirstEncodesBack(bytes);
    var text := ProgramText(Rest(bytes));
    assert ([FirstValue(bytes)] + text)[1..] == text;
  }

  /** A well-formed front is compared byte by byte with its encoding. */
  lemma EncodesAsIff(bytes: Bytes)
    requires bytes != [] && StartsWell(bytes)
    ensures bytes == EncodeAll(ProgramText(bytes)) <==> Rest(bytes) == EncodeAll(ProgramText(Rest(bytes)))
  {
    EncodeCons(bytes);
    SplitIff(bytes, Consumed(bytes), EncodeAll(ProgramText(bytes)), EncodeAll(ProgramText(Rest(bytes))));
  }

  /** Bytes are well-formed exactly when they are the encoding of the text they decode to. */
  lemma {:induction false} WellFormedIff(bytes: Bytes)
    ensures WellFormed(bytes) <==> bytes == EncodeAll(ProgramText(bytes))
    decreases |bytes|
  {
    if bytes == [] {
      assert ProgramText(bytes) == [];
    } else {
      PiecesCons(bytes);
      if StartsWell(bytes) {
        WellFormedIff(Rest(bytes));
        EncodesAsIff(bytes);
      } else {
        EncodingIsWellFormed(ProgramText(bytes), bytes);
      }
    }
  }

  // ------------------------------------------------------------ well-formed stretches

  /** How far the bytes are well-formed. */
  function ValidUpTo(bytes: Bytes): (n: nat)
    ensures n <= |bytes|
    decreases |bytes|
  {
    if bytes == [] || !StartsWell(bytes) then 0 else Consumed(bytes) + ValidUpTo(Rest(bytes))
  }

  /** How long the ill-formed subpart in front is; None for a sequence that the end cuts off. */
  function ErrorLength(bytes: Bytes): (n: Option<nat>)
    requires bytes != [] && !StartsWell(bytes)
    ensures (if n.Some? then n.value else |bytes|) == Consumed(bytes)
  {
    if Matched(bytes) == |bytes| then None else Some(Consumed(bytes))
  }

  lemma MatchedInPrefix(bytes: Bytes, n: nat)
    requires bytes != [] && StartsWell(bytes) && Consumed(bytes) <= n <= |bytes|
    ensures StartsWell(bytes[..n]) && First(bytes[..n]) == First(bytes) && Consumed(bytes[..n]) == Consumed(bytes)
  {
  }

  lemma {:induction false} ValidAreStopped(bytes: Bytes)
    ensures ValidUpTo(bytes) < |bytes| ==> !StartsWell(bytes[ValidUpTo(bytes)..])
    decreases |bytes|
  {
    if bytes != [] && StartsWell(bytes) {
      ValidAreStopped(Rest(bytes));
      var n := ValidUpTo(Rest(bytes));
      assert bytes[Consumed(bytes) + n..] == Rest(bytes)[n..];
    }
  }

  lemma TextCons(bytes: Bytes, value: nat, rest: Bytes)
    requires bytes != [] && StartsWell(bytes) && FirstValue(bytes) == value && bytes[Consumed(bytes)..] == rest
    ensures ProgramText(bytes) == [value] + ProgramText(rest)
  {
    PiecesCons(bytes);
  }

  lemma ValidStep(bytes: Bytes, n: nat, inner: Bytes, after: Bytes)
    requires bytes != [] && StartsWell(bytes) && Consumed(bytes) <= n <= |bytes|
    requires inner == bytes[Consumed(bytes)..n]
    requires ProgramText(Rest(bytes)) == ProgramText(inner) + ProgramText(after)
    ensures ProgramText(bytes) == ProgramText(bytes[..n]) + ProgramText(after)
  {
    var value := FirstValue(bytes);
    MatchedInPrefix(bytes, n);
    TextCons(bytes, value, Rest(bytes));
    assert bytes[..n][Consumed(bytes)..] == inner;
    TextCons(bytes[..n], value, inner);
    Associate([value], ProgramText(inner), ProgramText(after));
  }

  /** The well-formed stretch in front, and everything after it, decode one by one. */
  lemma {:induction false} TextAfterValid(bytes: Bytes)
    ensures ProgramText(bytes) == ProgramText(bytes[..ValidUpTo(bytes)]) + ProgramText(bytes[ValidUpTo(bytes)..])
    decreases |bytes|
  {
    var n := ValidUpTo(bytes);
    if n == 0 {
      assert bytes[..0] == [] && bytes[0..] == bytes;
    } else {
      var k := Consumed(bytes);
      TextAfterValid(Rest(bytes));
      assert Rest(bytes)[..n - k] == bytes[k..n] && Rest(bytes)[n - k..] == bytes[n..];
      ValidStep(bytes, n, bytes[k..n], bytes[n..]);
    }
  }

  /** The ill-formed subpart after it is dropped. */
  lemma TextAfterError(bytes: Bytes)
    requires bytes != [] && !StartsWell(bytes)
    ensures ProgramText(bytes) == ProgramText(bytes[Consumed(bytes)..])
  {
  }

  // ------------------------------------------------------------ an ASCII byte always stands for itself

  /** Bytes before an ASCII byte decode as they do alone. */
  lemma FirstBeforeAscii(a: Bytes, c: nat, rest: Bytes)
    requires a != [] && c < 0x80
    ensures First(a + [c] + rest) == First(a) && Consumed(a + [c] + rest) == Consumed(a)
  {
    var t := a + [c] + rest;
    assert t[0] == a[0] && t[|a|] == c;
    assert forall i :: 0 <= i < |a| ==> t[i] == a[i];
    MatchedBeforeAscii(a, c, t);
  }

  lemma MatchedBeforeAscii(a: Bytes, c: nat, t: Bytes)
    requires a != [] && c < 0x80 && |a| < |t| && t[|a|] == c && forall i :: 0 <= i < |a| ==> t[i] == a[i]
    ensures Matched(t) == Matched(a)
  {
  }

  lemma PiecesFrom(bytes: Bytes, first: Piece, rest: Bytes)
    requires bytes != [] && First(bytes) == first && bytes[Consumed(bytes)..] == rest
    ensures Pieces(bytes) == [first] + Pieces(rest)
  {
  }

  lemma Regroup(p: Piece, ps: seq<Piece>, q: Piece, qs: seq<Piece>)
    ensures [p] + (ps + [q] + qs) == ([p] + ps) + [q] + qs
  {
  }

  /** No ill-formed byte around it swallows an ASCII byte. */
  lemma {:induction false} AsciiSplits(a: Bytes, c: nat, rest: Bytes)
    requires c < 0x80
    ensures Pieces(a + [c] + rest) == Pieces(a) + [Char(c)] + Pieces(rest)
    decreases |a|
  {
    var t := a + [c] + rest;
    if a == [] {
      assert t == [c] + rest && t[1..] == rest;
    } else {
      FirstBeforeAscii(a, c, rest);
      var n := Consumed(a);
      assert t[n..] == a[n..] + [c] + rest;
      PiecesFrom(t, First(a), a[n..] + [c] + rest);
      PiecesFrom(a, First(a), a[n..]);
      AsciiSplits(a[n..], c, rest);
      Regroup(First(a), Pieces(a[n..]), Char(c), Pieces(rest));
    }
  }
}
