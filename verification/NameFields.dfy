/** Reserved names on raw metadata bytes: the program's streaming scan and the client's decoded one agree. */
module NameFields {
  import opened Results
  import opened Confusables
  import opened Skeletons
  import opened Utf8

  // ------------------------------------------------------------ the program

  /** The program's scan of one field: each well-formed stretch in turn, ill-formed subparts skipped. */
  method FieldScan(rows: seq<Row>, ghost kept: nat -> Option<nat>, bytes: Bytes, bidiReserved: bool) returns (hit: bool)
    requires IsIndex(rows, kept)
    ensures hit == Hit(TableFold(kept), ProgramText(bytes), bidiReserved)
  {
    var window := new nat[5](_ => 0);
    var len := 0;
    hit := false;
    var rest := bytes;
    ghost var done: Text := [];
    assert Skeleton(TableFold(kept), done) == [];
    while rest != []
      invariant Scanned(TableFold(kept), window, len, hit, done, bidiReserved)
      invariant done + ProgramText(rest) == ProgramText(bytes)
      decreases |rest|
    {
      var n := ValidUpTo(rest);
      var valid := ProgramText(rest[..n]);
      DroppedAreScalars(rest[..n]);
      len, hit := ScanChars(rows, kept, window, len, hit, done, valid, bidiReserved);
      var skip := Skipped(rest, n);
      TextAfterSkip(rest, n, rest[skip..]);
      Move(done, valid, ProgramText(rest[skip..]), ProgramText(bytes));
      done := done + valid;
      rest := rest[skip..];
    }
    assert done + [] == done;
  }

  /** How far one turn gets: past the ill-formed subpart, or to the end. */
  function Skipped(rest: Bytes, n: nat): (skip: nat)
    requires rest != [] && n == ValidUpTo(rest)
    ensures 0 < skip <= |rest|
  {
    if n == |rest| then |rest|
    else
      ValidAreStopped(rest);
      n + match ErrorLength(rest[n..]) case Some(k) => k case None => |rest| - n
  }

  lemma TextAfterSkip(rest: Bytes, n: nat, after: Bytes)
    requires rest != [] && n == ValidUpTo(rest) && after == rest[Skipped(rest, n)..]
    ensures ProgramText(rest) == ProgramText(rest[..n]) + ProgramText(after)
  {
    TextAfterValid(rest);
    if n < |rest| {
      ErrorIsDropped(rest, n, after);
    } else {
      assert rest[n..] == [] == after;
    }
  }

  lemma ErrorIsDropped(rest: Bytes, n: nat, after: Bytes)
    requires n == ValidUpTo(rest) < |rest| && after == rest[Skipped(rest, n)..]
    ensures ProgramText(rest[n..]) == ProgramText(after)
  {
    ValidAreStopped(rest);
    TextAfterError(rest[n..]);
    assert rest[n..][Consumed(rest[n..])..] == after;
  }

  lemma Move(done: Text, valid: Text, after: Text, whole: Text)
    requires done + (valid + after) == whole
    ensures (done + valid) + after == whole
  {
  }

  method IsReservedByProgram(rows: seq<Row>, ghost kept: nat -> Option<nat>, name: Bytes, symbol: Bytes) returns (r: bool)
    requires IsIndex(rows, kept)
    ensures r <==> FieldReserved(TableFold(kept), ProgramText(name)) || FieldReserved(TableFold(kept), ProgramText(symbol))
  {
    r := FieldScan(rows, kept, name, true);
    if !r {
      r := FieldScan(rows, kept, symbol, true);
    }
  }

  // ------------------------------------------------------------ the client

  lemma {:induction false} LossySkeleton(f: FoldMap, ps: seq<Piece>)
    requires SkeletonByte(f, 0xFFFD).None?
    ensures Skeleton(f, Replacing(ps)) == Skeleton(f, Dropping(ps))
  {
    if ps != [] {
      LossySkeleton(f, ps[1..]);
      var rest := Replacing(ps[1..]);
      assert Replacing(ps)[1..] == rest;
      if ps[0].Char? {
        assert Dropping(ps)[1..] == Dropping(ps[1..]);
      }
    }
  }

  lemma {:induction false} LossyBidi(ps: seq<Piece>)
    ensures HasBidi(Replacing(ps)) <==> HasBidi(Dropping(ps))
  {
    if ps != [] {
      LossyBidi(ps[1..]);
      var first := if ps[0].Char? then ps[0].cp else 0xFFFD;
      BidiCons(first, Replacing(ps[1..]));
      BidiCons(first, Dropping(ps[1..]));
    }
  }

  lemma BidiCons(cp: nat, s: Text)
    ensures HasBidi([cp] + s) <==> IsBidi(cp) || HasBidi(s)
  {
    var t := [cp] + s;
    assert t[0] == cp && forall i :: 0 <= i < |s| ==> t[i + 1] == s[i];
    if HasBidi(t) {
      var i :| 0 <= i < |t| && IsBidi(t[i]);
      assert i == 0 || t[i] == s[i - 1];
    }
  }

  /** A leading byte order mark makes no difference, as long as it is dropped anyway. */
  lemma MarkChangesNothing(f: FoldMap, s: Text)
    requires SkeletonByte(f, 0xFEFF).None?
    ensures FieldReserved(f, WithoutMark(s)) <==> FieldReserved(f, s)
  {
    if s != [] && s[0] == 0xFEFF {
      InsertDropped(f, [], 0xFEFF, s[1..]);
      assert [] + [0xFEFF] + s[1..] == s && [] + s[1..] == s[1..];
    }
  }

  /** The two code points that the client's decoder adds or removes fold to nothing. */
  predicate DropsMarks(f: FoldMap) {
    SkeletonByte(f, 0xFFFD).None? && SkeletonByte(f, 0xFEFF).None?
  }

  /**
   * On every byte string, well-formed or not, the client's verdict on its decoded text is the
   * program's verdict on the bytes.
   */
  lemma VerdictsAgree(f: FoldMap, bytes: Bytes)
    requires DropsMarks(f)
    ensures FieldReserved(f, ClientText(bytes)) <==> FieldReserved(f, ProgramText(bytes))
  {
    MarkChangesNothing(f, Replacing(Pieces(bytes)));
    LossySkeleton(f, Pieces(bytes));
    LossyBidi(Pieces(bytes));
  }

  /** No rule folds the two marks, so they are dropped exactly when the map leaves them out. */
  lemma TableDropsMarks(kept: nat -> Option<nat>)
    requires kept(0xFFFD).None? && kept(0xFEFF).None?
    ensures DropsMarks(TableFold(kept))
  {
  }

  /** The client's test of a token's metadata fields, with the verdict of the program. */
  method IsReservedByClient(rows: seq<Row>, ghost kept: nat -> Option<nat>, name: Bytes, symbol: Bytes) returns (r: bool)
    requires IsIndex(rows, kept) && kept(0xFFFD).None? && kept(0xFEFF).None?
    ensures r <==> FieldReserved(TableFold(kept), ProgramText(name)) || FieldReserved(TableFold(kept), ProgramText(symbol))
  {
    ReplacedAreScalars(name);
    ReplacedAreScalars(symbol);
    r := IsReservedTokenName(rows, kept, ClientText(name), ClientText(symbol));
    TableDropsMarks(kept);
    VerdictsAgree(TableFold(kept), name);
    VerdictsAgree(TableFold(kept), symbol);
  }

  // ------------------------------------------------------------ noise

  /** Bytes that decode to nothing the skeleton keeps. */
  predicate IsNoise(f: FoldMap, bytes: Bytes) {
    Skeleton(f, ProgramText(bytes)) == []
  }

  lemma TextAroundAscii(a: Bytes, c: nat, rest: Bytes)
    requires c < 0x80
    ensures ProgramText(a + [c] + rest) == ProgramText(a) + [c] + ProgramText(rest)
  {
    AsciiSplits(a, c, rest);
    DroppingAppend(Pieces(a) + [Char(c)], Pieces(rest));
    DroppingAppend(Pieces(a), [Char(c)]);
    assert Dropping([Char(c)]) == [c] by { assert [Char(c)][1..] == []; }
  }

  lemma NoiseFalls(f: FoldMap, noise: Bytes, d: nat, rest: Bytes)
    requires d < 0x80 && IsNoise(f, noise)
    ensures Skeleton(f, ProgramText(noise + [d] + rest)) == Skeleton(f, [d] + ProgramText(rest))
  {
    TextAroundAscii(noise, d, rest);
    SkeletonAppend(f, ProgramText(noise), [d] + ProgramText(rest));
    assert ProgramText(noise) + [d] + ProgramText(rest) == ProgramText(noise) + ([d] + ProgramText(rest));
  }

  lemma SkeletonAfterAscii(f: FoldMap, a: Bytes, c: nat, tail: Bytes)
    requires c < 0x80
    ensures Skeleton(f, ProgramText(a + [c] + tail)) == Skeleton(f, ProgramText(a) + [c]) + Skeleton(f, ProgramText(tail))
  {
    TextAroundAscii(a, c, tail);
    SkeletonAppend(f, ProgramText(a) + [c], ProgramText(tail));
  }

  /**
   * Noise between two ASCII characters, ill-formed or cut-off sequences included, never changes the
   * skeleton: it joins them.
   */
  lemma NoiseBetweenAscii(f: FoldMap, a: Bytes, c: nat, noise: Bytes, d: nat, rest: Bytes)
    requires c < 0x80 && d < 0x80 && IsNoise(f, noise)
    ensures Skeleton(f, ProgramText(a + [c] + (noise + [d] + rest))) == Skeleton(f, ProgramText(a + [c] + ([d] + rest)))
  {
    SkeletonAfterAscii(f, a, c, noise + [d] + rest);
    SkeletonAfterAscii(f, a, c, [d] + rest);
    NoiseFalls(f, noise, d, rest);
    NoiseFalls(f, [], d, rest);
    assert [] + [d] + rest == [d] + rest;
  }

  /** A well-formed field is read as the text it encodes, by both sides. */
  lemma EncodedIsRead(s: Text)
    requires AreScalars(s)
    ensures ProgramText(EncodeAll(s)) == s && ClientText(EncodeAll(s)) == WithoutMark(s)
  {
    DecodeEncoded(s, []);
    CharsAreValid(s);
    ValidKeep(s);
    assert EncodeAll(s) + [] == EncodeAll(s) && Chars(s) + Pieces([]) == Chars(s);
  }

  lemma {:induction false} ValidKeep(s: Text)
    ensures Replacing(Chars(s)) == s
  {
    if s != [] {
      ValidKeep(s[1..]);
      assert Chars(s)[1..] == Chars(s[1..]);
    }
  }
}
