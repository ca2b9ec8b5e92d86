/** Skeletons of token names: the client's test, the program's sliding window, and what neither can miss. */
module Skeletons {
  import opened Results
  import opened Confusables
  import opened Positional

  /** What one field of one token folds by: the total map from code points to ASCII bytes. */
  type FoldMap = nat -> Option<nat>

  type Text = seq<nat>

  /** "pllnt", the skeleton of "plint". */
  const RESERVED: seq<nat> := [0x70, 0x6C, 0x6C, 0x6E, 0x74]

  predicate IsBidi(cp: nat) {
    cp == 0x061C || cp == 0x200E || cp == 0x200F || 0x202A <= cp <= 0x202E || 0x2066 <= cp <= 0x2069
  }

  /** One skeleton byte per letter or digit: case is lost, everything that looks like an l becomes one, zero becomes o. */
  function AsciiSkeleton(c: nat): Option<nat> {
    if 0x41 <= c <= 0x5A || 0x61 <= c <= 0x7A || 0x30 <= c <= 0x39 || c == 0x7C || c == 0x21 then
      var lower := if 0x41 <= c <= 0x5A then c + 0x20 else c;
      if lower == 0x69 || lower == 0x31 || lower == 0x7C || lower == 0x21 then Some(0x6C)
      else if lower == 0x30 then Some(0x6F)
      else Some(lower)
    else None
  }

  /** The generator's fold of an ASCII character: lower case first, then alphanumeric or one of | and !. */
  function GeneratorFold(c: nat): Option<nat> {
    var lower := if 0x41 <= c <= 0x5A then c + 0x20 else c;
    if !(0x61 <= lower <= 0x7A || 0x30 <= lower <= 0x39 || lower == 0x7C || lower == 0x21) then None
    else if lower == 0x69 || lower == 0x31 || lower == 0x7C || lower == 0x21 then Some(0x6C)
    else if lower == 0x30 then Some(0x6F)
    else Some(lower)
  }

  /** Generator and client fold ASCII alike, and folding twice is folding once. */
  lemma FoldsAgree(c: nat)
    ensures GeneratorFold(c) == AsciiSkeleton(c)
    ensures AsciiSkeleton(c).Some? ==> AsciiSkeleton(AsciiSkeleton(c).value) == AsciiSkeleton(c)
  {
  }

  function SkeletonByte(f: FoldMap, cp: nat): Option<nat> {
    match f(cp)
    case None => None
    case Some(c) => AsciiSkeleton(c)
  }

  function Skeleton(f: FoldMap, s: Text): Text {
    if s == [] then []
    else match SkeletonByte(f, s[0])
      case None => Skeleton(f, s[1..])
      case Some(b) => [b] + Skeleton(f, s[1..])
  }

  predicate At(s: Text, pattern: Text, i: int) {
    0 <= i <= |s| - |pattern| && s[i..i + |pattern|] == pattern
  }

  predicate Contains(s: Text, pattern: Text) {
    exists i :: 0 <= i <= |s| - |pattern| && At(s, pattern, i)
  }

  predicate HasBidi(s: Text) {
    exists i :: 0 <= i < |s| && IsBidi(s[i])
  }

  predicate FieldReserved(f: FoldMap, s: Text) {
    HasBidi(s) || Contains(Skeleton(f, s), RESERVED)
  }

  /** The fold the generated table gives. */
  function TableFold(kept: nat -> Option<nat>): FoldMap {
    cp => Fold(kept, cp)
  }

  predicate Scalars(s: Text) {
    forall i :: 0 <= i < |s| ==> s[i] < CODE_POINTS
  }

  // ------------------------------------------------------------ the client

  lemma {:induction false} SkeletonAppend(f: FoldMap, s: Text, t: Text)
    ensures Skeleton(f, s + t) == Skeleton(f, s) + Skeleton(f, t)
  {
    if s == [] {
      assert s + t == t;
    } else {
      assert (s + t)[1..] == s[1..] + t;
      SkeletonAppend(f, s[1..], t);
    }
  }

  lemma SkeletonStep(f: FoldMap, s: Text, i: nat)
    requires i < |s|
    ensures Skeleton(f, s[..i + 1])
         == Skeleton(f, s[..i]) + (if SkeletonByte(f, s[i]).Some? then [SkeletonByte(f, s[i]).value] else [])
  {
    assert s[..i + 1] == s[..i] + [s[i]];
    SkeletonAppend(f, s[..i], [s[i]]);
    assert [s[i]][1..] == [];
    assert Skeleton(f, []) == [];
  }

  method TokenNameSkeleton(rows: seq<Row>, ghost kept: nat -> Option<nat>, s: Text) returns (out: Text)
    requires IsIndex(rows, kept) && Scalars(s)
    ensures out == Skeleton(TableFold(kept), s)
  {
    out := [];
    for i := 0 to |s|
      invariant out == Skeleton(TableFold(kept), s[..i])
    {
      SkeletonStep(TableFold(kept), s, i);
      var ascii := FoldToAscii(rows, kept, s[i]);
      if ascii.Some? {
        var b := AsciiSkeleton(ascii.value);
        if b.Some? { out := out + [b.value]; }
      }
    }
    assert s[..|s|] == s;
  }

  method IsReservedTokenName(rows: seq<Row>, ghost kept: nat -> Option<nat>, name: Text, symbol: Text) returns (r: bool)
    requires IsIndex(rows, kept) && Scalars(name) && Scalars(symbol)
    ensures r <==> FieldReserved(TableFold(kept), name) || FieldReserved(TableFold(kept), symbol)
  {
    var skeleton := TokenNameSkeleton(rows, kept, name);
    r := HasBidi(name) || Contains(skeleton, RESERVED);
    if !r {
      skeleton := TokenNameSkeleton(rows, kept, symbol);
      r := HasBidi(symbol) || Contains(skeleton, RESERVED);
    }
  }

  // ------------------------------------------------------------ the program

  /** The last bytes of a skeleton that a five-byte window still holds. */
  function Window(s: Text): Text {
    if |s| <= 5 then s else s[|s| - 5..]
  }

  lemma ContainsStep(s: Text, b: nat)
    ensures Contains(s + [b], RESERVED) <==> Contains(s, RESERVED) || Window(s + [b]) == RESERVED
  {
    var t := s + [b];
    var last := |t| - 5;
    forall i | 0 <= i <= |s| - 5 ensures At(t, RESERVED, i) <==> At(s, RESERVED, i) {
      assert t[i..i + 5] == s[i..i + 5];
    }
    if last >= 0 {
      assert t[last..last + 5] == Window(t);
      assert At(t, RESERVED, last) <==> Window(t) == RESERVED;
    }
    if Contains(t, RESERVED) {
      var i :| 0 <= i <= |t| - |RESERVED| && At(t, RESERVED, i);
      assert i == last || At(s, RESERVED, i);
    }
    if Contains(s, RESERVED) {
      var i :| 0 <= i <= |s| - |RESERVED| && At(s, RESERVED, i);
      assert At(t, RESERVED, i);
    }
  }

  lemma BidiStep(s: Text, i: nat)
    requires i < |s|
    ensures HasBidi(s[..i + 1]) <==> HasBidi(s[..i]) || IsBidi(s[i])
  {
    var t := s[..i + 1];
    assert t[i] == s[i];
    assert forall j :: 0 <= j < i ==> t[j] == s[..i][j];
  }

  lemma ContainsInLonger(before: Text, s: Text, after: Text)
    ensures Contains(s, RESERVED) ==> Contains(before + s + after, RESERVED)
  {
    var t := before + s + after;
    if Contains(s, RESERVED) {
      var i :| 0 <= i <= |s| - |RESERVED| && At(s, RESERVED, i);
      assert t[|before| + i..|before| + i + 5] == s[i..i + 5];
      assert At(t, RESERVED, |before| + i);
    }
  }

  predicate Hit(f: FoldMap, s: Text, bidiReserved: bool) {
    (bidiReserved && HasBidi(s)) || Contains(Skeleton(f, s), RESERVED)
  }

  /** One more code point makes a hit where it is a bidi control or completes the window. */
  lemma HitStep(f: FoldMap, s: Text, i: nat, bidiReserved: bool)
    requires i < |s|
    ensures Hit(f, s[..i + 1], bidiReserved) <==>
            || Hit(f, s[..i], bidiReserved) || (bidiReserved && IsBidi(s[i]))
            || (SkeletonByte(f, s[i]).Some? && Window(Skeleton(f, s[..i + 1])) == RESERVED)
  {
    BidiStep(s, i);
    SkeletonStep(f, s, i);
    if SkeletonByte(f, s[i]).Some? {
      ContainsStep(Skeleton(f, s[..i]), SkeletonByte(f, s[i]).value);
    } else {
      assert Skeleton(f, s[..i]) + [] == Skeleton(f, s[..i]);
    }
  }

  /** The skeleton with one more code point. */
  function Extended(f: FoldMap, skeleton: Text, cp: nat): Text {
    match SkeletonByte(f, cp) case None => skeleton case Some(b) => skeleton + [b]
  }

  /** Append a byte to the window, dropping the oldest one when it is full. */
  method Slide(window: array<nat>, len: nat, b: nat, ghost skeleton: Text) returns (n: nat)
    requires window.Length == 5 && len <= 5 && window[..len] == Window(skeleton)
    modifies window
    ensures n == (if len < 5 then len + 1 else 5) && window[..n] == Window(skeleton + [b])
  {
    if len < window.Length {
      window[len] := b;
      n := len + 1;
      assert window[..n] == skeleton + [b];
    } else {
      ghost var was := window[..];
      forall i | 0 <= i < 4 { window[i] := window[i + 1]; }
      window[4] := b;
      n := len;
      assert window[..5] == was[1..5] + [b];
    }
  }

  /** One code point enters the window, or is dropped; `full` when the window then spells the reserved word. */
  method Feed(rows: seq<Row>, ghost kept: nat -> Option<nat>, window: array<nat>, len: nat, cp: nat, ghost skeleton: Text)
    returns (n: nat, full: bool)
    requires IsIndex(rows, kept) && cp < CODE_POINTS
    requires window.Length == 5 && len <= 5 && window[..len] == Window(skeleton)
    modifies window
    ensures n <= 5 && window[..n] == Window(Extended(TableFold(kept), skeleton, cp))
    ensures full <==> SkeletonByte(TableFold(kept), cp).Some? && Window(Extended(TableFold(kept), skeleton, cp)) == RESERVED
  {
    n, full := len, false;
    var ascii := FoldToAscii(rows, kept, cp);
    if ascii.Some? {
      var b := AsciiSkeleton(ascii.value);
      if b.Some? {
        n := Slide(window, len, b.value, skeleton);
        full := n == window.Length && window[..] == RESERVED;
        assert n == window.Length ==> window[..n] == window[..];
      }
    }
  }

  lemma NextSkeleton(f: FoldMap, s: Text, i: nat)
    requires i < |s|
    ensures Skeleton(f, s[..i + 1]) == Extended(f, Skeleton(f, s[..i]), s[i])
  {
    SkeletonStep(f, s, i);
    assert Skeleton(f, s[..i]) + [] == Skeleton(f, s[..i]);
  }

  /** The scan after some text: a hit, or the end of the skeleton in the window. */
  ghost predicate Scanned(f: FoldMap, window: array<nat>, len: nat, hit: bool, done: Text, bidiReserved: bool)
    reads window
  {
    && window.Length == 5 && len <= 5
    && (hit <==> Hit(f, done, bidiReserved))
    && (!hit ==> window[..len] == Window(Skeleton(f, done)))
  }

  /** The closure the program calls with every code point; after a hit it returns at once. */
  method ScanChar(rows: seq<Row>, ghost kept: nat -> Option<nat>, window: array<nat>, start: nat, found: bool,
                  ghost done: Text, cp: nat, bidiReserved: bool) returns (len: nat, hit: bool)
    requires IsIndex(rows, kept) && cp < CODE_POINTS
    requires Scanned(TableFold(kept), window, start, found, done, bidiReserved)
    modifies window
    ensures Scanned(TableFold(kept), window, len, hit, done + [cp], bidiReserved)
  {
    len, hit := start, found;
    ghost var read, n := done + [cp], |done|;
    assert read[..n] == done && read[..n + 1] == read;
    HitStep(TableFold(kept), read, n, bidiReserved);
    NextSkeleton(TableFold(kept), read, n);
    if hit { return; }
    if bidiReserved && IsBidi(cp) {
      hit := true;
      return;
    }
    len, hit := Feed(rows, kept, window, len, cp, Skeleton(TableFold(kept), done));
  }

  lemma OneMore(done: Text, s: Text, i: nat)
    requires i < |s|
    ensures (done + s[..i]) + [s[i]] == done + s[..i + 1]
  {
    assert s[..i + 1] == s[..i] + [s[i]];
  }

  /**
   * The program's scan goes on over more code points: a five-byte window slides over the skeleton,
   * which is never stored.
   */
  method ScanChars(rows: seq<Row>, ghost kept: nat -> Option<nat>, window: array<nat>, start: nat, found: bool,
                   ghost done: Text, s: Text, bidiReserved: bool) returns (len: nat, hit: bool)
    requires IsIndex(rows, kept) && Scalars(s) && Scanned(TableFold(kept), window, start, found, done, bidiReserved)
    modifies window
    ensures Scanned(TableFold(kept), window, len, hit, done + s, bidiReserved)
  {
    len, hit := start, found;
    ghost var f, read := TableFold(kept), done;
    assert done + s[..0] == done;
    for i := 0 to |s|
      invariant read == done + s[..i]
      invariant Scanned(f, window, len, hit, read, bidiReserved)
    {
      len, hit := ScanChar(rows, kept, window, len, hit, read, s[i], bidiReserved);
      OneMore(done, s, i);
      read := read + [s[i]];
    }
    assert done + s[..|s|] == done + s;
  }

  // ------------------------------------------------------------ what cannot hide a hit

  /** ASCII folds to itself; everything else may fold to anything. */
  predicate AsciiIdentity(f: FoldMap) {
    forall c :: 0 <= c < ASCII ==> f(c) == Some(c)
  }

  /** The skeleton of a skeleton is itself. */
  lemma {:induction false} SkeletonIdempotent(f: FoldMap, s: Text)
    requires AsciiIdentity(f)
    ensures Skeleton(f, Skeleton(f, s)) == Skeleton(f, s)
  {
    if s != [] {
      SkeletonIdempotent(f, s[1..]);
      match SkeletonByte(f, s[0])
      case None =>
      case Some(b) =>
        var rest := Skeleton(f, s[1..]);
        assert ([b] + rest)[0] == b && ([b] + rest)[1..] == rest;
        assert SkeletonByte(f, b) == Some(b);
    }
  }

  lemma BidiInLonger(before: Text, s: Text, after: Text)
    ensures HasBidi(before + s + after) <==> HasBidi(before) || HasBidi(s) || HasBidi(after)
  {
    var t := before + s + after;
    assert forall i :: 0 <= i < |before| ==> t[i] == before[i];
    assert forall i :: 0 <= i < |s| ==> t[|before| + i] == s[i];
    assert forall i :: 0 <= i < |after| ==> t[|before| + |s| + i] == after[i];
    if HasBidi(t) {
      var i :| 0 <= i < |t| && IsBidi(t[i]);
      assert i < |before| || (i < |before| + |s| && t[i] == s[i - |before|]) || t[i] == after[i - |before| - |s|];
    }
  }

  /** The bidirectional formatting characters: marks, embeddings, overrides and isolates. */
  const BIDI_CONTROLS: set<nat> := {
    0x061C, 0x200E, 0x200F, 0x202A, 0x202B, 0x202C, 0x202D, 0x202E, 0x2066, 0x2067, 0x2068, 0x2069
  }

  /** One of them anywhere reserves a field, whatever else it says; nothing else does by itself. */
  lemma BidiReserves(f: FoldMap, before: Text, cp: nat, after: Text)
    ensures cp in BIDI_CONTROLS ==> FieldReserved(f, before + [cp] + after)
    ensures cp !in BIDI_CONTROLS ==> (HasBidi(before + [cp] + after) <==> HasBidi(before) || HasBidi(after))
  {
    BidiInLonger(before, [cp], after);
    assert HasBidi([cp]) <==> IsBidi(cp) by { assert [cp][0] == cp; }
  }

  /** What the l of the reserved word may be written as, in either case. */
  const LOOKS_LIKE_L: set<nat> := {0x4C, 0x6C, 0x49, 0x69, 0x31, 0x7C, 0x21}

  /** The reserved word, with any look-alike for its two middle letters and in any case, is reserved. */
  lemma LookAlikesReserved(f: FoldMap, p: nat, l: nat, i: nat, n: nat, t: nat)
    requires AsciiIdentity(f)
    requires p in {0x50, 0x70} && l in LOOKS_LIKE_L && i in LOOKS_LIKE_L && n in {0x4E, 0x6E} && t in {0x54, 0x74}
    ensures FieldReserved(f, [p, l, i, n, t])
  {
    var s := [p, l, i, n, t];
    assert Skeleton(f, []) == [];
    assert [t][1..] == [] && [n, t][1..] == [t] && [i, n, t][1..] == [n, t] && [l, i, n, t][1..] == [i, n, t];
    assert s[1..] == [l, i, n, t];
    assert Skeleton(f, [t]) == [0x74] && Skeleton(f, [n, t]) == [0x6E, 0x74];
    assert Skeleton(f, [i, n, t]) == [0x6C, 0x6E, 0x74] && Skeleton(f, [l, i, n, t]) == [0x6C, 0x6C, 0x6E, 0x74];
    assert Skeleton(f, s) == RESERVED && At(RESERVED, RESERVED, 0);
  }

  /** A skeleton holds lower case letters other than i and the digits 2 to 9, and keeps all of them. */
  lemma SkeletonAlphabet(c: nat)
    ensures AsciiSkeleton(c).Some? ==>
              var b := AsciiSkeleton(c).value; (0x61 <= b <= 0x7A && b != 0x69) || 0x32 <= b <= 0x39
    ensures (0x61 <= c <= 0x7A && c != 0x69) || 0x32 <= c <= 0x39 ==> AsciiSkeleton(c) == Some(c)
    ensures 0x41 <= c <= 0x5A && c != 0x49 ==> AsciiSkeleton(c) == Some(c + 0x20)
    ensures c in LOOKS_LIKE_L <==> AsciiSkeleton(c) == Some(0x6C)
    ensures c in {0x30, 0x4F, 0x6F} <==> AsciiSkeleton(c) == Some(0x6F)
  {
  }

  /** A reserved name stays reserved inside any longer name. */
  lemma ReservedInLonger(f: FoldMap, before: Text, s: Text, after: Text)
    ensures FieldReserved(f, s) ==> FieldReserved(f, before + s + after)
  {
    BidiInLonger(before, s, after);
    SkeletonAppend(f, before + s, after);
    SkeletonAppend(f, before, s);
    ContainsInLonger(Skeleton(f, before), Skeleton(f, s), Skeleton(f, after));
  }

  /**
   * Inserting a dropped code point anywhere changes nothing, unless it is a bidi control, and that
   * reserves the name by itself. NUL padding and zero-width characters are such insertions.
   */
  lemma InsertDropped(f: FoldMap, before: Text, cp: nat, after: Text)
    requires SkeletonByte(f, cp).None?
    ensures FieldReserved(f, before + [cp] + after) <==> IsBidi(cp) || FieldReserved(f, before + after)
  {
    BidiInLonger(before, [cp], after);
    BidiInLonger(before, [], after);
    assert before + [] + after == before + after;
    assert HasBidi([cp]) <==> IsBidi(cp) by { assert [cp][0] == cp; }
    SkeletonAppend(f, before + [cp], after);
    SkeletonAppend(f, before, [cp]);
    SkeletonAppend(f, before, after);
    assert [cp][1..] == [] && Skeleton(f, [cp]) == Skeleton(f, []) == [];
    assert Skeleton(f, before) + [] == Skeleton(f, before);
  }

  /** The NUL padding a metadata field is stored with never changes the verdict. */
  lemma {:induction false} PaddingChangesNothing(f: FoldMap, s: Text, n: nat)
    requires AsciiIdentity(f)
    ensures FieldReserved(f, s + Zeros(n)) <==> FieldReserved(f, s)
    decreases n
  {
    if n == 0 {
      assert s + [] == s;
    } else {
      PaddingChangesNothing(f, s, n - 1);
      InsertDropped(f, s, 0, Zeros(n - 1));
      assert s + Zeros(n) == s + [0] + Zeros(n - 1);
    }
  }

  predicate SameLetter(c: nat, d: nat) {
    c == d || (0x41 <= c <= 0x5A && d == c + 0x20) || (0x41 <= d <= 0x5A && c == d + 0x20)
  }

  predicate SameButCase(s: Text, t: Text) {
    |s| == |t| && forall i :: 0 <= i < |s| ==> SameLetter(s[i], t[i])
  }

  /** The case of ASCII letters never matters. */
  lemma {:induction false} CaseChangesNothing(f: FoldMap, s: Text, t: Text)
    requires AsciiIdentity(f) && SameButCase(s, t)
    ensures Skeleton(f, s) == Skeleton(f, t) && (FieldReserved(f, s) <==> FieldReserved(f, t))
  {
    CaseKeepsSkeleton(f, s, t);
    assert forall i :: 0 <= i < |s| ==> SameLetter(s[i], t[i]) && (IsBidi(s[i]) <==> IsBidi(t[i]));
  }

  lemma {:induction false} CaseKeepsSkeleton(f: FoldMap, s: Text, t: Text)
    requires AsciiIdentity(f) && SameButCase(s, t)
    ensures Skeleton(f, s) == Skeleton(f, t)
  {
    if s != [] {
      CaseKeepsSkeleton(f, s[1..], t[1..]);
      assert SameLetter(s[0], t[0]);
      assert SkeletonByte(f, s[0]) == SkeletonByte(f, t[0]);
    }
  }
}
