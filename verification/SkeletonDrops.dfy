/** Which code points an index may leave out without ever hiding a reserved name. */
module SkeletonDrops {
  import opened Results
  import opened Confusables
  import opened Skeletons

  /** p, l, n and t: the letters of the reserved skeleton. */
  const LETTERS: set<nat> := {0x70, 0x6C, 0x6E, 0x74}

  /** The fold that also drops every code point of `d`. */
  function Without(f: FoldMap, d: nat -> bool): FoldMap {
    cp => if d(cp) then None else f(cp)
  }

  predicate Finds(f: FoldMap, s: Text) { Contains(Skeleton(f, s), RESERVED) }

  /** A cut of the skeleton comes from a cut of the text. */
  lemma {:induction false} CutSkeleton(f: FoldMap, s: Text, k: nat) returns (n: nat)
    requires k <= |Skeleton(f, s)|
    ensures n <= |s| && Skeleton(f, s[..n]) == Skeleton(f, s)[..k] && Skeleton(f, s[n..]) == Skeleton(f, s)[k..]
  {
    if k == 0 {
      n := 0;
      assert s[..0] == [] && s[0..] == s;
    } else {
      var m := CutSkeleton(f, s[1..], if SkeletonByte(f, s[0]).None? then k else k - 1);
      n := m + 1;
      assert s[..n][0] == s[0] && s[..n][1..] == s[1..][..m];
      assert s[n..] == s[1..][m..];
    }
  }

  /** Text whose skeleton uses only the reserved letters keeps its skeleton. */
  lemma {:induction false} LettersKept(f: FoldMap, d: nat -> bool, s: Text)
    requires forall cp :: d(cp) && SkeletonByte(f, cp).Some? ==> SkeletonByte(f, cp).value !in LETTERS
    requires forall i :: 0 <= i < |Skeleton(f, s)| ==> Skeleton(f, s)[i] in LETTERS
    ensures Skeleton(Without(f, d), s) == Skeleton(f, s)
  {
    if s != [] {
      var rest := Skeleton(f, s[1..]);
      match SkeletonByte(f, s[0])
      case None =>
        assert Skeleton(f, s) == rest;
        LettersKept(f, d, s[1..]);
      case Some(b) =>
        assert Skeleton(f, s)[0] == b;
        assert forall i :: 0 <= i < |rest| ==> rest[i] == Skeleton(f, s)[i + 1];
        LettersKept(f, d, s[1..]);
    }
  }

  lemma DropsKeepHits(f: FoldMap, d: nat -> bool, s: Text)
    requires forall cp :: d(cp) && SkeletonByte(f, cp).Some? ==> SkeletonByte(f, cp).value !in LETTERS
    ensures Finds(f, s) ==> Finds(Without(f, d), s)
  {
    if Finds(f, s) {
      var i :| 0 <= i <= |Skeleton(f, s)| - |RESERVED| && At(Skeleton(f, s), RESERVED, i);
      var n := CutSkeleton(f, s, i);
      var m := CutSkeleton(f, s[n..], 5);
      var hit := s[n..][..m];
      assert Skeleton(f, hit) == RESERVED;
      LettersKept(f, d, hit);
      var g := Without(f, d);
      var before, after := s[..n], s[n..][m..];
      assert s == before + hit + after;
      SkeletonAppend(g, before + hit, after);
      SkeletonAppend(g, before, hit);
      assert At(RESERVED, RESERVED, 0);
      ContainsInLonger(Skeleton(g, before), RESERVED, Skeleton(g, after));
    }
  }

  /** The letters of the reserved word are their own skeleton, under any map that keeps ASCII. */
  lemma LettersFold(f: FoldMap)
    requires AsciiIdentity(f)
    ensures forall c :: c in RESERVED ==> SkeletonByte(f, c) == Some(c)
  {
  }

  /** A dropped code point that stood for a reserved letter hides a hit: spell the word with it. */
  lemma DropHidesHit(f: FoldMap, d: nat -> bool, cp: nat) returns (s: Text)
    requires AsciiIdentity(f) && (forall c :: 0 <= c < ASCII ==> !d(c))
    requires d(cp) && SkeletonByte(f, cp).Some? && SkeletonByte(f, cp).value in LETTERS
    ensures Finds(f, s) && !Finds(Without(f, d), s)
  {
    var b := SkeletonByte(f, cp).value;
    var i := if b == 0x70 then 0 else if b == 0x6C then 1 else if b == 0x6E then 3 else 4;
    var before, after := RESERVED[..i], RESERVED[i + 1..];
    s := before + [cp] + after;
    assert RESERVED == before + [b] + after;
    LettersFold(f);
    LettersFold(Without(f, d));
    SpellWith(f, before, cp, after);
    SpellWith(Without(f, d), before, cp, after);
    assert At(RESERVED, RESERVED, 0);
    assert |before + [] + after| == 4;
  }

  /** A word of plain letters around one other code point. */
  lemma SpellWith(f: FoldMap, before: Text, cp: nat, after: Text)
    requires forall c :: c in before + after ==> SkeletonByte(f, c) == Some(c)
    ensures Skeleton(f, before + [cp] + after)
         == before + (match SkeletonByte(f, cp) case None => [] case Some(b) => [b]) + after
  {
    forall i | 0 <= i < |before| ensures SkeletonByte(f, before[i]) == Some(before[i]) {
      assert before[i] in before + after;
    }
    forall i | 0 <= i < |after| ensures SkeletonByte(f, after[i]) == Some(after[i]) {
      assert after[i] in before + after;
    }
    PlainSkeleton(f, before);
    PlainSkeleton(f, after);
    SkeletonAppend(f, before + [cp], after);
    SkeletonAppend(f, before, [cp]);
    assert [cp][1..] == [] && Skeleton(f, []) == [];
  }

  /** Lowercase letters other than the l-class are their own skeleton. */
  lemma {:induction false} PlainSkeleton(f: FoldMap, s: Text)
    requires forall i :: 0 <= i < |s| ==> SkeletonByte(f, s[i]) == Some(s[i])
    ensures Skeleton(f, s) == s
  {
    if s != [] {
      PlainSkeleton(f, s[1..]);
    }
  }

  /**
   * Dropping a set of non-ASCII code points never hides a hit, whatever the map and the text, if and
   * only if none of them stands for p, l, n or t.
   */
  lemma DroppingNeverHidesIff(f: FoldMap, d: nat -> bool)
    requires AsciiIdentity(f) && (forall c :: 0 <= c < ASCII ==> !d(c))
    ensures (forall s :: Finds(f, s) ==> Finds(Without(f, d), s))
        <==> (forall cp :: d(cp) && SkeletonByte(f, cp).Some? ==> SkeletonByte(f, cp).value !in LETTERS)
  {
    if forall cp :: d(cp) && SkeletonByte(f, cp).Some? ==> SkeletonByte(f, cp).value !in LETTERS {
      forall s ensures Finds(f, s) ==> Finds(Without(f, d), s) {
        DropsKeepHits(f, d, s);
      }
    } else {
      var cp :| d(cp) && SkeletonByte(f, cp).Some? && SkeletonByte(f, cp).value in LETTERS;
      var s := DropHidesHit(f, d, cp);
    }
  }

  // ------------------------------------------------------------ the generator's own drops

  /** The resolved map outside the rules, before the brand filter. */
  function Unfiltered(resolve: nat -> Option<nat>): nat -> Option<nat> {
    cp => if ByRule(cp).Some? then None else resolve(cp)
  }

  function Filtered(resolve: nat -> Option<nat>, base: set<nat>): nat -> Option<nat> {
    cp => Kept(resolve, base, cp)
  }

  lemma {:induction false} SameFold(f: FoldMap, g: FoldMap, s: Text)
    requires forall cp :: f(cp) == g(cp)
    ensures Skeleton(f, s) == Skeleton(g, s)
  {
    if s != [] {
      SameFold(f, g, s[1..]);
    }
  }

  /** Keeping only the brand's letters in the table never hides a reserved name. */
  lemma BrandFilterNeverHides(resolve: nat -> Option<nat>, base: set<nat>, s: Text)
    requires forall cp :: resolve(cp).Some? ==> AsciiSkeleton(resolve(cp).value) == resolve(cp)
    ensures Finds(TableFold(Unfiltered(resolve)), s) ==> Finds(TableFold(Filtered(resolve, base)), s)
  {
    var f, g := TableFold(Unfiltered(resolve)), TableFold(Filtered(resolve, base));
    var d := (cp: nat) => cp >= ASCII && ByRule(cp).None? && resolve(cp).Some? && cp !in base && resolve(cp).value !in BRAND;
    forall cp | d(cp) && SkeletonByte(f, cp).Some? ensures SkeletonByte(f, cp).value !in LETTERS {
      assert f(cp) == resolve(cp);
    }
    DropsKeepHits(f, d, s);
    SameFold(Without(f, d), g, s);
  }
}
