/** The reserved-name index: a code point map compressed into ranges, and the search that reads it back. */
module Confusables {
  import opened Results

  const CODE_POINTS: nat := 0x110000
  const ASCII: nat := 0x80

  /** An inclusive range of code points with one output byte. */
  datatype Row = Row(first: nat, last: nat, out: nat)

  // ------------------------------------------------------------ the arithmetic rules

  /** The generator's rules for whole blocks of styled letters and digits, in its order. */
  function ByRule(cp: nat): Option<nat> {
    if 0xFF01 <= cp <= 0xFF5E then Some(cp - 0xFF01 + 0x21)
    else if 0x24B6 <= cp <= 0x24CF then Some(0x41 + cp - 0x24B6)
    else if 0x24D0 <= cp <= 0x24E9 then Some(0x61 + cp - 0x24D0)
    else if 0x249C <= cp <= 0x24B5 then Some(0x61 + cp - 0x249C)
    else if 0x1F130 <= cp <= 0x1F189 && (cp - 0x1F130) % 32 < 26 then Some(0x41 + (cp - 0x1F130) % 32)
    else if 0x1D400 <= cp <= 0x1D6A3 then
      var k := (cp - 0x1D400) % 52;
      Some(if k < 26 then 0x41 + k else 0x61 + k - 26)
    else if 0x1D7CE <= cp <= 0x1D7FF then Some(0x30 + (cp - 0x1D7CE) % 10)
    else None
  }

  /** The client's and the program's rules, in theirs. */
  function FoldByRule(cp: nat): Option<nat> {
    if 0xFF01 <= cp <= 0xFF5E then Some(cp - 0xFF01 + 0x21)
    else if 0x249C <= cp <= 0x24B5 then Some(0x61 + (cp - 0x249C))
    else if 0x24B6 <= cp <= 0x24CF then Some(0x41 + (cp - 0x24B6))
    else if 0x24D0 <= cp <= 0x24E9 then Some(0x61 + (cp - 0x24D0))
    else if 0x1F130 <= cp <= 0x1F189 && (cp - 0x1F130) % 32 < 26 then Some(0x41 + (cp - 0x1F130) % 32)
    else if 0x1D400 <= cp <= 0x1D6A3 then
      var k := (cp - 0x1D400) % 52;
      if k < 26 then Some(0x41 + k) else Some(0x61 + (k - 26))
    else if 0x1D7CE <= cp <= 0x1D7FF then Some(0x30 + (cp - 0x1D7CE) % 10)
    else None
  }

  /** Every ruled code point is outside ASCII and stands for a printable ASCII character; no two blocks overlap. */
  lemma RuledArePrintable(cp: nat)
    requires ByRule(cp).Some?
    ensures ASCII <= cp < CODE_POINTS && 0x21 <= ByRule(cp).value <= 0x7E
    ensures FoldByRule(cp) == ByRule(cp)
  {
  }

  // ------------------------------------------------------------ the map that is compressed

  /** The brand's letters: a, l, n, o, p and t. */
  const BRAND: set<nat> := {0x61, 0x6C, 0x6E, 0x6F, 0x70, 0x74}

  /** What the table keeps of a resolved map: no ruled code point, and off the hand-picked ones only brand letters. */
  function Kept(resolve: nat -> Option<nat>, base: set<nat>, cp: nat): Option<nat> {
    if ByRule(cp).Some? then None
    else match resolve(cp)
      case None => None
      case Some(out) => if cp !in base && out !in BRAND then None else Some(out)
  }

  predicate Covers(row: Row, cp: nat) { row.first <= cp <= row.last }

  predicate Ascending(rows: seq<Row>) {
    && (forall i :: 0 <= i < |rows| ==> rows[i].first <= rows[i].last)
    && (forall i, j :: 0 <= i < j < |rows| ==> rows[i].last < rows[j].first)
  }

  /** No two neighbouring rows could have been one. */
  predicate Maximal(rows: seq<Row>) {
    forall i :: 0 <= i < |rows| - 1 ==> rows[i].last + 1 < rows[i + 1].first || rows[i].out != rows[i + 1].out
  }

  predicate Listed(rows: seq<Row>, cp: nat) {
    exists i :: 0 <= i < |rows| && Covers(rows[i], cp)
  }

  /** Between `lo` and `hi` the rows say exactly what the map says, and they say nothing elsewhere. */
  ghost predicate Agrees(rows: seq<Row>, kept: nat -> Option<nat>, lo: nat, hi: nat) {
    && (forall i: nat, cp: nat {:trigger Covers(rows[i], cp)} :: i < |rows| && Covers(rows[i], cp) ==>
          lo <= cp < hi && kept(cp) == Some(rows[i].out))
    && (forall cp: nat :: lo <= cp < hi && kept(cp).Some? ==> Listed(rows, cp))
  }

  ghost predicate IsIndex(rows: seq<Row>, kept: nat -> Option<nat>) {
    Ascending(rows) && Maximal(rows) && Agrees(rows, kept, ASCII, CODE_POINTS)
  }

  /** One code point of the generator's loop: extend the last row or start a new one. */
  lemma ExtendLast(rows: seq<Row>, kept: nat -> Option<nat>, lo: nat, cp: nat)
    requires Ascending(rows) && Maximal(rows) && Agrees(rows, kept, lo, cp)
    requires rows != [] && rows[|rows| - 1].last == cp - 1 && kept(cp) == Some(rows[|rows| - 1].out)
    ensures var n := |rows| - 1;
            var next := rows[n := rows[n].(last := cp)];
            Ascending(next) && Maximal(next) && Agrees(next, kept, lo, cp + 1)
  {
    var n := |rows| - 1;
    var next := rows[n := rows[n].(last := cp)];
    assert Covers(rows[n], rows[n].last);
    forall i: nat, x: nat {:trigger Covers(next[i], x)} | i < |next| && Covers(next[i], x)
      ensures lo <= x < cp + 1 && kept(x) == Some(next[i].out)
    {
      if x != cp || i != n {
        assert Covers(rows[i], x);
      }
    }
    forall x: nat | lo <= x < cp + 1 && kept(x).Some? ensures Listed(next, x) {
      if x == cp {
        assert Covers(next[n], x);
      } else {
        assert Listed(rows, x);
        var i :| 0 <= i < |rows| && Covers(rows[i], x);
        assert Covers(next[i], x);
      }
    }
  }

  lemma StartRow(rows: seq<Row>, kept: nat -> Option<nat>, lo: nat, cp: nat, out: nat)
    requires Ascending(rows) && Maximal(rows) && Agrees(rows, kept, lo, cp) && lo <= cp
    requires kept(cp) == Some(out)
    requires rows == [] || rows[|rows| - 1].last != cp - 1 || rows[|rows| - 1].out != out
    ensures var next := rows + [Row(cp, cp, out)];
            Ascending(next) && Maximal(next) && Agrees(next, kept, lo, cp + 1)
  {
    var next := rows + [Row(cp, cp, out)];
    forall i | 0 <= i < |rows| ensures rows[i].last < cp {
      assert Covers(rows[i], rows[i].last);
    }
    forall i: nat, x: nat {:trigger Covers(next[i], x)} | i < |next| && Covers(next[i], x)
      ensures lo <= x < cp + 1 && kept(x) == Some(next[i].out)
    {
      if i < |rows| {
        assert Covers(rows[i], x);
      }
    }
    forall x: nat | lo <= x < cp + 1 && kept(x).Some? ensures Listed(next, x) {
      if x == cp {
        assert Covers(next[|rows|], x);
      } else {
        assert Listed(rows, x);
        var i :| 0 <= i < |rows| && Covers(rows[i], x);
        assert Covers(next[i], x);
      }
    }
  }

  lemma SkipCodePoint(rows: seq<Row>, kept: nat -> Option<nat>, lo: nat, cp: nat)
    requires Agrees(rows, kept, lo, cp) && kept(cp).None?
    ensures Agrees(rows, kept, lo, cp + 1)
  {
  }

  /** The generator: one pass over the code points, merging a run of equal outputs into one row. */
  method BuildTable(resolve: nat -> Option<nat>, base: set<nat>) returns (rows: seq<Row>)
    ensures IsIndex(rows, cp => Kept(resolve, base, cp))
  {
    rows := [];
    var kept := (cp: nat) => Kept(resolve, base, cp);
    for cp := ASCII to CODE_POINTS
      invariant Ascending(rows) && Maximal(rows) && Agrees(rows, kept, ASCII, cp)
    {
      var out := resolve(cp);
      if ByRule(cp).Some? || out.None? || (cp !in base && out.value !in BRAND) {
        SkipCodePoint(rows, kept, ASCII, cp);
      } else {
        var n := |rows| - 1;
        if rows != [] && rows[n].last == cp - 1 && rows[n].out == out.value {
          ExtendLast(rows, kept, ASCII, cp);
          rows := rows[n := rows[n].(last := cp)];
        } else {
          StartRow(rows, kept, ASCII, cp, out.value);
          rows := rows + [Row(cp, cp, out.value)];
        }
      }
    }
  }

  /**
   * The table lists exactly the non-ASCII code points outside the ruled blocks that resolve, and off the
   * hand-picked ones only those that resolve to a, l, n, o, p or t.
   */
  lemma ListedIff(rows: seq<Row>, resolve: nat -> Option<nat>, base: set<nat>, cp: nat)
    requires IsIndex(rows, x => Kept(resolve, base, x))
    ensures Listed(rows, cp) <==>
              && 0x80 <= cp < 0x110000 && FoldByRule(cp).None? && resolve(cp).Some?
              && (cp in base || resolve(cp).value in {0x61, 0x6C, 0x6E, 0x6F, 0x70, 0x74})
  {
    var kept := (x: nat) => Kept(resolve, base, x);
    if Listed(rows, cp) {
      var i :| 0 <= i < |rows| && Covers(rows[i], cp);
      assert kept(cp) == Some(rows[i].out);
    }
  }

  // ------------------------------------------------------------ the search

  /** What a code point folds to: itself below 0x80, then the rules, then the map; None when it is dropped. */
  function Fold(kept: nat -> Option<nat>, cp: nat): Option<nat> {
    if cp < ASCII then Some(cp)
    else if ByRule(cp).Some? then ByRule(cp)
    else kept(cp)
  }

  /** The lookup of the client and the program: for every code point exactly what the map says. */
  method FoldToAscii(rows: seq<Row>, ghost kept: nat -> Option<nat>, cp: nat) returns (r: Option<nat>)
    requires IsIndex(rows, kept) && cp < CODE_POINTS
    ensures r == Fold(kept, cp)
  {
    if cp < ASCII { return Some(cp); }
    var ruled := FoldByRule(cp);
    if ruled.Some? { return ruled; }
    var lo: int, hi: int := 0, |rows| - 1;
    while lo <= hi
      invariant 0 <= lo <= hi + 1 <= |rows|
      invariant forall i :: 0 <= i < |rows| && Covers(rows[i], cp) ==> lo <= i <= hi
    {
      var mid := (lo + hi) / 2;
      var row := rows[mid];
      if row.last < cp {
        lo := mid + 1;
      } else if row.first > cp {
        hi := mid - 1;
      } else {
        assert Covers(rows[mid], cp);
        return Some(row.out);
      }
    }
    return None;
  }

  /** The letter or digit `k` of each block of styled ones folds to the plain one, whatever the map says. */
  lemma StyledLetters(kept: nat -> Option<nat>, k: nat)
    ensures k < 94 ==> Fold(kept, 0xFF01 + k) == Some(0x21 + k)
    ensures k < 26 ==> Fold(kept, 0x249C + k) == Some(0x61 + k)
    ensures k < 26 ==> Fold(kept, 0x24B6 + k) == Some(0x41 + k) && Fold(kept, 0x24D0 + k) == Some(0x61 + k)
    ensures k < 26 ==> Fold(kept, 0x1F130 + k) == Some(0x41 + k) && Fold(kept, 0x1F150 + k) == Some(0x41 + k)
                       && Fold(kept, 0x1F170 + k) == Some(0x41 + k)
    ensures forall style: nat :: style < 13 && k < 26 ==>
              Fold(kept, 0x1D400 + 52 * style + k) == Some(0x41 + k) && Fold(kept, 0x1D400 + 52 * style + 26 + k) == Some(0x61 + k)
    ensures forall style: nat :: style < 5 && k < 10 ==> Fold(kept, 0x1D7CE + 10 * style + k) == Some(0x30 + k)
  {
    forall style: nat | style < 13 && k < 26
      ensures Fold(kept, 0x1D400 + 52 * style + k) == Some(0x41 + k) && Fold(kept, 0x1D400 + 52 * style + 26 + k) == Some(0x61 + k)
    {
      assert (52 * style + k) % 52 == k && (52 * style + 26 + k) % 52 == 26 + k;
    }
    forall style: nat | style < 5 && k < 10 ensures Fold(kept, 0x1D7CE + 10 * style + k) == Some(0x30 + k) {
      assert (10 * style + k) % 10 == k;
    }
  }

  // ------------------------------------------------------------ the index is canonical

  lemma FirstRow(rows: seq<Row>, kept: nat -> Option<nat>, lo: nat, hi: nat)
    requires Ascending(rows) && Agrees(rows, kept, lo, hi) && rows != []
    ensures lo <= rows[0].first < hi && kept(rows[0].first) == Some(rows[0].out)
    ensures forall cp: nat :: lo <= cp < rows[0].first ==> kept(cp).None?
  {
    assert Covers(rows[0], rows[0].first);
    forall cp: nat | lo <= cp < rows[0].first ensures kept(cp).None? {
      forall i | 0 <= i < |rows| ensures !Covers(rows[i], cp) {
        assert i > 0 ==> rows[0].last < rows[i].first;
      }
      assert !Listed(rows, cp);
    }
  }

  /** The first row ends where the map first changes. */
  lemma FirstRowEnds(rows: seq<Row>, kept: nat -> Option<nat>, lo: nat, hi: nat)
    requires Ascending(rows) && Maximal(rows) && Agrees(rows, kept, lo, hi) && rows != []
    ensures rows[0].last < hi
    ensures forall cp: nat :: rows[0].first <= cp <= rows[0].last ==> kept(cp) == Some(rows[0].out)
    ensures rows[0].last + 1 < hi ==> kept(rows[0].last + 1) != Some(rows[0].out)
  {
    forall cp: nat | rows[0].first <= cp <= rows[0].last ensures cp < hi && kept(cp) == Some(rows[0].out) {
      assert Covers(rows[0], cp);
    }
    assert Covers(rows[0], rows[0].last);
    var next := rows[0].last + 1;
    if next < hi && kept(next).Some? {
      assert Listed(rows, next);
      var i :| 0 <= i < |rows| && Covers(rows[i], next);
      assert forall j :: 1 < j < |rows| ==> rows[0].last < rows[1].first <= rows[1].last < rows[j].first;
      assert i == 1;
    }
  }

  lemma RestAgrees(rows: seq<Row>, kept: nat -> Option<nat>, lo: nat, hi: nat)
    requires Ascending(rows) && Maximal(rows) && Agrees(rows, kept, lo, hi) && rows != []
    ensures Ascending(rows[1..]) && Maximal(rows[1..]) && Agrees(rows[1..], kept, rows[0].last + 1, hi)
  {
    var rest := rows[1..];
    forall i: nat, cp: nat {:trigger Covers(rest[i], cp)} | i < |rest| && Covers(rest[i], cp)
      ensures rows[0].last + 1 <= cp < hi && kept(cp) == Some(rest[i].out)
    {
      assert Covers(rows[i + 1], cp) && rows[0].last < rows[i + 1].first;
    }
    forall cp: nat | rows[0].last + 1 <= cp < hi && kept(cp).Some? ensures Listed(rest, cp) {
      FirstRow(rows, kept, lo, hi);
      assert Listed(rows, cp);
      var i :| 0 <= i < |rows| && Covers(rows[i], cp);
      assert i > 0;
      assert Covers(rest[i - 1], cp);
    }
  }

  /** A map has only one such index, so independently generated tables of one map are identical. */
  lemma {:induction false} IndexIsUnique(rows: seq<Row>, other: seq<Row>, kept: nat -> Option<nat>, lo: nat, hi: nat)
    requires Ascending(rows) && Maximal(rows) && Agrees(rows, kept, lo, hi)
    requires Ascending(other) && Maximal(other) && Agrees(other, kept, lo, hi)
    ensures rows == other
    decreases |rows|
  {
    if rows == [] {
      if other != [] {
        FirstRow(other, kept, lo, hi);
      }
    } else {
      FirstRow(rows, kept, lo, hi);
      assert other != [];
      FirstRow(other, kept, lo, hi);
      FirstRowEnds(rows, kept, lo, hi);
      FirstRowEnds(other, kept, lo, hi);
      SameFirstRow(rows[0], other[0], kept, lo, hi);
      RestAgrees(rows, kept, lo, hi);
      RestAgrees(other, kept, lo, hi);
      IndexIsUnique(rows[1..], other[1..], kept, rows[0].last + 1, hi);
      assert rows == [rows[0]] + rows[1..] && other == [other[0]] + other[1..];
    }
  }

  /** A maximal run of one output from the first mapped code point on. */
  predicate FirstRun(row: Row, kept: nat -> Option<nat>, lo: nat, hi: nat) {
    && lo <= row.first <= row.last < hi
    && (forall cp: nat :: lo <= cp < row.first ==> kept(cp).None?)
    && (forall cp: nat :: row.first <= cp <= row.last ==> kept(cp) == Some(row.out))
    && (row.last + 1 < hi ==> kept(row.last + 1) != Some(row.out))
  }

  lemma SameFirstRow(a: Row, b: Row, kept: nat -> Option<nat>, lo: nat, hi: nat)
    requires FirstRun(a, kept, lo, hi) && FirstRun(b, kept, lo, hi)
    ensures a == b
  {
    assert kept(a.first) == Some(a.out) && kept(b.first) == Some(b.out);
    assert a.first == b.first;
    RunEndsFirst(a, b, kept, lo, hi);
    RunEndsFirst(b, a, kept, lo, hi);
  }

  lemma RunEndsFirst(a: Row, b: Row, kept: nat -> Option<nat>, lo: nat, hi: nat)
    requires FirstRun(a, kept, lo, hi) && FirstRun(b, kept, lo, hi) && a.first == b.first && a.out == b.out
    ensures b.last <= a.last
  {
    var next: nat := a.last + 1;
    assert b.first <= next <= b.last ==> kept(next) == Some(b.out);
  }
}
