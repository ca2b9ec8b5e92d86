/** The stable sort by pending quote that decides which positions a plan harvests first. */
module PositionOrder {
  import opened Market

  predicate Descending(ps: seq<Position>) {
    forall i, j :: 0 <= i < j < |ps| ==> ps[i].quote >= ps[j].quote
  }

  /** Place `p` before the first position that does not hold more quote. */
  function Insert(p: Position, ps: seq<Position>): seq<Position> {
    if ps == [] || ps[0].quote <= p.quote then [p] + ps else [ps[0]] + Insert(p, ps[1..])
  }

  /** Largest pending quote first; equal ones keep their order. */
  function SortByQuote(ps: seq<Position>): seq<Position> {
    if ps == [] then [] else Insert(ps[0], SortByQuote(ps[1..]))
  }

  /** The positions with exactly `quote` pending, in order. */
  function WithQuote(ps: seq<Position>, quote: nat): seq<Position> {
    if ps == [] then []
    else (if ps[0].quote == quote then [ps[0]] else []) + WithQuote(ps[1..], quote)
  }

  lemma {:induction false} InsertKeepsAll(p: Position, ps: seq<Position>)
    ensures multiset(Insert(p, ps)) == multiset([p]) + multiset(ps)
    ensures |Insert(p, ps)| == |ps| + 1
  {
    if ps == [] || ps[0].quote <= p.quote {
    } else {
      InsertKeepsAll(p, ps[1..]);
      assert ps == [ps[0]] + ps[1..];
    }
  }

  lemma {:induction false} InsertKeepsOrder(p: Position, ps: seq<Position>)
    requires Descending(ps)
    ensures Descending(Insert(p, ps))
    ensures ps != [] && ps[0].quote > p.quote ==> Insert(p, ps)[0] == ps[0]
    ensures ps == [] || ps[0].quote <= p.quote ==> Insert(p, ps)[0] == p
  {
    if ps == [] || ps[0].quote <= p.quote {
    } else {
      var rest := ps[1..];
      InsertKeepsOrder(p, rest);
      DescendingCons(ps[0], Insert(p, rest));
    }
  }

  lemma DescendingCons(p: Position, ps: seq<Position>)
    requires Descending(ps) && (ps == [] || p.quote >= ps[0].quote)
    ensures Descending([p] + ps)
  {
    var r := [p] + ps;
    forall i, j | 0 <= i < j < |r| ensures r[i].quote >= r[j].quote {
      assert r[j] == ps[j - 1];
      if i > 0 {
        assert r[i] == ps[i - 1];
      } else if j > 1 {
        assert ps[0].quote >= ps[j - 1].quote;
      }
    }
  }

  lemma {:induction false} InsertIsStable(p: Position, ps: seq<Position>, quote: nat)
    ensures WithQuote(Insert(p, ps), quote) == WithQuote([p] + ps, quote)
  {
    assert ([p] + ps)[1..] == ps;
    if ps == [] || ps[0].quote <= p.quote {
    } else {
      InsertIsStable(p, ps[1..], quote);
      assert ([p] + ps[1..])[1..] == ps[1..];
      assert ([ps[0]] + Insert(p, ps[1..]))[1..] == Insert(p, ps[1..]);
    }
  }

  /** The sort is a stable permutation in descending order. */
  lemma {:induction false} SortIsStable(ps: seq<Position>)
    ensures multiset(SortByQuote(ps)) == multiset(ps) && |SortByQuote(ps)| == |ps|
    ensures Descending(SortByQuote(ps))
    ensures forall quote :: WithQuote(SortByQuote(ps), quote) == WithQuote(ps, quote)
  {
    if ps != [] {
      var rest := SortByQuote(ps[1..]);
      SortIsStable(ps[1..]);
      InsertKeepsAll(ps[0], rest);
      InsertKeepsOrder(ps[0], rest);
      assert ps == [ps[0]] + ps[1..];
      forall quote ensures WithQuote(SortByQuote(ps), quote) == WithQuote(ps, quote) {
        InsertIsStable(ps[0], rest, quote);
        assert ([ps[0]] + rest)[1..] == rest;
      }
    }
  }
}
