/** What a plan promises: which positions it takes, and that its actions can be executed in order. */
module CrankPlan {
  import opened FeeSplits
  import opened Market
  import opened PositionOrder
  import opened Crank

  // ------------------------------------------------------------ the positions a plan takes

  lemma {:induction false} EligibleHolds(ps: seq<Position>, o: Options, ownPool: nat)
    ensures forall p :: p in EligibleIn(ps, o, ownPool) <==> p in ps && Eligible(p, o, ownPool)
    ensures DistinctIds(ps) ==> DistinctIds(EligibleIn(ps, o, ownPool))
  {
    if ps != [] {
      var rest := EligibleIn(ps[1..], o, ownPool);
      EligibleHolds(ps[1..], o, ownPool);
      assert ps == [ps[0]] + ps[1..];
      if DistinctIds(ps) {
        assert DistinctIds(ps[1..]);
        forall j | 0 <= j < |rest| ensures rest[j].id != ps[0].id {
          assert rest[j] in rest;
          var k :| 0 <= k < |ps[1..]| && ps[1..][k] == rest[j];
          assert ps[k + 1] == rest[j];
        }
        ConsDistinct(ps[0], rest);
      }
    }
  }

  lemma ConsDistinct(p: Position, ps: seq<Position>)
    requires DistinctIds(ps) && forall j :: 0 <= j < |ps| ==> ps[j].id != p.id
    ensures DistinctIds([p] + ps)
  {
    var r := [p] + ps;
    forall i, j | 0 <= i < j < |r| ensures r[i].id != r[j].id {
      assert r[j] == ps[j - 1];
      assert i > 0 ==> r[i] == ps[i - 1];
    }
  }

  lemma {:induction false} InsertDistinct(p: Position, ps: seq<Position>)
    requires DistinctIds(ps) && forall q :: q in ps ==> q.id != p.id
    ensures DistinctIds(Insert(p, ps))
    ensures forall q :: q in Insert(p, ps) <==> q == p || q in ps
  {
    if ps == [] || ps[0].quote <= p.quote {
      forall j | 0 <= j < |ps| ensures ps[j].id != p.id {
        assert ps[j] in ps;
      }
      ConsDistinct(p, ps);
    } else {
      assert ps == [ps[0]] + ps[1..];
      InsertDistinct(p, ps[1..]);
      var rest := Insert(p, ps[1..]);
      forall j | 0 <= j < |rest| ensures rest[j].id != ps[0].id {
        assert rest[j] in rest;
        if rest[j] != p {
          var k :| 0 <= k < |ps[1..]| && ps[1..][k] == rest[j];
          assert ps[k + 1] == rest[j];
        } else {
          assert ps[0] in ps;
        }
      }
      ConsDistinct(ps[0], rest);
    }
  }

  lemma {:induction false} SortDistinct(ps: seq<Position>)
    requires DistinctIds(ps)
    ensures DistinctIds(SortByQuote(ps))
    ensures forall q :: q in SortByQuote(ps) <==> q in ps
  {
    if ps != [] {
      assert ps == [ps[0]] + ps[1..];
      SortDistinct(ps[1..]);
      forall q | q in SortByQuote(ps[1..]) ensures q.id != ps[0].id {
        var k :| 0 <= k < |ps[1..]| && ps[1..][k] == q;
        assert ps[k + 1] == q;
      }
      InsertDistinct(ps[0], SortByQuote(ps[1..]));
    }
  }

  /**
   * The harvested positions are eligible, distinct, largest first and at most the cap; whatever
   * eligible position is left out owes no more than any that is taken, and none is left out below
   * the cap.
   */
  lemma DuePositionsHold(c: Chain, o: Options)
    requires DistinctIds(c.positions)
    ensures var due := DuePositions(c, o);
            && DistinctIds(due) && Descending(due) && |due| <= MaxLp(o)
            && (forall p :: p in due ==> p in c.positions && Eligible(p, o, c.ownPool))
            && (forall p, q :: p in c.positions && Eligible(p, o, c.ownPool) && p !in due && q in due ==> p.quote <= q.quote)
            && (|due| < MaxLp(o) ==> forall p :: p in c.positions && Eligible(p, o, c.ownPool) ==> p in due)
  {
    var all := EligibleIn(c.positions, o, c.ownPool);
    EligibleHolds(c.positions, o, c.ownPool);
    SortDistinct(all);
    SortIsStable(all);
    TakeHolds(SortByQuote(all), MaxLp(o));
  }

  lemma TakeHolds(ps: seq<Position>, n: nat)
    requires DistinctIds(ps) && Descending(ps)
    ensures var due := Take(ps, n);
            && DistinctIds(due) && Descending(due) && |due| <= n
            && (forall p :: p in due ==> p in ps)
            && (forall p, q :: p in ps && p !in due && q in due ==> p.quote <= q.quote)
            && (|due| < n ==> due == ps)
  {
    var due := Take(ps, n);
    assert forall i :: 0 <= i < |due| ==> due[i] == ps[i] && ps[i] in due;
    forall p, q | p in ps && p !in due && q in due ensures p.quote <= q.quote {
      var i :| 0 <= i < |due| && due[i] == q;
      var j :| 0 <= j < |ps| && ps[j] == p;
      assert j >= |due|;
    }
  }

  /** By default only positions on the launch's own migrated pool are harvested. */
  lemma OwnPoolByDefault(c: Chain, o: Options, a: Action)
    requires DistinctIds(c.positions) && !o.includeForeignPositions
    requires a in LpPart(c, o)
    ensures a.LpFees? && a.pool == c.ownPool && Position(a.position, a.pool, a.pendingBase, a.pendingQuote) in c.positions
  {
    DuePositionsHold(c, o);
    var i :| 0 <= i < |LpPart(c, o)| && LpPart(c, o)[i] == a;
    assert DuePositions(c, o)[i] in DuePositions(c, o);
  }

  // ------------------------------------------------------------ the shape of a plan

  predicate DistinctKeys(actions: seq<Action>) {
    forall i, j :: 0 <= i < j < |actions| ==> KeyOf(actions[i]) != KeyOf(actions[j])
  }

  predicate NoBurnAfterHarvest(actions: seq<Action>) {
    forall i, j :: 0 <= i < |actions| && 0 <= j < |actions| && actions[i].Burn? ==> !Burns(actions[j])
  }

  lemma BurnLast(base: seq<Action>, condition: bool, burn: Action)
    requires DistinctKeys(base) && Ordered(base) && burn.Burn?
    requires forall i :: 0 <= i < |base| ==> Rank(base[i]) <= 6
    requires condition ==> forall i :: 0 <= i < |base| ==> !Burns(base[i])
    ensures DistinctKeys(Push(base, condition, burn)) && NoBurnAfterHarvest(Push(base, condition, burn))
    ensures Ordered(Push(base, condition, burn))
  {
    forall i | 0 <= i < |base| ensures !base[i].Burn? && KeyOf(base[i]) != KeyOf(burn) {
      assert Rank(base[i]) <= 6;
    }
  }

  /** Every action's identity is unique in its plan, and a standalone burn never accompanies a harvest that burns. */
  lemma PlanShape(c: Chain, o: Options)
    requires DistinctIds(c.positions)
    ensures DistinctKeys(Plan(c, o)) && NoBurnAfterHarvest(Plan(c, o)) && Ordered(Plan(c, o))
  {
    var split, burn := ExpectedSplit(c), Burn(Claimed(c.base));
    if Unregistrable(c) {
      BurnLast([], BurnDue(c, o), burn);
    } else {
      HarvestingShape(c, o, split);
      BurnRidesIff(c, o, split);
      BurnLast(Harvesting(c, o, split), !BurnRides(c, o) && BurnDue(c, o), burn);
    }
  }

  lemma HarvestingShape(c: Chain, o: Options, split: FeeSplit)
    requires DistinctIds(c.positions)
    ensures DistinctKeys(Harvesting(c, o, split)) && Ordered(Harvesting(c, o, split))
    ensures forall i :: 0 <= i < |Harvesting(c, o, split)| ==> Rank(Harvesting(c, o, split)[i]) <= 6
  {
    var early, late := OnceUpTo(c, o, split, 6), LpPart(c, o);
    OnceUpToHolds(c, o, split, 6);
    DuePositionsHold(c, o);
    forall i | 0 <= i < |early| ensures Rank(early[i]) < 6 {
      assert early[i] in early;
    }
    JoinedShape(early, late);
  }

  lemma JoinedShape(early: seq<Action>, late: seq<Action>)
    requires Ordered(early) && forall i :: 0 <= i < |early| ==> Rank(early[i]) < 6
    requires DistinctKeys(late) && forall i :: 0 <= i < |late| ==> late[i].LpFees?
    ensures DistinctKeys(early + late) && Ordered(early + late)
    ensures forall i :: 0 <= i < |early + late| ==> Rank((early + late)[i]) <= 6
  {
    var actions := early + late;
    forall i, j | 0 <= i < j < |actions|
      ensures KeyOf(actions[i]) != KeyOf(actions[j])
      ensures Rank(actions[i]) < Rank(actions[j]) || (actions[i].LpFees? && actions[j].LpFees?)
    {
      if i >= |early| {
        assert actions[i] == late[i - |early|] && actions[j] == late[j - |early|];
      } else {
        assert Rank(actions[i]) < Rank(actions[j]);
      }
    }
  }
}
