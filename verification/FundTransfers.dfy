/** One wallet's transfer while it may be in flight: when a restart sends it again. */
module FundTransfers {
  /** What a wallet holds, what is on its way to it, and all that was ever sent. */
  datatype Purse = Purse(holds: nat, inFlight: seq<nat>, sent: nat)

  /** A process reads the balance and tops it up; or a transfer in flight lands. */
  datatype Event = TopUp | Land(k: nat)

  function Step(p: Purse, target: nat, e: Event): Purse {
    match e
    case TopUp =>
      if p.holds >= target then p
      else p.(inFlight := p.inFlight + [target - p.holds], sent := p.sent + (target - p.holds))
    case Land(k) =>
      if k < |p.inFlight| then
        p.(holds := p.holds + p.inFlight[k], inFlight := p.inFlight[..k] + p.inFlight[k + 1..])
      else p
  }

  function After(p: Purse, target: nat, events: seq<Event>, n: nat): Purse
    requires n <= |events|
  {
    if n == 0 then p else Step(After(p, target, events, n - 1), target, events[n - 1])
  }

  predicate NoneBefore(events: seq<Event>, n: nat)
    requires n <= |events|
  {
    forall i :: 0 <= i < n ==> !events[i].TopUp?
  }

  predicate FirstTopUp(events: seq<Event>, i: nat)
    requires i < |events|
  {
    events[i].TopUp? && NoneBefore(events, i)
  }

  predicate LandedBy(events: seq<Event>, i: nat, n: nat)
    requires n <= |events|
  {
    exists l :: i < l < n && events[l] == Land(0)
  }

  /** A process looks at the wallet while its transfer is in flight. */
  predicate LooksTooEarly(events: seq<Event>, i: nat, n: nat)
    requires n <= |events|
  {
    exists j :: i < j < n && events[j].TopUp? && !LandedBy(events, i, j)
  }

  predicate Untouched(p: Purse) { p.inFlight == [] && p.sent == 0 }

  lemma NothingLands(p: Purse, target: nat, e: Event)
    requires p.inFlight == [] && !e.TopUp?
    ensures Step(p, target, e) == p
  {
  }

  lemma {:induction false} NothingBefore(p: Purse, target: nat, events: seq<Event>, n: nat)
    requires Untouched(p) && n <= |events| && NoneBefore(events, n)
    ensures After(p, target, events, n) == p
    decreases n
  {
    if n > 0 {
      NothingBefore(p, target, events, n - 1);
      NothingLands(p, target, events[n - 1]);
    }
  }

  /** The purse at event `n` after the first top-up of `short` units at event `i`. */
  predicate Tracks(q: Purse, target: nat, short: nat, events: seq<Event>, i: nat, n: nat)
    requires n <= |events|
  {
    if LooksTooEarly(events, i, n) then q.sent > short
    else
      && q.sent == short && q.holds <= target
      && (if LandedBy(events, i, n) then q.holds == target && q.inFlight == []
          else q.holds + short == target && q.inFlight == [short])
  }

  lemma TracksNext(q: Purse, target: nat, short: nat, events: seq<Event>, i: nat, n: nat)
    requires i < n < |events| && short > 0 && Tracks(q, target, short, events, i, n)
    ensures Tracks(Step(q, target, events[n]), target, short, events, i, n + 1)
  {
    assert LandedBy(events, i, n + 1) <==> LandedBy(events, i, n) || events[n] == Land(0);
    assert LooksTooEarly(events, i, n + 1)
      <==> LooksTooEarly(events, i, n) || (events[n].TopUp? && !LandedBy(events, i, n));
  }

  lemma {:induction false} TracksFrom(p: Purse, target: nat, events: seq<Event>, i: nat, n: nat)
    requires Untouched(p) && p.holds < target && i < n <= |events| && FirstTopUp(events, i)
    ensures Tracks(After(p, target, events, n), target, target - p.holds, events, i, n)
    decreases n
  {
    if n == i + 1 {
      NothingBefore(p, target, events, i);
    } else {
      TracksFrom(p, target, events, i, n - 1);
      TracksNext(After(p, target, events, n - 1), target, target - p.holds, events, i, n - 1);
    }
  }

  lemma FirstTopUpExists(events: seq<Event>, n: nat) returns (i: nat)
    requires n <= |events| && !NoneBefore(events, n)
    ensures i < n && FirstTopUp(events, i)
    decreases n
  {
    if NoneBefore(events, n - 1) {
      i := n - 1;
    } else {
      i := FirstTopUpExists(events, n - 1);
    }
  }

  /** No process looks at the wallet while its first transfer is in flight. */
  predicate LooksInTime(events: seq<Event>) {
    forall i, j :: 0 <= i < j < |events| && FirstTopUp(events, i) && events[j].TopUp? ==> LandedBy(events, i, j)
  }

  /**
   * However often processes die and restart, a wallet is sent at most its first shortfall if and only
   * if none of them looks at it while its first transfer is in flight; and then it is sent nothing or
   * exactly the shortfall.
   */
  lemma SentOnceIff(p: Purse, target: nat, events: seq<Event>)
    requires Untouched(p) && p.holds < target
    ensures var q := After(p, target, events, |events|);
            && (q.sent <= target - p.holds <==> LooksInTime(events))
            && (LooksInTime(events) ==> q.sent == (if NoneBefore(events, |events|) then 0 else target - p.holds))
  {
    var n := |events|;
    if NoneBefore(events, n) {
      NothingBefore(p, target, events, n);
    } else {
      var i := FirstTopUpExists(events, n);
      assert forall k :: 0 <= k < n && FirstTopUp(events, k) ==> k == i;
      TracksFrom(p, target, events, i, n);
      if LooksTooEarly(events, i, n) {
        var j :| i < j < n && events[j].TopUp? && !LandedBy(events, i, j);
        assert !LooksInTime(events);
      }
    }
  }
}
