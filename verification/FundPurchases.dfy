/** How often a swap stage buys, whatever dies and whenever its purchases land. */
module FundPurchases {
  import opened Results
  import opened FundSwaps

  // ------------------------------------------------------------ one purchase among the events

  predicate SendsAt(events: seq<Event>, i: nat)
    requires i < |events|
  {
    events[i].Start? && events[i].offer.Sent?
  }

  predicate NoneSentBefore(events: seq<Event>, n: nat)
    requires n <= |events|
  {
    forall i :: 0 <= i < n ==> !SendsAt(events, i)
  }

  predicate FirstSend(events: seq<Event>, i: nat)
    requires i < |events|
  {
    SendsAt(events, i) && NoneSentBefore(events, i)
  }

  /** No other purchase is sent after event `i` and before event `n`. */
  predicate OnlySend(events: seq<Event>, i: nat, n: nat)
    requires i < n <= |events|
  {
    forall j :: i < j < n ==> !SendsAt(events, j)
  }

  /** The purchase sent at event `i`, alone in flight, has landed before event `n`. */
  predicate LandedBy(events: seq<Event>, i: nat, n: nat)
    requires n <= |events|
  {
    exists l :: i < l < n && events[l] == Land(0)
  }

  /** The process that sent it is still waiting. */
  predicate WaitingBy(events: seq<Event>, i: nat, n: nat)
    requires n <= |events|
  {
    forall m :: i < m < n ==> events[m].Land?
  }

  /** Event `m` puts a record over the one of the purchase. */
  predicate Overwrites(events: seq<Event>, i: nat, m: nat)
    requires i < m < |events|
  {
    match events[m]
    case Start(o) => !o.TooPoor?
    case Judge => WaitingBy(events, i, m)
    case _ => false
  }

  /** The event that wrote the newest record before event `n`. */
  function LastRecord(events: seq<Event>, i: nat, n: nat): (p: nat)
    requires i < n <= |events|
    ensures i <= p < n
  {
    if n == i + 1 then i
    else if Overwrites(events, i, n - 1) then n - 1
    else LastRecord(events, i, n - 1)
  }

  /** The newest record is pending: the purchase's own, or that of an attempt which sent nothing. */
  predicate PendingBy(events: seq<Event>, i: nat, n: nat)
    requires i < n <= |events|
  {
    var p := LastRecord(events, i, n);
    p == i || (events[p].Start? && events[p].offer.Unsent?)
  }

  /** No attempt has started between the landing and event `n`. */
  predicate UnseenBy(events: seq<Event>, i: nat, n: nat)
    requires i < n <= |events|
  {
    forall m :: i < m < n && events[m].Start? ==> !LandedBy(events, i, m)
  }

  /**
   * An attempt that starts at event `n` finds the purchase landed: it landed under a pending record,
   * and no attempt has started since.
   */
  predicate FoundAt(events: seq<Event>, i: nat, n: nat)
    requires i < n <= |events|
  {
    PendingBy(events, i, n) && !LandedBy(events, i, LastRecord(events, i, n)) && LandedBy(events, i, n) && UnseenBy(events, i, n)
  }

  function Arrived(events: seq<Event>, i: nat, n: nat): nat
    requires i < n <= |events| && SendsAt(events, i)
  {
    if LandedBy(events, i, n) then events[i].offer.received else 0
  }

  lemma LandedNext(events: seq<Event>, i: nat, n: nat)
    requires i < n < |events|
    ensures LandedBy(events, i, n + 1) <==> LandedBy(events, i, n) || events[n] == Land(0)
  {
  }

  lemma WaitingNext(events: seq<Event>, i: nat, n: nat)
    requires i < n < |events|
    ensures WaitingBy(events, i, n + 1) <==> WaitingBy(events, i, n) && events[n].Land?
  {
  }

  lemma UnseenNext(events: seq<Event>, i: nat, n: nat)
    requires i < n < |events|
    ensures UnseenBy(events, i, n + 1) <==> UnseenBy(events, i, n) && !(events[n].Start? && LandedBy(events, i, n))
  {
  }

  /** What a landing does: a purchase that lands under a pending record is there to be found. */
  lemma FoundNextLanding(events: seq<Event>, i: nat, n: nat)
    requires i < n < |events| && events[n].Land?
    ensures !LandedBy(events, i, n) && events[n] == Land(0) ==> (FoundAt(events, i, n + 1) <==> PendingBy(events, i, n))
    ensures LandedBy(events, i, n) ==> (FoundAt(events, i, n + 1) <==> FoundAt(events, i, n))
    ensures PendingBy(events, i, n + 1) <==> PendingBy(events, i, n)
  {
    LandedNext(events, i, n);
    UnseenNext(events, i, n);
    var p := LastRecord(events, i, n);
    assert LastRecord(events, i, n + 1) == p;
    if !LandedBy(events, i, n) {
      assert !LandedBy(events, i, p);
      assert forall m :: i < m <= n ==> !LandedBy(events, i, m);
    }
  }

  lemma FoundNextOther(events: seq<Event>, i: nat, n: nat)
    requires i < n < |events| && !events[n].Land?
    ensures events[n].Start? ==> !FoundAt(events, i, n + 1)
    ensures events[n].Judge? && WaitingBy(events, i, n) ==> !PendingBy(events, i, n + 1) && !FoundAt(events, i, n + 1)
    ensures events[n].Die? || (events[n].Judge? && !WaitingBy(events, i, n)) ==>
              (PendingBy(events, i, n + 1) <==> PendingBy(events, i, n)) && (FoundAt(events, i, n + 1) <==> FoundAt(events, i, n))
    ensures events[n].Start? ==> (PendingBy(events, i, n + 1)
              <==> (if events[n].offer.TooPoor? then PendingBy(events, i, n) else events[n].offer.Unsent?))
  {
    LandedNext(events, i, n);
    UnseenNext(events, i, n);
  }

  // ------------------------------------------------------------ the book while one purchase is out

  /** A stage before its first purchase. */
  predicate Fresh(b: Book, id: string) {
    b.inFlight == [] && b.sent == b.landed == 0 && b.poll.None? && !PendingLanded(b, id)
  }

  function Newly(b: Book, id: string): Option<StageRecord> { Newest(b.records, id) }

  predicate IsPending(r: Option<StageRecord>, before: nat) {
    r.Some? && r.value.status.Pending? && r.value.spyxBefore == before
  }

  /** `b` is the book at event `n` when the purchase sent at event `i`, from a balance of `before`, is the only one. */
  predicate Tracks(b: Book, id: string, before: nat, events: seq<Event>, i: nat, n: nat)
    requires i < n <= |events| && SendsAt(events, i)
  {
    var o := events[i].offer;
    && b.sent == 1 && Tallied(b)
    && b.inFlight == (if LandedBy(events, i, n) then [] else [o.received])
    && b.spyx == before + Arrived(events, i, n)
    && b.poll == (if WaitingBy(events, i, n) then Some(Poll(before, o.quotedOut, o.minOut)) else None)
    && (!LandedBy(events, i, n) ==> (PendingBy(events, i, n) <==> Newly(b, id).Some? && Newly(b, id).value.status.Pending?))
    && (!LandedBy(events, i, n) && PendingBy(events, i, n) ==> IsPending(Newly(b, id), before))
    && (LandedBy(events, i, n) ==> (FoundAt(events, i, n) <==> PendingLanded(b, id)))
  }

  lemma FirstTracks(b: Book, id: string, events: seq<Event>, i: nat)
    requires i < |events| && SendsAt(events, i) && Fresh(b, id)
    ensures Tracks(Step(b, id, events[i]), id, b.spyx, events, i, i + 1)
  {
    NewestOfAppend(b.records, StageRecord(id, Pending, b.spyx, events[i].offer.minOut));
  }

  lemma TracksLanding(b: Book, id: string, before: nat, events: seq<Event>, i: nat, n: nat)
    requires i < n < |events| && SendsAt(events, i) && events[i].offer.received > 0
    requires Tracks(b, id, before, events, i, n) && events[n].Land?
    ensures Tracks(Step(b, id, events[n]), id, before, events, i, n + 1)
  {
    LandedNext(events, i, n);
    WaitingNext(events, i, n);
    FoundNextLanding(events, i, n);
  }

  /** What a verdict of the waiting process leaves. */
  lemma JudgedIs(b: Book, id: string)
    requires b.poll.Some?
    ensures var p, c := b.poll.value, Judged(b, id);
            var good := CheckSwapReceipt(b.spyx - p.before, p.quotedOut, p.minOut);
            && c == b.(poll := None, records := c.records, refused := c.refused)
            && Newly(c, id) == Some(StageRecord(id, if good then Done else Failed, 0, 0))
  {
    NewestOfAppend(b.records, StageRecord(id, Done, 0, 0));
    NewestOfAppend(b.records, StageRecord(id, Failed, 0, 0));
  }

  lemma TracksJudge(b: Book, id: string, before: nat, events: seq<Event>, i: nat, n: nat)
    requires i < n < |events| && SendsAt(events, i) && Tracks(b, id, before, events, i, n)
    requires events[n].Judge? && WaitingBy(events, i, n)
    ensures Tracks(Step(b, id, events[n]), id, before, events, i, n + 1)
    ensures IsDone(Step(b, id, events[n]), id)
       <==> CheckSwapReceipt(Arrived(events, i, n), events[i].offer.quotedOut, events[i].offer.minOut)
  {
    LandedNext(events, i, n);
    WaitingNext(events, i, n);
    FoundNextOther(events, i, n);
    JudgedIs(b, id);
  }

  /** A process that dies, or no process to judge. */
  lemma TracksEnd(b: Book, id: string, before: nat, events: seq<Event>, i: nat, n: nat)
    requires i < n < |events| && SendsAt(events, i) && Tracks(b, id, before, events, i, n)
    requires events[n].Die? || (events[n].Judge? && !WaitingBy(events, i, n))
    ensures Tracks(Step(b, id, events[n]), id, before, events, i, n + 1)
    ensures Step(b, id, events[n]).records == b.records
  {
    LandedNext(events, i, n);
    WaitingNext(events, i, n);
    FoundNextOther(events, i, n);
  }

  /** What a start leaves that neither finds a purchase nor sends one. */
  lemma StartedIs(b: Book, id: string, o: Offer)
    requires !PendingLanded(b, id) && !o.Sent?
    ensures var c := Started(b, id, o);
            && c == b.(poll := None, records := c.records)
            && (o.TooPoor? ==> c.records == b.records)
            && (o.Refused? ==> Newly(c, id) == Some(StageRecord(id, Failed, 0, 0)))
            && (o.Unsent? ==> Newly(c, id) == Some(StageRecord(id, Pending, b.spyx, o.minOut)))
  {
    match o
    case Refused => NewestOfAppend(b.records, StageRecord(id, Failed, 0, 0));
    case Unsent(minOut) => NewestOfAppend(b.records, StageRecord(id, Pending, b.spyx, minOut));
    case TooPoor =>
  }

  /** An attempt that neither finds the purchase nor sends another. */
  lemma TracksStart(b: Book, id: string, before: nat, events: seq<Event>, i: nat, n: nat)
    requires i < n < |events| && SendsAt(events, i) && Tracks(b, id, before, events, i, n)
    requires events[n].Start? && !SendsAt(events, n) && !FoundAt(events, i, n)
    ensures Tracks(Step(b, id, events[n]), id, before, events, i, n + 1)
  {
    NotPendingLanded(b, id, before, events, i, n);
    LandedNext(events, i, n);
    WaitingNext(events, i, n);
    FoundNextOther(events, i, n);
    StartedIs(b, id, events[n].offer);
  }

  lemma NotPendingLanded(b: Book, id: string, before: nat, events: seq<Event>, i: nat, n: nat)
    requires i < n <= |events| && SendsAt(events, i) && Tracks(b, id, before, events, i, n)
    ensures PendingLanded(b, id) ==> FoundAt(events, i, n)
    ensures FoundAt(events, i, n) ==> PendingLanded(b, id)
  {
  }

  /** A purchase that lands delivers something. */
  predicate AllSound(events: seq<Event>) {
    forall i :: 0 <= i < |events| && SendsAt(events, i) ==> events[i].offer.received > 0
  }

  // ------------------------------------------------------------ the test swap

  /** The test swap as the script guards it, in a run that lacks quote units: not run again once it is done. */
  function TestStep(b: Book, e: Event): Book {
    if e.Start? && IsDone(b, TEST) then b.(poll := None) else Step(b, TEST, e)
  }

  function TestAfter(b: Book, events: seq<Event>, n: nat): Book
    requires n <= |events|
  {
    if n == 0 then b else TestStep(TestAfter(b, events, n - 1), events[n - 1])
  }

  lemma TestNext(b: Book, events: seq<Event>, n: nat)
    requires n < |events|
    ensures TestAfter(b, events, 0) == b
    ensures TestAfter(b, events, n + 1) == TestStep(TestAfter(b, events, n), events[n])
  {
  }

  /**
   * Event `k` settles the purchase sent at event `i`: its own process accepts what arrived, or an
   * attempt finds it landed.
   */
  predicate Settles(events: seq<Event>, i: nat, k: nat)
    requires i < k < |events| && SendsAt(events, i)
  {
    match events[k]
    case Judge =>
      WaitingBy(events, i, k) && CheckSwapReceipt(Arrived(events, i, k), events[i].offer.quotedOut, events[i].offer.minOut)
    case Start(_) => FoundAt(events, i, k)
    case _ => false
  }

  predicate SettledBy(events: seq<Event>, i: nat, n: nat)
    requires n <= |events| && i < |events| && SendsAt(events, i)
  {
    exists k :: i < k < n && Settles(events, i, k)
  }

  predicate TestSendsAgain(events: seq<Event>, i: nat, n: nat)
    requires n <= |events| && i < |events| && SendsAt(events, i)
  {
    exists j :: i < j < n && SendsAt(events, j) && !SettledBy(events, i, j + 1)
  }

  predicate TestFresh(b: Book, before: nat) { Fresh(b, TEST) && !IsDone(b, TEST) && b.spyx == before }

  lemma {:induction false} TestBeforeFirst(b: Book, events: seq<Event>, n: nat)
    requires TestFresh(b, b.spyx) && n <= |events| && NoneSentBefore(events, n)
    ensures TestFresh(TestAfter(b, events, n), b.spyx)
    decreases n
  {
    if n > 0 {
      TestBeforeFirst(b, events, n - 1);
      FreshStays(TestAfter(b, events, n - 1), TEST, events, n - 1);
    }
  }

  lemma FreshStays(b: Book, id: string, events: seq<Event>, n: nat)
    requires n < |events| && Fresh(b, id) && !SendsAt(events, n)
    ensures var c := Step(b, id, events[n]); Fresh(c, id) && c.spyx == b.spyx && (IsDone(c, id) ==> IsDone(b, id))
  {
    NewestOfAppend(b.records, StageRecord(id, Failed, 0, 0));
    if events[n].Start? && events[n].offer.Unsent? {
      NewestOfAppend(b.records, StageRecord(id, Pending, b.spyx, events[n].offer.minOut));
    }
  }

  /** The stage is over: done, with nobody waiting. */
  predicate Over(b: Book) { IsDone(b, TEST) && b.poll.None? && b.sent == 1 }

  lemma OverStays(b: Book, e: Event)
    requires Over(b)
    ensures Over(TestStep(b, e))
  {
  }

  /** The purchase is out and nothing has settled it. */
  predicate TestTracks(b: Book, before: nat, events: seq<Event>, i: nat, n: nat)
    requires i < n <= |events| && SendsAt(events, i)
  {
    Tracks(b, TEST, before, events, i, n) && !IsDone(b, TEST)
  }

  lemma TestTracksStep(b: Book, before: nat, events: seq<Event>, i: nat, n: nat)
    requires i < n < |events| && SendsAt(events, i) && events[i].offer.received > 0
    requires TestTracks(b, before, events, i, n)
    ensures var c := TestStep(b, events[n]);
            if Settles(events, i, n) then Over(c)
            else if SendsAt(events, n) then c.sent == 2
            else TestTracks(c, before, events, i, n + 1)
  {
    NotPendingLanded(b, TEST, before, events, i, n);
    match events[n]
    case Land(_) => TracksLanding(b, TEST, before, events, i, n);
    case Start(o) =>
      if FoundAt(events, i, n) {
        NewestOfAppend(b.records, StageRecord(TEST, Done, 0, 0));
      } else if !o.Sent? {
        TracksStart(b, TEST, before, events, i, n);
        StartIsNotDone(b, TEST, o);
      }
    case Judge =>
      if WaitingBy(events, i, n) {
        TracksJudge(b, TEST, before, events, i, n);
      } else {
        TracksEnd(b, TEST, before, events, i, n);
      }
    case Die => TracksEnd(b, TEST, before, events, i, n);
  }

  lemma StartIsNotDone(b: Book, id: string, o: Offer)
    requires !PendingLanded(b, id) && !IsDone(b, id)
    ensures !IsDone(Started(b, id, o), id)
  {
    NewestOfAppend(b.records, StageRecord(id, Failed, 0, 0));
    if o.Unsent? || o.Sent? {
      NewestOfAppend(b.records, StageRecord(id, Pending, b.spyx, o.minOut));
    }
  }

  /** What the book says at event `n` of the purchase sent at event `i`. */
  predicate TestIs(c: Book, before: nat, events: seq<Event>, i: nat, n: nat)
    requires i < n <= |events| && SendsAt(events, i)
  {
    if TestSendsAgain(events, i, n) then c.sent >= 2
    else if SettledBy(events, i, n) then Over(c)
    else TestTracks(c, before, events, i, n)
  }

  lemma TestIsNext(c: Book, before: nat, events: seq<Event>, i: nat, m: nat)
    requires i < m < |events| && SendsAt(events, i) && events[i].offer.received > 0 && TestIs(c, before, events, i, m)
    ensures TestIs(TestStep(c, events[m]), before, events, i, m + 1)
  {
    SendsAgainNext(events, i, m);
    if TestSendsAgain(events, i, m) {
      SentNeverFalls(c, TEST, events[m]);
    } else if SettledBy(events, i, m) {
      OverStays(c, events[m]);
    } else {
      TestTracksStep(c, before, events, i, m);
    }
  }

  lemma NothingSince(events: seq<Event>, i: nat)
    requires i < |events| && SendsAt(events, i)
    ensures !TestSendsAgain(events, i, i + 1) && !SettledBy(events, i, i + 1) && !LandedBy(events, i, i + 1)
  {
  }

  lemma {:induction false} TestState(b: Book, events: seq<Event>, i: nat, n: nat)
    requires TestFresh(b, b.spyx) && AllSound(events) && i < n <= |events| && FirstSend(events, i)
    ensures TestIs(TestAfter(b, events, n), b.spyx, events, i, n)
    decreases n
  {
    if n == i + 1 {
      TestBeforeFirst(b, events, i);
      var c := TestAfter(b, events, i);
      FirstTracks(c, TEST, events, i);
      StartIsNotDone(c, TEST, events[i].offer);
      NothingSince(events, i);
    } else {
      TestState(b, events, i, n - 1);
      TestIsNext(TestAfter(b, events, n - 1), b.spyx, events, i, n - 1);
    }
  }

  lemma SentNeverFalls(b: Book, id: string, e: Event)
    ensures Step(b, id, e).sent >= b.sent
  {
  }

  lemma SendsAgainNext(events: seq<Event>, i: nat, m: nat)
    requires i < m < |events| && SendsAt(events, i)
    ensures SettledBy(events, i, m + 1) <==> SettledBy(events, i, m) || Settles(events, i, m)
    ensures TestSendsAgain(events, i, m + 1)
       <==> TestSendsAgain(events, i, m) || (SendsAt(events, m) && !SettledBy(events, i, m + 1))
  {
  }

  /** Every attempt that would send comes when the first purchase is settled, or settles it. */
  predicate SettledInTime(events: seq<Event>) {
    forall i, j :: 0 <= i < j < |events| && FirstSend(events, i) && SendsAt(events, j) ==> SettledBy(events, i, j + 1)
  }

  lemma FirstSendExists(events: seq<Event>, n: nat) returns (i: nat)
    requires n <= |events| && !NoneSentBefore(events, n)
    ensures i < n && FirstSend(events, i)
    decreases n
  {
    if NoneSentBefore(events, n - 1) {
      i := n - 1;
    } else {
      i := FirstSendExists(events, n - 1);
    }
  }

  /**
   * Whatever dies, and whenever purchases land, the test swap sends at most one purchase if and only if
   * the first one is settled before any attempt that would send: its receipt is accepted, or it lands
   * under a pending record before the attempt looks.
   */
  lemma TestBuysOnceIff(b: Book, events: seq<Event>)
    requires Fresh(b, TEST) && !IsDone(b, TEST) && AllSound(events)
    ensures TestAfter(b, events, |events|).sent <= 1 <==> SettledInTime(events)
  {
    var n := |events|;
    if NoneSentBefore(events, n) {
      TestBeforeFirst(b, events, n);
    } else {
      var i := FirstSendExists(events, n);
      assert forall k :: 0 <= k < n && FirstSend(events, k) ==> k == i;
      TestState(b, events, i, n);
      if TestSendsAgain(events, i, n) {
        var j :| i < j < n && SendsAt(events, j) && !SettledBy(events, i, j + 1);
        assert !SettledInTime(events);
      }
    }
  }

  // ------------------------------------------------------------ where nothing is in flight at a look

  /** No purchase is in flight whenever an attempt starts or a receipt is checked. */
  predicate Prompt(b: Book, events: seq<Event>) {
    forall n :: 0 <= n < |events| && (events[n].Start? || events[n].Judge?) ==> TestAfter(b, events, n).inFlight == []
  }

  /** Every purchase that landed is accounted for: refused receipts, and the one on record. */
  predicate Accounted(b: Book) {
    b.landed == b.refused + (if IsDone(b, TEST) || PendingLanded(b, TEST) then 1 else 0)
  }

  predicate InOrder(b: Book) {
    && |b.inFlight| <= 1
    && (b.inFlight != [] ==>
          && b.inFlight[0] > 0 && !IsDone(b, TEST) && IsPending(Newly(b, TEST), b.spyx)
          && (b.poll.Some? ==> b.poll.value.before == b.spyx))
    && (b.inFlight == [] && b.poll.Some? ==> PendingLanded(b, TEST))
  }

  predicate Regular(b: Book) { Accounted(b) && InOrder(b) }

  lemma PromptStart(b: Book, o: Offer)
    requires Accounted(b) && InOrder(b) && b.inFlight == [] && (o.Sent? ==> o.received > 0)
    ensures Accounted(TestStep(b, Start(o))) && InOrder(TestStep(b, Start(o)))
  {
    if !IsDone(b, TEST) {
      if PendingLanded(b, TEST) {
        NewestOfAppend(b.records, StageRecord(TEST, Done, 0, 0));
      } else if o.Sent? {
        NewestOfAppend(b.records, StageRecord(TEST, Pending, b.spyx, o.minOut));
      } else {
        StartedIs(b, TEST, o);
      }
    }
  }

  lemma PromptStep(b: Book, e: Event)
    requires Accounted(b) && InOrder(b) && !e.Start? && (e.Judge? ==> b.inFlight == [])
    ensures Accounted(TestStep(b, e)) && InOrder(TestStep(b, e))
  {
    if e.Judge? && b.poll.Some? {
      JudgedIs(b, TEST);
    }
  }

  lemma PromptNext(b: Book, e: Event)
    requires Regular(b) && (e.Start? || e.Judge? ==> b.inFlight == [])
    requires e.Start? && e.offer.Sent? ==> e.offer.received > 0
    ensures Regular(TestStep(b, e))
  {
    if e.Start? {
      PromptStart(b, e.offer);
    } else {
      PromptStep(b, e);
    }
  }

  /**
   * Where every purchase lands before the next look, the test swap has bought once for every refused
   * receipt, and once more exactly when a purchase is on record.
   */
  lemma {:induction false} TestLandingsAre(b: Book, events: seq<Event>, n: nat)
    requires Regular(b) && Prompt(b, events) && AllSound(events) && n <= |events|
    ensures Regular(TestAfter(b, events, n)) && Accounted(TestAfter(b, events, n))
    decreases n
  {
    if n > 0 {
      TestLandingsAre(b, events, n - 1);
      TestNext(b, events, n - 1);
      assert SendsAt(events, n - 1) ==> events[n - 1].offer.received > 0;
      PromptNext(TestAfter(b, events, n - 1), events[n - 1]);
    }
  }

  // ------------------------------------------------------------ two ways to buy twice

  /** One purchase is out, recorded as pending, and its process is gone. */
  predicate LeftBehind(b: Book, before: nat) {
    b.sent == 1 && |b.inFlight| == 1 && b.spyx == before && b.poll.None? && IsPending(Newly(b, TEST), before)
  }

  lemma SendAndDie(b: Book, o: Offer)
    requires TestFresh(b, b.spyx) && o.Sent?
    ensures LeftBehind(TestStep(TestStep(b, Start(o)), Die), b.spyx)
  {
    NewestOfAppend(b.records, StageRecord(TEST, Pending, b.spyx, o.minOut));
  }

  /** The process dies while its purchase is in flight, and the next one looks before it lands: two are sent. */
  lemma LateLandingBuysTwice(b: Book, o: Offer, again: Offer)
    requires TestFresh(b, b.spyx) && o.Sent? && again.Sent?
    ensures var c := TestStep(TestStep(b, Start(o)), Die); TestStep(c, Start(again)).sent == 2
  {
    SendAndDie(b, o);
  }

  /** A refused quote overwrites the pending record: the purchase lands, and the next attempt buys again. */
  lemma RefusedQuoteForgets(b: Book, o: Offer, again: Offer)
    requires TestFresh(b, b.spyx) && o.Sent? && again.Sent?
    ensures var c := TestStep(TestStep(b, Start(o)), Die);
            var d := TestStep(TestStep(c, Start(Refused)), Land(0));
            d.inFlight == [] && TestStep(d, Start(again)).sent == 2
  {
    SendAndDie(b, o);
    var c := TestStep(TestStep(b, Start(o)), Die);
    StartedIs(c, TEST, Refused);
  }

  // ------------------------------------------------------------ the main swap

  /** The main swap as the script guards it: run whenever the deployer holds less than is needed. */
  function MainStep(b: Book, needed: nat, e: Event): Book {
    if e.Start? && needed <= b.spyx then b.(poll := None) else Step(b, MAIN, e)
  }

  /** Events against one need: transfers lower the need and the balance together. */
  function MainAfter(b: Book, needed: nat, events: seq<Event>, n: nat): Book
    requires n <= |events|
  {
    if n == 0 then b else MainStep(MainAfter(b, needed, events, n - 1), needed, events[n - 1])
  }

  /** The first purchase has landed and covers what was short. */
  predicate CoveredBy(events: seq<Event>, i: nat, n: nat, short: int)
    requires n <= |events| && i < |events| && SendsAt(events, i)
  {
    LandedBy(events, i, n) && events[i].offer.received >= short
  }

  predicate MainSendsAgain(events: seq<Event>, i: nat, n: nat, short: int)
    requires n <= |events| && i < |events| && SendsAt(events, i)
  {
    exists j :: i < j < n && SendsAt(events, j) && !FoundAt(events, i, j) && !CoveredBy(events, i, j, short)
  }

  /** What a start of the main swap sends, and what it does when it finds a landed purchase. */
  lemma MainStartIs(b: Book, needed: nat, o: Offer)
    ensures var c := MainStep(b, needed, Start(o));
            && c.sent == b.sent + (if needed > b.spyx && !PendingLanded(b, MAIN) && o.Sent? then 1 else 0)
            && (needed > b.spyx && PendingLanded(b, MAIN) ==> IsDone(c, MAIN) && !PendingLanded(c, MAIN))
            && c.spyx == b.spyx && c.landed == b.landed && (c.poll.Some? <==> c.sent > b.sent)
  {
    NewestOfAppend(b.records, StageRecord(MAIN, Done, 0, 0));
  }

  predicate MainFresh(b: Book, before: nat) { Fresh(b, MAIN) && b.spyx == before }

  lemma MainFreshStays(b: Book, needed: nat, before: nat, events: seq<Event>, n: nat)
    requires n < |events| && MainFresh(b, before) && !SendsAt(events, n)
    ensures MainFresh(MainStep(b, needed, events[n]), before)
  {
    FreshStays(b, MAIN, events, n);
  }

  lemma {:induction false} MainBeforeFirst(b: Book, needed: nat, events: seq<Event>, n: nat)
    requires MainFresh(b, b.spyx) && n <= |events| && NoneSentBefore(events, n)
    ensures MainFresh(MainAfter(b, needed, events, n), b.spyx)
    decreases n
  {
    if n > 0 {
      MainBeforeFirst(b, needed, events, n - 1);
      MainFreshStays(MainAfter(b, needed, events, n - 1), needed, b.spyx, events, n - 1);
    }
  }

  /** The need is met by one purchase. */
  predicate Met(b: Book, needed: nat) { needed <= b.spyx && b.sent == 1 }

  lemma MetStays(b: Book, needed: nat, e: Event)
    requires Met(b, needed)
    ensures Met(MainStep(b, needed, e), needed)
  {
  }

  lemma TracksFound(b: Book, id: string, before: nat, events: seq<Event>, i: nat, n: nat)
    requires i < n < |events| && SendsAt(events, i) && Tracks(b, id, before, events, i, n)
    requires events[n].Start? && FoundAt(events, i, n)
    ensures Tracks(Step(b, id, events[n]), id, before, events, i, n + 1)
  {
    NotPendingLanded(b, id, before, events, i, n);
    LandedNext(events, i, n);
    WaitingNext(events, i, n);
    FoundNextOther(events, i, n);
    NewestOfAppend(b.records, StageRecord(id, Done, 0, 0));
  }

  lemma MainTracksStep(b: Book, needed: nat, before: nat, events: seq<Event>, i: nat, n: nat)
    requires i < n < |events| && SendsAt(events, i) && events[i].offer.received > 0 && before < needed
    requires Tracks(b, MAIN, before, events, i, n) && !CoveredBy(events, i, n, needed - before)
    ensures var c := MainStep(b, needed, events[n]);
            if SendsAt(events, n) && !FoundAt(events, i, n) then c.sent == 2
            else if CoveredBy(events, i, n + 1, needed - before) then Met(c, needed)
            else Tracks(c, MAIN, before, events, i, n + 1)
  {
    LandedNext(events, i, n);
    NotPendingLanded(b, MAIN, before, events, i, n);
    match events[n]
    case Land(_) => TracksLanding(b, MAIN, before, events, i, n);
    case Start(o) =>
      if FoundAt(events, i, n) {
        TracksFound(b, MAIN, before, events, i, n);
      } else if !o.Sent? {
        TracksStart(b, MAIN, before, events, i, n);
      }
    case Judge =>
      if WaitingBy(events, i, n) {
        TracksJudge(b, MAIN, before, events, i, n);
      } else {
        TracksEnd(b, MAIN, before, events, i, n);
      }
    case Die => TracksEnd(b, MAIN, before, events, i, n);
  }

  lemma MainAgainNext(events: seq<Event>, i: nat, m: nat, short: int)
    requires i < m < |events| && SendsAt(events, i)
    ensures CoveredBy(events, i, m, short) ==> CoveredBy(events, i, m + 1, short)
    ensures MainSendsAgain(events, i, m + 1, short)
       <==> MainSendsAgain(events, i, m, short)
            || (SendsAt(events, m) && !FoundAt(events, i, m) && !CoveredBy(events, i, m, short))
  {
  }

  /** What the book says at event `n` of the purchase sent at event `i`. */
  predicate MainIs(c: Book, needed: nat, before: nat, events: seq<Event>, i: nat, n: nat)
    requires i < n <= |events| && SendsAt(events, i)
  {
    if MainSendsAgain(events, i, n, needed - before) then c.sent >= 2
    else if CoveredBy(events, i, n, needed - before) then Met(c, needed)
    else Tracks(c, MAIN, before, events, i, n)
  }

  lemma MainIsNext(c: Book, needed: nat, before: nat, events: seq<Event>, i: nat, m: nat)
    requires i < m < |events| && SendsAt(events, i) && events[i].offer.received > 0 && before < needed
    requires MainIs(c, needed, before, events, i, m)
    ensures MainIs(MainStep(c, needed, events[m]), needed, before, events, i, m + 1)
  {
    MainAgainNext(events, i, m, needed - before);
    if MainSendsAgain(events, i, m, needed - before) {
      SentNeverFalls(c, MAIN, events[m]);
    } else if CoveredBy(events, i, m, needed - before) {
      MetStays(c, needed, events[m]);
    } else {
      MainTracksStep(c, needed, before, events, i, m);
    }
  }

  lemma {:induction false} MainState(b: Book, needed: nat, events: seq<Event>, i: nat, n: nat)
    requires MainFresh(b, b.spyx) && needed > b.spyx && AllSound(events) && i < n <= |events| && FirstSend(events, i)
    ensures MainIs(MainAfter(b, needed, events, n), needed, b.spyx, events, i, n)
    decreases n
  {
    if n == i + 1 {
      MainBeforeFirst(b, needed, events, i);
      FirstTracks(MainAfter(b, needed, events, i), MAIN, events, i);
      NothingSince(events, i);
    } else {
      MainState(b, needed, events, i, n - 1);
      MainIsNext(MainAfter(b, needed, events, n - 1), needed, b.spyx, events, i, n - 1);
    }
  }

  /** Every later attempt that would send finds the first purchase landed, or the need covered by it. */
  predicate FoundOrCovered(events: seq<Event>, short: int) {
    forall i, j :: 0 <= i < j < |events| && FirstSend(events, i) && SendsAt(events, j) ==>
      FoundAt(events, i, j) || CoveredBy(events, i, j, short)
  }

  /**
   * Against one need, the main swap sends at most one purchase if and only if every later attempt that
   * would send finds the first one landed, or the need covered by it: its done record stops nothing.
   */
  lemma MainBuysOnceIff(b: Book, needed: nat, events: seq<Event>)
    requires Fresh(b, MAIN) && needed > b.spyx && AllSound(events)
    ensures MainAfter(b, needed, events, |events|).sent <= 1 <==> FoundOrCovered(events, needed - b.spyx)
  {
    var n, short := |events|, needed - b.spyx;
    if NoneSentBefore(events, n) {
      MainBeforeFirst(b, needed, events, n);
    } else {
      var i := FirstSendExists(events, n);
      assert forall k :: 0 <= k < n && FirstSend(events, k) ==> k == i;
      MainState(b, needed, events, i, n);
      if MainSendsAgain(events, i, n, short) {
        var j :| i < j < n && SendsAt(events, j) && !FoundAt(events, i, j) && !CoveredBy(events, i, j, short);
        assert !FoundOrCovered(events, short);
      }
    }
  }

  /** A purchase whose quote and receipt pass covers what is missing; only others can fall short. */
  lemma CheckedMainCovers(q: Quoted, limits: Limits, missing: nat, lamports: nat, x: Execution)
    requires OfferOf(q, limits, missing, lamports, x).Sent?
    requires var o := OfferOf(q, limits, missing, lamports, x); CheckSwapReceipt(o.received, o.quotedOut, o.minOut)
    ensures OfferOf(q, limits, missing, lamports, x).received >= missing
  {
    CheckedSwapDelivers(q, limits.slippageBps, limits.maxDeviationBps, missing, x.received);
  }

  /** A main swap that is done buys again as soon as the need grows beyond the balance. */
  lemma GrownNeedBuysAgain(b: Book, needed: nat, o: Offer)
    requires IsDone(b, MAIN) && needed > b.spyx && o.Sent?
    ensures MainStep(b, needed, Start(o)).sent == b.sent + 1
  {
    MainStartIs(b, needed, o);
  }

  // ------------------------------------------------------------ runs of the stage are such events

  lemma {:induction false} PollStartsNothing(b: Book, id: string, arrivals: seq<seq<nat>>, checks: nat)
    requires b.poll.Some? && checks > 0
    ensures forall e :: e in PollEvents(b, id, arrivals, checks) ==> !e.Start?
    decreases checks
  {
    if b.spyx <= b.poll.value.before && arrivals != [] {
      LandsStartNothing(arrivals[0]);
      if checks > 1 {
        LandsKeepPoll(b, id, arrivals[0]);
        PollStartsNothing(Steps(b, id, Lands(arrivals[0])), id, arrivals[1..], checks - 1);
      }
    }
  }

  lemma {:induction false} LandsStartNothing(ks: seq<nat>)
    ensures forall e :: e in Lands(ks) ==> !e.Start?
  {
    if ks != [] {
      LandsStartNothing(ks[1..]);
    }
  }

  lemma LastStep(b: Book, id: string, events: seq<Event>, n: nat)
    requires n < |events|
    ensures Steps(b, id, events[..n + 1]) == Step(Steps(b, id, events[..n]), id, events[n])
  {
    assert events[..n + 1] == events[..n] + [events[n]];
    StepsJoin(b, id, events[..n], [events[n]]);
    OneStep(Steps(b, id, events[..n]), id, events[n]);
  }

  /** Only its first event is a start. */
  predicate OneRun(events: seq<Event>) {
    forall i :: 0 < i < |events| ==> !events[i].Start?
  }

  lemma RunIsOneRun(b: Book, id: string, o: Offer, arrivals: seq<seq<nat>>)
    ensures RunEvents(b, id, o, arrivals) != [] && RunEvents(b, id, o, arrivals)[0] == Start(o)
    ensures OneRun(RunEvents(b, id, o, arrivals))
  {
    var c, events := Started(b, id, o), RunEvents(b, id, o, arrivals);
    if c.poll.Some? {
      PollStartsNothing(c, id, arrivals, POLLS);
      forall i | 0 < i < |events| ensures !events[i].Start? {
        assert events[i] == PollEvents(c, id, arrivals, POLLS)[i - 1];
      }
    }
  }

  /** A run of the test stage that is not done yet steps through its events under the script's guard. */
  lemma {:induction false} TestRunsStage(b: Book, events: seq<Event>, n: nat)
    requires n <= |events| && OneRun(events) && !IsDone(b, TEST)
    ensures TestAfter(b, events, n) == Steps(b, TEST, events[..n])
    decreases n
  {
    if n == 0 {
      assert events[..0] == [];
    } else {
      TestRunsStage(b, events, n - 1);
      LastStep(b, TEST, events, n - 1);
      assert events[..0] == [];
    }
  }

  /** So does a run of the main stage that is short. */
  lemma {:induction false} MainRunsStage(b: Book, needed: nat, events: seq<Event>, n: nat)
    requires n <= |events| && OneRun(events) && needed > b.spyx
    ensures MainAfter(b, needed, events, n) == Steps(b, MAIN, events[..n])
    decreases n
  {
    if n == 0 {
      assert events[..0] == [];
    } else {
      MainRunsStage(b, needed, events, n - 1);
      LastStep(b, MAIN, events, n - 1);
      assert events[..0] == [];
    }
  }

  /** Runs follow each other. */
  lemma {:induction false} TestJoin(b: Book, a: seq<Event>, c: seq<Event>, n: nat)
    requires n <= |c|
    ensures TestAfter(b, a + c, |a| + n) == TestAfter(TestAfter(b, a, |a|), c, n)
    decreases n
  {
    if n == 0 {
      TestPrefix(b, a, c, |a|);
    } else {
      TestJoin(b, a, c, n - 1);
      assert (a + c)[|a| + n - 1] == c[n - 1];
    }
  }

  lemma {:induction false} TestPrefix(b: Book, a: seq<Event>, c: seq<Event>, n: nat)
    requires n <= |a|
    ensures TestAfter(b, a + c, n) == TestAfter(b, a, n)
    decreases n
  {
    if n > 0 {
      TestPrefix(b, a, c, n - 1);
    }
  }
}
