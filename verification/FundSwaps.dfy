/** The swap stage: its checks, its records, and what one run of it does while purchases land when they like. */
module FundSwaps {
  import opened Results
  import opened Amounts
  import opened FundPlans

  // ------------------------------------------------------------ stage records

  datatype StageStatus = Pending | Done | Skipped | Failed

  /** A record of a stage; a pending swap notes the balance before it and the least it accepts. */
  datatype StageRecord = StageRecord(id: string, status: StageStatus, spyxBefore: nat, minOut: int)

  /** The newest record of a stage. */
  function Newest(records: seq<StageRecord>, id: string): Option<StageRecord> {
    if records == [] then None
    else
      var last := |records| - 1;
      if records[last].id == id then Some(records[last]) else Newest(records[..last], id)
  }

  lemma {:induction false} NewestWins(records: seq<StageRecord>, id: string)
    ensures var r := Newest(records, id);
            && (r.Some? <==> exists i :: 0 <= i < |records| && records[i].id == id)
            && (r.Some? ==> exists i :: 0 <= i < |records| && records[i] == r.value && r.value.id == id
                                        && forall j :: i < j < |records| ==> records[j].id != id)
  {
    if records != [] {
      var last := |records| - 1;
      if records[last].id != id {
        NewestWins(records[..last], id);
        assert forall i :: 0 <= i < last ==> records[..last][i] == records[i];
      }
    }
  }

  lemma NewestOfPrefix(records: seq<StageRecord>, id: string, i: nat)
    requires i < |records|
    ensures Newest(records[..i + 1], id) == if records[i].id == id then Some(records[i]) else Newest(records[..i], id)
  {
    assert records[..i + 1][..i] == records[..i];
  }

  method StageOf(records: seq<StageRecord>, id: string) returns (r: Option<StageRecord>)
    ensures r == Newest(records, id)
    ensures r.Some? <==> exists i :: 0 <= i < |records| && records[i].id == id
    ensures r.Some? ==> exists i :: 0 <= i < |records| && records[i] == r.value && r.value.id == id
                                    && forall j :: i < j < |records| ==> records[j].id != id
  {
    NewestWins(records, id);
    var i := |records|;
    assert records[..i] == records;
    while i > 0
      invariant 0 <= i <= |records| && Newest(records, id) == Newest(records[..i], id)
    {
      i := i - 1;
      NewestOfPrefix(records, id, i);
      if records[i].id == id { return Some(records[i]); }
    }
    return None;
  }

  /** Whether an interrupted swap landed, judged by the balance; None when there is none to judge. */
  function ResolvePendingSwap(stage: Option<StageRecord>, balanceNow: nat): Option<bool> {
    if stage.None? || !stage.value.status.Pending? then None
    else
      var before, expected := stage.value.spyxBefore, stage.value.minOut;
      if balanceNow >= before + expected && expected > 0 then Some(true)
      else if balanceNow > before then Some(true)
      else Some(false)
  }

  /** Whatever was expected, an interrupted swap counts as landed exactly when the balance rose. */
  lemma LandedIffBalanceRose(stage: StageRecord, balanceNow: nat)
    requires stage.status.Pending?
    ensures ResolvePendingSwap(Some(stage), balanceNow) == Some(balanceNow > stage.spyxBefore)
  {
  }

  // ------------------------------------------------------------ the checks

  const UPPER_TOLERANCE_BPS: nat := 100

  datatype Refusal = NoOutput | NotComparable | OffMid | BelowRequired | SlippageTooLoose

  /** `deviation` is the route's distance from the mid price in bps, None where it cannot be computed. */
  datatype Quoted = Quoted(lamportsIn: int, outAmount: int, routeMinOut: int, routeSlippageBps: Option<int>, deviation: Option<int>)

  function Larger(a: int, b: int): int { if a > b then a else b }

  function MinOut(q: Quoted, slippageBps: int): int {
    Larger(TruncDiv(q.outAmount * (BPS - slippageBps), BPS), q.routeMinOut)
  }

  function CheckSwapQuote(q: Quoted, slippageBps: int, maxDeviationBps: int, requiredOut: int): seq<Refusal> {
    (if q.outAmount <= 0 then [NoOutput] else [])
    + (match q.deviation
       case None => [NotComparable]
       case Some(d) => if (if d < 0 then -d else d) > maxDeviationBps then [OffMid] else [])
    + (if requiredOut > 0 && MinOut(q, slippageBps) < requiredOut then [BelowRequired] else [])
    + (if q.routeSlippageBps.Some? && q.routeSlippageBps.value > slippageBps then [SlippageTooLoose] else [])
  }

  function MaxOut(quotedOut: int): int { TruncDiv(quotedOut * (BPS + UPPER_TOLERANCE_BPS), BPS) }

  predicate CheckSwapReceipt(received: int, quotedOut: int, minOut: int) {
    minOut <= received <= MaxOut(quotedOut)
  }

  /**
   * A swap whose quote and receipt both pass delivered at least what the stage must deliver, at least
   * the route's own minimum, no less than the quote minus the slippage cap and at most 1% above it.
   */
  lemma CheckedSwapDelivers(q: Quoted, slippageBps: int, maxDeviationBps: int, requiredOut: nat, received: nat)
    requires CheckSwapQuote(q, slippageBps, maxDeviationBps, requiredOut) == []
    requires CheckSwapReceipt(received, q.outAmount, MinOut(q, slippageBps))
    ensures received >= requiredOut && received >= q.routeMinOut
    ensures (received + 1) * BPS > q.outAmount * (BPS - slippageBps)
    ensures received * 100 <= q.outAmount * 101
  {
    PassesEach(q, slippageBps, maxDeviationBps, requiredOut);
    Truncated(q.outAmount * (BPS - slippageBps), BPS);
    Truncated(q.outAmount * (BPS + UPPER_TOLERANCE_BPS), BPS);
  }

  /**
   * A quote worth executing: it delivers something, at a price within the deviation limit on either side
   * of the mid, with no looser slippage than the cap, and whichever minimum is larger covers what is required.
   */
  predicate SafeQuote(q: Quoted, slippageBps: int, maxDeviationBps: int, requiredOut: int) {
    && q.outAmount > 0
    && q.deviation.Some? && -maxDeviationBps <= q.deviation.value <= maxDeviationBps
    && (q.routeSlippageBps.Some? ==> q.routeSlippageBps.value <= slippageBps)
    && (requiredOut > 0 ==>
          requiredOut <= q.routeMinOut || requiredOut * 10_000 <= q.outAmount * (10_000 - slippageBps))
  }

  /** The checks pass a quote exactly when it is such a one. */
  lemma PassesIff(q: Quoted, slippageBps: int, maxDeviationBps: int, requiredOut: int)
    ensures CheckSwapQuote(q, slippageBps, maxDeviationBps, requiredOut) == []
       <==> SafeQuote(q, slippageBps, maxDeviationBps, requiredOut)
  {
    var n := q.outAmount * (10_000 - slippageBps);
    Truncated(n, BPS);
    if requiredOut > 0 {
      CoversIff(n, requiredOut);
    }
    var a: seq<Refusal> := if q.outAmount <= 0 then [NoOutput] else [];
    var b: seq<Refusal> := match q.deviation
      case None => [NotComparable]
      case Some(d) => if (if d < 0 then -d else d) > maxDeviationBps then [OffMid] else [];
    var c: seq<Refusal> := if requiredOut > 0 && MinOut(q, slippageBps) < requiredOut then [BelowRequired] else [];
    var d: seq<Refusal> :=
      if q.routeSlippageBps.Some? && q.routeSlippageBps.value > slippageBps then [SlippageTooLoose] else [];
    assert CheckSwapQuote(q, slippageBps, maxDeviationBps, requiredOut) == a + b + c + d;
    assert |a + b + c + d| == |a| + |b| + |c| + |d|;
  }

  lemma CoversIff(n: int, required: int)
    requires required > 0
    ensures TruncDiv(n, BPS) >= required <==> required * 10_000 <= n
  {
    Truncated(n, BPS);
  }

  lemma PassesEach(q: Quoted, slippageBps: int, maxDeviationBps: int, requiredOut: int)
    requires CheckSwapQuote(q, slippageBps, maxDeviationBps, requiredOut) == []
    ensures q.outAmount > 0 && (requiredOut > 0 ==> MinOut(q, slippageBps) >= requiredOut)
  {
    var a: seq<Refusal> := if q.outAmount <= 0 then [NoOutput] else [];
    var c: seq<Refusal> := if requiredOut > 0 && MinOut(q, slippageBps) < requiredOut then [BelowRequired] else [];
    assert |CheckSwapQuote(q, slippageBps, maxDeviationBps, requiredOut)| >= |a| + |c|;
  }

  /** A receipt passes exactly from the minimum accepted to 1% above the quote. */
  lemma ReceiptPassesIff(received: int, quotedOut: nat, minOut: int)
    ensures CheckSwapReceipt(received, quotedOut, minOut) <==> minOut <= received && received * 100 <= quotedOut * 101
  {
    Truncated(quotedOut * (BPS + UPPER_TOLERANCE_BPS), BPS);
  }

  // ------------------------------------------------------------ sizing the input

  /** The output covers what is required and overshoots it by at most 2%. */
  predicate InWindow(q: Quoted, requiredOut: int) {
    requiredOut <= q.outAmount <= TruncDiv(requiredOut * 102, 100)
  }

  /** The input rescaled to 1% above the requirement. */
  function Rescaled(q: Quoted, requiredOut: int): int
    requires q.outAmount > 0
  {
    TruncDiv(q.lamportsIn * TruncDiv(requiredOut * 101, 100), q.outAmount)
  }

  /** `next` is asked only after a usable quote that misses the window. */
  predicate Requoted(q: Quoted, requiredOut: int, next: int) {
    q.outAmount > 0 && !InWindow(q, requiredOut) && next == Rescaled(q, requiredOut) && next != q.lamportsIn
  }

  /** The window reaches 2% above the requirement; the next input aims at 1% above it at the rate just quoted. */
  lemma RequotesAre(q: Quoted, required: nat, aim: nat, next: nat)
    requires aim * 100 <= required * 101 < (aim + 1) * 100
    ensures InWindow(q, required) <==> required <= q.outAmount && q.outAmount * 100 <= required * 102
    ensures q.outAmount > 0 && q.lamportsIn >= 0 ==>
              (Rescaled(q, required) == next <==> next * q.outAmount <= q.lamportsIn * aim < (next + 1) * q.outAmount)
  {
    Truncated(required * 102, 100);
    Truncated(required * 101, 100);
    if q.outAmount > 0 && q.lamportsIn >= 0 {
      ProductNat(q.lamportsIn, aim);
      RoundedDown(q.lamportsIn * aim, q.outAmount, next);
    }
  }

  lemma ProductNat(a: nat, b: nat)
    ensures a * b >= 0
  {
  }

  lemma RoundedDown(n: nat, d: nat, q: nat)
    requires d > 0
    ensures TruncDiv(n, d) == q <==> q * d <= n < (q + 1) * d
  {
    Truncated(n, d);
    var r := TruncDiv(n, d);
    if q < r {
      Ordered(q + 1, r, d);
    } else if q > r {
      Ordered(r + 1, q, d);
    }
  }

  lemma Ordered(a: nat, b: nat, d: nat)
    requires a <= b
    ensures a * d <= b * d
  {
  }

  /** The quote a stage settles on, with `rounds` re-quotes left. */
  function Sized(quote: int -> Quoted, q: Quoted, requiredOut: int, rounds: nat): Quoted
    decreases rounds
  {
    if rounds == 0 || requiredOut <= 0 || InWindow(q, requiredOut) || q.outAmount <= 0
       || Rescaled(q, requiredOut) == q.lamportsIn
    then q
    else Sized(quote, quote(Rescaled(q, requiredOut)), requiredOut, rounds - 1)
  }

  /** At most three re-quotes; it stops early only where no re-quote could help. */
  method SizeQuote(quote: int -> Quoted, lamportsIn: int, requiredOut: int) returns (q: Quoted, asked: seq<int>)
    ensures q == Sized(quote, quote(lamportsIn), requiredOut, 3)
    ensures 1 <= |asked| <= 4 && asked[0] == lamportsIn && q == quote(asked[|asked| - 1])
    ensures requiredOut <= 0 ==> |asked| == 1
    ensures |asked| < 4 && requiredOut > 0 ==>
              InWindow(q, requiredOut) || q.outAmount <= 0 || Rescaled(q, requiredOut) == q.lamportsIn
    ensures forall i :: 0 <= i < |asked| - 1 ==> Requoted(quote(asked[i]), requiredOut, asked[i + 1])
  {
    q := quote(lamportsIn);
    asked := [lamportsIn];
    var i := 0;
    while i < 3 && requiredOut > 0
      invariant 0 <= i <= 3 && |asked| == i + 1 && asked[0] == lamportsIn && q == quote(asked[i])
      invariant requiredOut <= 0 ==> i == 0
      invariant Sized(quote, quote(lamportsIn), requiredOut, 3) == Sized(quote, q, requiredOut, 3 - i)
      invariant forall j :: 0 <= j < |asked| - 1 ==> Requoted(quote(asked[j]), requiredOut, asked[j + 1])
    {
      if InWindow(q, requiredOut) { break; }
      if q.outAmount <= 0 { break; }
      var scaled := Rescaled(q, requiredOut);
      if scaled == q.lamportsIn { break; }
      assert Requoted(quote(asked[i]), requiredOut, scaled);
      q := quote(scaled);
      asked := asked + [scaled];
      i := i + 1;
    }
  }

  // ------------------------------------------------------------ what can happen to a stage

  const TEST := "swap:test"
  const MAIN := "swap:main"

  datatype Limits = Limits(slippageBps: int, maxDeviationBps: int, minDeployer: nat)

  /** Whether a purchase goes out after it is recorded, and what it delivers when it lands. */
  datatype Execution = Fails | Goes(received: nat)

  /** What the checks make of an attempt that finds no landed purchase; `Unsent` stops after its record. */
  datatype Offer =
    | Refused
    | TooPoor
    | Unsent(minOut: int)
    | Sent(received: nat, quotedOut: int, minOut: int)

  /** The checks between the quote and the purchase, in their order. */
  function OfferOf(q: Quoted, limits: Limits, requiredOut: int, lamports: nat, x: Execution): Offer {
    if CheckSwapQuote(q, limits.slippageBps, limits.maxDeviationBps, requiredOut) != [] then Refused
    else if lamports - q.lamportsIn < limits.minDeployer then TooPoor
    else
      match x
      case Fails => Unsent(MinOut(q, limits.slippageBps))
      case Goes(received) => Sent(received, q.outAmount, MinOut(q, limits.slippageBps))
  }

  /**
   * An attempt is refused unless its quote is safe, stops before its record where the deployer would keep
   * less than its minimum, and records as its minimum the larger of the route's and the slippage floor.
   */
  lemma OfferIs(q: Quoted, limits: Limits, requiredOut: int, lamports: nat, x: Execution, bound: int)
    requires bound > 0
    ensures var o := OfferOf(q, limits, requiredOut, lamports, x);
            if !SafeQuote(q, limits.slippageBps, limits.maxDeviationBps, requiredOut) then o == Refused
            else if lamports < q.lamportsIn + limits.minDeployer then o == TooPoor
            else
              && (x.Fails? ==> o.Unsent?)
              && (x.Goes? ==> o.Sent? && o.received == x.received && o.quotedOut == q.outAmount)
              && (o.minOut >= bound <==> q.routeMinOut >= bound || bound * 10_000 <= q.outAmount * (10_000 - limits.slippageBps))
  {
    PassesIff(q, limits.slippageBps, limits.maxDeviationBps, requiredOut);
    CoversIff(q.outAmount * (10_000 - limits.slippageBps), bound);
  }

  /** A process that has sent a purchase and waits for the balance to rise above `before`. */
  datatype Poll = Poll(before: nat, quotedOut: int, minOut: int)

  /** `inFlight` holds what each purchase that was sent and has not landed will deliver. */
  datatype Book = Book(
    records: seq<StageRecord>,
    spyx: nat,
    inFlight: seq<nat>,
    sent: nat,
    landed: nat,
    refused: nat,
    poll: Option<Poll>)

  /**
   * A process reaches the stage; a purchase in flight lands; the waiting process checks what arrived,
   * or dies. Purchases land whenever they like, in any order, or never; a process that starts is the
   * only one alive. A landing between the look at the balance and the purchase is one after it.
   */
  datatype Event = Start(offer: Offer) | Land(k: nat) | Judge | Die

  /** A purchase of the stage is pending and the balance rose since it was recorded. */
  predicate PendingLanded(b: Book, id: string) {
    ResolvePendingSwap(Newest(b.records, id), b.spyx) == Some(true)
  }

  predicate IsDone(b: Book, id: string) {
    Newest(b.records, id).Some? && Newest(b.records, id).value.status.Done?
  }

  function Started(b: Book, id: string, o: Offer): Book {
    if PendingLanded(b, id) then
      b.(poll := None, records := b.records + [StageRecord(id, Done, 0, 0)])
    else match o
      case Refused => b.(poll := None, records := b.records + [StageRecord(id, Failed, 0, 0)])
      case TooPoor => b.(poll := None)
      case Unsent(minOut) => b.(poll := None, records := b.records + [StageRecord(id, Pending, b.spyx, minOut)])
      case Sent(received, quotedOut, minOut) =>
        b.(poll := Some(Poll(b.spyx, quotedOut, minOut)), records := b.records + [StageRecord(id, Pending, b.spyx, minOut)],
           inFlight := b.inFlight + [received], sent := b.sent + 1)
  }

  function Landing(b: Book, k: nat): Book {
    if k < |b.inFlight| then
      b.(spyx := b.spyx + b.inFlight[k], inFlight := b.inFlight[..k] + b.inFlight[k + 1..], landed := b.landed + 1)
    else b
  }

  function Judged(b: Book, id: string): Book {
    match b.poll
    case None => b
    case Some(p) =>
      if CheckSwapReceipt(b.spyx - p.before, p.quotedOut, p.minOut)
      then b.(poll := None, records := b.records + [StageRecord(id, Done, 0, 0)])
      else b.(poll := None, records := b.records + [StageRecord(id, Failed, 0, 0)], refused := b.refused + 1)
  }

  function Step(b: Book, id: string, e: Event): Book {
    match e
    case Start(o) => Started(b, id, o)
    case Land(k) => Landing(b, k)
    case Judge => Judged(b, id)
    case Die => b.(poll := None)
  }

  function Steps(b: Book, id: string, events: seq<Event>): Book
    decreases |events|
  {
    if events == [] then b else Steps(Step(b, id, events[0]), id, events[1..])
  }

  lemma {:induction false} StepsJoin(b: Book, id: string, a: seq<Event>, c: seq<Event>)
    ensures Steps(b, id, a + c) == Steps(Steps(b, id, a), id, c)
    decreases |a|
  {
    if a == [] {
      assert a + c == c;
    } else {
      assert (a + c)[0] == a[0] && (a + c)[1..] == a[1..] + c;
      StepsJoin(Step(b, id, a[0]), id, a[1..], c);
    }
  }

  // ------------------------------------------------------------ one run of the stage

  const POLLS: nat := 30

  function Lands(ks: seq<nat>): seq<Event> {
    if ks == [] then [] else [Land(ks[0])] + Lands(ks[1..])
  }

  /**
   * What a waiting process does with `checks` looks at the balance left, when `arrivals[i]` land in its
   * i-th pause: it checks the receipt at the first rise or at its last look, and dies where they end.
   */
  function PollEvents(b: Book, id: string, arrivals: seq<seq<nat>>, checks: nat): seq<Event>
    requires b.poll.Some? && checks > 0
    decreases checks
  {
    if b.spyx > b.poll.value.before then [Judge]
    else if arrivals == [] then [Die]
    else if checks == 1 then [Judge] + Lands(arrivals[0])
    else
      LandsKeepPoll(b, id, arrivals[0]);
      Lands(arrivals[0]) + PollEvents(Steps(b, id, Lands(arrivals[0])), id, arrivals[1..], checks - 1)
  }

  /** A purchase that does not arrive is judged at the thirtieth look; a process that lives less long judges nothing. */
  lemma ThirtyLooks(b: Book, id: string, arrivals: seq<seq<nat>>)
    requires b.poll.Some? && b.spyx <= b.poll.value.before && forall i :: 0 <= i < |arrivals| ==> arrivals[i] == []
    ensures PollEvents(b, id, arrivals, POLLS) == if |arrivals| >= 30 then [Judge] else [Die]
  {
    EmptyLooks(b, id, arrivals, POLLS);
  }

  lemma {:induction false} EmptyLooks(b: Book, id: string, arrivals: seq<seq<nat>>, checks: nat)
    requires b.poll.Some? && b.spyx <= b.poll.value.before && forall i :: 0 <= i < |arrivals| ==> arrivals[i] == []
    requires checks > 0
    ensures PollEvents(b, id, arrivals, checks) == if |arrivals| >= checks then [Judge] else [Die]
    decreases checks
  {
    if arrivals != [] && checks > 1 {
      EmptyLooks(b, id, arrivals[1..], checks - 1);
    }
  }

  lemma {:induction false} LandsKeepPoll(b: Book, id: string, ks: seq<nat>)
    ensures Steps(b, id, Lands(ks)).poll == b.poll && Steps(b, id, Lands(ks)).records == b.records
    decreases |ks|
  {
    if ks != [] {
      LandsKeepPoll(Landing(b, ks[0]), id, ks[1..]);
      assert Lands(ks)[1..] == Lands(ks[1..]);
    }
  }

  /** The events of one run: it starts and, if it sent a purchase, waits for it. */
  function RunEvents(b: Book, id: string, o: Offer, arrivals: seq<seq<nat>>): seq<Event> {
    var c := Started(b, id, o);
    if c.poll.Some? then [Start(o)] + PollEvents(c, id, arrivals, POLLS) else [Start(o)]
  }

  /** One look of the waiting process, and what it leads to. */
  lemma PollIs(b: Book, id: string, arrivals: seq<seq<nat>>, checks: nat)
    requires b.poll.Some? && checks > 0
    ensures arrivals != [] ==> Steps(b, id, Lands(arrivals[0])).poll == b.poll
    ensures Steps(b, id, PollEvents(b, id, arrivals, checks))
         == if b.spyx > b.poll.value.before then Judged(b, id)
            else if arrivals == [] then b.(poll := None)
            else if checks == 1 then Steps(Judged(b, id), id, Lands(arrivals[0]))
            else
              var c := Steps(b, id, Lands(arrivals[0]));
              Steps(c, id, PollEvents(c, id, arrivals[1..], checks - 1))
  {
    OneStep(b, id, Judge);
    OneStep(b, id, Die);
    if b.spyx <= b.poll.value.before && arrivals != [] {
      var ks := arrivals[0];
      LandsKeepPoll(b, id, ks);
      StepsJoin(b, id, [Judge], Lands(ks));
      if checks > 1 {
        StepsJoin(b, id, Lands(ks), PollEvents(Steps(b, id, Lands(ks)), id, arrivals[1..], checks - 1));
      }
    } else if arrivals != [] {
      LandsKeepPoll(b, id, arrivals[0]);
    }
  }

  lemma OneStep(b: Book, id: string, e: Event)
    ensures Steps(b, id, [e]) == Step(b, id, e)
  {
    assert [e][1..] == [];
  }

  lemma LandsCons(b: Book, id: string, ks: seq<nat>)
    requires ks != []
    ensures Steps(b, id, Lands(ks)) == Steps(Landing(b, ks[0]), id, Lands(ks[1..]))
  {
    assert Lands(ks)[0] == Land(ks[0]) && Lands(ks)[1..] == Lands(ks[1..]);
  }

  class SwapStage {
    var records: seq<StageRecord>
    var spyx: nat
    var inFlight: seq<nat>
    var sent: nat
    var landed: nat
    var refused: nat
    var poll: Option<Poll>

    constructor ()
      ensures Now() == Book([], 0, [], 0, 0, 0, None)
    {
      records, spyx, inFlight, sent, landed, refused, poll := [], 0, [], 0, 0, 0, None;
    }

    ghost function Now(): Book
      reads this
    {
      Book(records, spyx, inFlight, sent, landed, refused, poll)
    }

    method Record(id: string, status: StageStatus, before: nat, minOut: int)
      modifies this`records
      ensures records == old(records) + [StageRecord(id, status, before, minOut)]
    {
      records := records + [StageRecord(id, status, before, minOut)];
    }

    method Arrive(k: nat)
      modifies this`spyx, this`inFlight, this`landed
      ensures Now() == Landing(old(Now()), k) && sent == old(sent)
    {
      if k < |inFlight| {
        spyx := spyx + inFlight[k];
        inFlight := inFlight[..k] + inFlight[k + 1..];
        landed := landed + 1;
      }
    }

    /** One pause of the waiting process. */
    method Pause(id: string, ks: seq<nat>)
      modifies this`spyx, this`inFlight, this`landed
      ensures Now() == Steps(old(Now()), id, Lands(ks)) && sent == old(sent)
    {
      ghost var start := Now();
      for i := 0 to |ks|
        invariant Steps(start, id, Lands(ks)) == Steps(Now(), id, Lands(ks[i..])) && sent == start.sent
      {
        LandsCons(Now(), id, ks[i..]);
        assert ks[i..][1..] == ks[i + 1..];
        Arrive(ks[i]);
      }
    }

    /** Check what arrived, and record the verdict. */
    method Receive(id: string, received: int)
      requires poll.Some? && received == spyx - poll.value.before
      modifies this
      ensures Now() == Judged(old(Now()), id) && sent == old(sent)
    {
      if CheckSwapReceipt(received, poll.value.quotedOut, poll.value.minOut) {
        Record(id, Done, 0, 0);
      } else {
        refused := refused + 1;
        Record(id, Failed, 0, 0);
      }
      poll := None;
    }

    /** Wait for the purchase: look at the balance, pause, look again. */
    method Wait(id: string, arrivals: seq<seq<nat>>)
      requires poll.Some?
      modifies this
      ensures Now() == Steps(old(Now()), id, PollEvents(old(Now()), id, arrivals, POLLS)) && sent == old(sent)
    {
      ghost var start := Now();
      var before := poll.value.before;
      var i := 0;
      while true
        invariant 0 <= i < POLLS && i <= |arrivals| && poll.Some? && poll.value.before == before && sent == start.sent
        invariant Steps(start, id, PollEvents(start, id, arrivals, POLLS))
               == Steps(Now(), id, PollEvents(Now(), id, arrivals[i..], POLLS - i))
        decreases POLLS - i
      {
        var received := spyx - before;
        PollIs(Now(), id, arrivals[i..], POLLS - i);
        if received > 0 {
          Receive(id, received);
          return;
        }
        if i == |arrivals| {
          poll := None;
          return;
        }
        var ks := arrivals[i];
        if i == POLLS - 1 {
          Receive(id, received);
          Pause(id, ks);
          return;
        }
        assert arrivals[i..][1..] == arrivals[i + 1..];
        Pause(id, ks);
        i := i + 1;
      }
    }

    /**
     * A landed purchase is looked for first; then the input is sized, the quote checked, the purchase
     * recorded before it is sent, and what arrives judged by the balance.
     */
    method RunSwap(id: string, quote: int -> Quoted, lamportsIn: int, requiredOut: int, limits: Limits, lamports: nat,
                   x: Execution, arrivals: seq<seq<nat>>)
      requires poll.None?
      modifies this
      ensures var o := OfferOf(Sized(quote, quote(lamportsIn), requiredOut, 3), limits, requiredOut, lamports, x);
              Now() == Steps(old(Now()), id, RunEvents(old(Now()), id, o, arrivals))
      ensures sent == old(sent) || sent == old(sent) + 1
      ensures sent > old(sent) ==>
                var q := Sized(quote, quote(lamportsIn), requiredOut, 3);
                && SafeQuote(q, limits.slippageBps, limits.maxDeviationBps, requiredOut)
                && lamports - q.lamportsIn >= limits.minDeployer
    {
      ghost var b := Now();
      ghost var o := OfferOf(Sized(quote, quote(lamportsIn), requiredOut, 3), limits, requiredOut, lamports, x);
      OneStep(b, id, Start(o));
      var before := spyx;
      var stage := StageOf(records, id);
      if ResolvePendingSwap(stage, before) == Some(true) {
        Record(id, Done, 0, 0);
        return;
      }
      var q, _ := SizeQuote(quote, lamportsIn, requiredOut);
      if CheckSwapQuote(q, limits.slippageBps, limits.maxDeviationBps, requiredOut) != [] {
        Record(id, Failed, 0, 0);
        return;
      }
      if lamports - q.lamportsIn < limits.minDeployer { return; }
      PassesIff(q, limits.slippageBps, limits.maxDeviationBps, requiredOut);
      var minOut := MinOut(q, limits.slippageBps);
      Record(id, Pending, before, minOut);
      if x.Goes? {
        inFlight := inFlight + [x.received];
        sent := sent + 1;
        poll := Some(Poll(before, q.outAmount, minOut));
        assert Now() == Started(b, id, o);
        StepsJoin(b, id, [Start(o)], PollEvents(Now(), id, arrivals, POLLS));
        Wait(id, arrivals);
      }
    }
  }

  // ------------------------------------------------------------ purchases that were sent

  /** Every purchase that was sent has landed or is in flight. */
  predicate Tallied(b: Book) { b.landed + |b.inFlight| == b.sent }

  lemma StepKeepsTally(b: Book, id: string, e: Event)
    requires Tallied(b)
    ensures Tallied(Step(b, id, e)) && Step(b, id, e).sent >= b.sent
  {
  }

  lemma {:induction false} StepsKeepTally(b: Book, id: string, events: seq<Event>)
    requires Tallied(b)
    ensures Tallied(Steps(b, id, events))
    decreases |events|
  {
    if events != [] {
      StepKeepsTally(b, id, events[0]);
      StepsKeepTally(Step(b, id, events[0]), id, events[1..]);
    }
  }

  /** All of them may land: one purchase sent means at most one that lands, and two sent can both land. */
  lemma {:induction false} AllMayLand(b: Book, id: string) returns (events: seq<Event>)
    requires Tallied(b)
    ensures Steps(b, id, events).landed == b.sent
    decreases |b.inFlight|
  {
    if b.inFlight == [] {
      events := [];
    } else {
      var rest := AllMayLand(Landing(b, 0), id);
      events := [Land(0)] + rest;
      assert events[1..] == rest;
    }
  }

  lemma NewestOfAppend(records: seq<StageRecord>, r: StageRecord)
    ensures Newest(records + [r], r.id) == Some(r)
  {
  }
}
