/** The crank's loop: execute the first due action, read the chain again and re-plan, amid other senders. */
module CrankRun {
  import opened Market
  import opened Crank
  import opened CrankSoundness
  import Sequences

  /** What happens to a sent transaction; `LandsUnseen` is one whose sender sees an error although it landed. */
  datatype Delivery = Lands | LandsUnseen | Dropped

  /** One iteration's world: what others do before the transaction arrives and before the next read. */
  datatype Round = Round(before: seq<Step>, delivery: Delivery, after: seq<Step>)

  datatype Status = Executed | Skipped | Failed

  datatype Report = Report(action: Action, status: Status)

  /** `seen` holds every state the crank read; the last one is the final state. */
  datatype CrankResult = CrankResult(reports: seq<Report>, remaining: seq<Action>, seen: seq<Chain>)

  function Unfailed(actions: seq<Action>, failed: set<Key>): (r: seq<Action>)
    ensures forall a :: a in r <==> a in actions && KeyOf(a) !in failed
  {
    if actions == [] then []
    else
      var rest := Unfailed(actions[1..], failed);
      assert forall a :: a in actions <==> a == actions[0] || a in actions[1..];
      if KeyOf(actions[0]) in failed then rest else [actions[0]] + rest
  }

  function Due(c: Chain, o: Options, failed: set<Key>): seq<Action> {
    Unfailed(Plan(c, o), failed)
  }

  predicate KeyDue(c: Chain, o: Options, key: Key) {
    exists a :: a in Plan(c, o) && KeyOf(a) == key
  }

  /** The chain when the transaction arrives. */
  function Arrival(c: Chain, r: Round): Chain { Run(c, r.before) }

  predicate Reported(c: Chain, a: Action, r: Round) {
    r.delivery.Lands? && Execute(Arrival(c, r), StepOf(Arrival(c, r), a)).Ok?
  }

  /** The chain at the next read. */
  function NextRead(c: Chain, a: Action, r: Round): Chain {
    var now := Arrival(c, r);
    Run(if r.delivery.Dropped? then now else After(now, a), r.after)
  }

  function StatusOf(c: Chain, o: Options, a: Action, r: Round): Status {
    if Reported(c, a, r) then Executed
    else if KeyDue(NextRead(c, a, r), o, KeyOf(a)) then Failed
    else Skipped
  }

  function WithFailure(failed: set<Key>, a: Action, status: Status): set<Key> {
    if status.Failed? then failed + {KeyOf(a)} else failed
  }

  /** The run from a read of `c`, with one round for each iteration the cap still allows. */
  function CrankFrom(c: Chain, o: Options, failed: set<Key>, rounds: seq<Round>): CrankResult
    decreases |rounds|
  {
    if rounds == [] || Due(c, o, failed) == [] then CrankResult([], Plan(c, o), [c])
    else
      var a := Due(c, o, failed)[0];
      var status := StatusOf(c, o, a, rounds[0]);
      var rest := CrankFrom(NextRead(c, a, rounds[0]), o, WithFailure(failed, a, status), rounds[1..]);
      CrankResult([Report(a, status)] + rest.reports, rest.remaining, [c] + rest.seen)
  }

  function Joined(reports: seq<Report>, seen: seq<Chain>, rest: CrankResult): CrankResult {
    CrankResult(reports + rest.reports, rest.remaining, seen + rest.seen)
  }

  lemma OneRound(reports: seq<Report>, seen: seq<Chain>, c: Chain, o: Options, failed: set<Key>, rounds: seq<Round>,
                 a: Action, next: Chain, status: Status)
    requires rounds != [] && Due(c, o, failed) != [] && a == Due(c, o, failed)[0]
    requires next == NextRead(c, a, rounds[0]) && status == StatusOf(c, o, a, rounds[0])
    ensures Joined(reports, seen, CrankFrom(c, o, failed, rounds))
         == Joined(reports + [Report(a, status)], seen + [c],
                   CrankFrom(next, o, WithFailure(failed, a, status), rounds[1..]))
  {
    var tail := CrankFrom(next, o, WithFailure(failed, a, status), rounds[1..]);
    Sequences.Associate(reports, [Report(a, status)], tail.reports);
    Sequences.Associate(seen, [c], tail.seen);
  }

  lemma LastRound(reports: seq<Report>, seen: seq<Chain>, c: Chain, o: Options, failed: set<Key>, rounds: seq<Round>)
    requires rounds == [] || Due(c, o, failed) == []
    ensures Joined(reports, seen, CrankFrom(c, o, failed, rounds)) == CrankResult(reports, Plan(c, o), seen + [c])
  {
  }

  /** What the re-planned chain says of an action that was not reported as landed. */
  method StatusAfter(c: Chain, o: Options, a: Action, r: Round) returns (status: Status)
    ensures status == StatusOf(c, o, a, r)
  {
    if Reported(c, a, r) { return Executed; }
    var replanned := PlanCrank(NextRead(c, a, r), o);
    var stillDue := exists b :: b in replanned && KeyOf(b) == KeyOf(a);
    status := if stillDue then Failed else Skipped;
  }

  method RunCrank(start: Chain, o: Options, rounds: seq<Round>) returns (r: CrankResult)
    ensures r == CrankFrom(start, o, {}, rounds)
  {
    var reports: seq<Report>, seen: seq<Chain> := [], [];
    var state := start;
    var failed: set<Key> := {};
    var i := 0;
    ghost var whole := CrankFrom(start, o, {}, rounds);
    while i < |rounds|
      invariant 0 <= i <= |rounds|
      invariant whole == Joined(reports, seen, CrankFrom(state, o, failed, rounds[i..]))
    {
      var plan := PlanCrank(state, o);
      var due := Unfailed(plan, failed);
      if due == [] { break; }
      var action := due[0];
      var next := NextRead(state, action, rounds[i]);
      var status := StatusAfter(state, o, action, rounds[i]);
      assert rounds[i..][0] == rounds[i] && rounds[i..][1..] == rounds[i + 1..];
      OneRound(reports, seen, state, o, failed, rounds[i..], action, next, status);
      reports, seen := reports + [Report(action, status)], seen + [state];
      if status.Failed? { failed := failed + {KeyOf(action)}; }
      state := next;
      i := i + 1;
    }
    LastRound(reports, seen, state, o, failed, rounds[i..]);
    var remaining := PlanCrank(state, o);
    r := CrankResult(reports, remaining, seen + [state]);
  }
}
