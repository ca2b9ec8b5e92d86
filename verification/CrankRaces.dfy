/** What the crank's loop promises whatever other senders do and whatever happens to its transactions. */
module CrankRaces {
  import opened Redemption
  import opened Market
  import opened MarketSafety
  import opened MarketRuns
  import opened Crank
  import opened CrankSoundness
  import opened CrankRun

  // ------------------------------------------------------------ the report

  /**
   * A report says what the two reads around its transaction show: executed exactly when the transaction
   * landed, was seen to, and succeeded where it arrived.
   */
  predicate Faithful(o: Options, before: Chain, report: Report, round: Round, next: Chain) {
    var a, status := report.action, report.status;
    && a in Plan(before, o)
    && next == NextRead(before, a, round)
    && (var arrived := Run(before, round.before);
        status.Executed? <==> round.delivery == Lands && Execute(arrived, StepOf(arrived, a)).Ok?)
    && (status.Failed? ==> KeyDue(next, o, KeyOf(a)))
    && (status.Skipped? ==> !KeyDue(next, o, KeyOf(a)))
  }

  predicate AllFaithful(o: Options, rounds: seq<Round>, r: CrankResult) {
    && |r.reports| <= |rounds| && |r.seen| == |r.reports| + 1
    && forall i :: 0 <= i < |r.reports| ==> Faithful(o, r.seen[i], r.reports[i], rounds[i], r.seen[i + 1])
  }

  /** At most one transaction per round; what is reported is what the reads show; the rest is the final plan. */
  lemma {:induction false} ReportsAreFaithful(c: Chain, o: Options, failed: set<Key>, rounds: seq<Round>)
    ensures var r := CrankFrom(c, o, failed, rounds);
            AllFaithful(o, rounds, r) && r.seen[0] == c && r.remaining == Plan(r.seen[|r.reports|], o)
    decreases |rounds|
  {
    if rounds != [] && Due(c, o, failed) != [] {
      var a := Due(c, o, failed)[0];
      var status := StatusOf(c, o, a, rounds[0]);
      var next := NextRead(c, a, rounds[0]);
      ReportsAreFaithful(next, o, WithFailure(failed, a, status), rounds[1..]);
      assert Faithful(o, c, Report(a, status), rounds[0], next);
      FaithfulLater(c, o, rounds, Report(a, status), CrankFrom(next, o, WithFailure(failed, a, status), rounds[1..]));
    }
  }

  lemma FaithfulLater(c: Chain, o: Options, rounds: seq<Round>, report: Report, rest: CrankResult)
    requires rounds != [] && AllFaithful(o, rounds[1..], rest)
    requires Faithful(o, c, report, rounds[0], rest.seen[0])
    ensures AllFaithful(o, rounds, CrankResult([report] + rest.reports, rest.remaining, [c] + rest.seen))
  {
    var p := (before, report, round, next) => Faithful(o, before, report, round, next);
    HoldsLater(p, c, rounds, report, rest);
    var r := CrankResult([report] + rest.reports, rest.remaining, [c] + rest.seen);
    assert forall i :: 0 <= i < |r.reports| ==> p(r.seen[i], r.reports[i], rounds[i], r.seen[i + 1]);
  }

  lemma HoldsLater(p: (Chain, Report, Round, Chain) -> bool, c: Chain, rounds: seq<Round>, report: Report, rest: CrankResult)
    requires rounds != [] && |rest.reports| < |rounds| && |rest.seen| == |rest.reports| + 1
    requires forall i :: 0 <= i < |rest.reports| ==> p(rest.seen[i], rest.reports[i], rounds[1..][i], rest.seen[i + 1])
    requires p(c, report, rounds[0], rest.seen[0])
    ensures var reports, seen := [report] + rest.reports, [c] + rest.seen;
            forall i :: 0 <= i < |reports| ==> p(seen[i], reports[i], rounds[i], seen[i + 1])
  {
    var reports, seen := [report] + rest.reports, [c] + rest.seen;
    forall i | 0 <= i < |reports| ensures p(seen[i], reports[i], rounds[i], seen[i + 1]) {
      if i > 0 {
        assert p(rest.seen[i - 1], rest.reports[i - 1], rounds[1..][i - 1], rest.seen[i]);
      }
    }
  }

  predicate NeverResent(failed: set<Key>, reports: seq<Report>) {
    && (forall i :: 0 <= i < |reports| ==> KeyOf(reports[i].action) !in failed)
    && (forall i, j :: 0 <= i < j < |reports| && reports[i].status.Failed? ==>
          KeyOf(reports[i].action) != KeyOf(reports[j].action))
  }

  /** An action is never sent again once it is recorded as failed. */
  lemma {:induction false} FailedNeverResent(c: Chain, o: Options, failed: set<Key>, rounds: seq<Round>)
    ensures NeverResent(failed, CrankFrom(c, o, failed, rounds).reports)
    decreases |rounds|
  {
    if rounds != [] && Due(c, o, failed) != [] {
      var a := Due(c, o, failed)[0];
      assert a in Due(c, o, failed);
      var status := StatusOf(c, o, a, rounds[0]);
      var failedNow := WithFailure(failed, a, status);
      FailedNeverResent(NextRead(c, a, rounds[0]), o, failedNow, rounds[1..]);
      ConsNeverResent(failed, Report(a, status), CrankFrom(NextRead(c, a, rounds[0]), o, failedNow, rounds[1..]).reports);
    }
  }

  lemma ConsNeverResent(failed: set<Key>, first: Report, rest: seq<Report>)
    requires KeyOf(first.action) !in failed && NeverResent(WithFailure(failed, first.action, first.status), rest)
    ensures NeverResent(failed, [first] + rest)
  {
    var all := [first] + rest;
    forall i | 0 <= i < |all| ensures KeyOf(all[i].action) !in failed {
    }
    forall i, j | 0 <= i < j < |all| && all[i].status.Failed? ensures KeyOf(all[i].action) != KeyOf(all[j].action) {
      assert all[j] == rest[j - 1];
    }
  }

  predicate RecordedFailed(reports: seq<Report>, key: Key) {
    exists i :: 0 <= i < |reports| && reports[i].status.Failed? && KeyOf(reports[i].action) == key
  }

  /** A run that stops before its cap leaves only actions due that it saw fail. */
  lemma {:induction false} EarlyStop(c: Chain, o: Options, failed: set<Key>, rounds: seq<Round>, a: Action)
    requires var r := CrankFrom(c, o, failed, rounds); |r.reports| < |rounds| && a in r.remaining
    ensures KeyOf(a) in failed || RecordedFailed(CrankFrom(c, o, failed, rounds).reports, KeyOf(a))
    decreases |rounds|
  {
    if Due(c, o, failed) != [] {
      var first := Due(c, o, failed)[0];
      var status := StatusOf(c, o, first, rounds[0]);
      var failedNow := WithFailure(failed, first, status);
      var next := NextRead(c, first, rounds[0]);
      EarlyStop(next, o, failedNow, rounds[1..], a);
      ConsRecorded(Report(first, status), CrankFrom(next, o, failedNow, rounds[1..]).reports, KeyOf(a));
    }
  }

  lemma ConsRecorded(first: Report, rest: seq<Report>, key: Key)
    ensures RecordedFailed([first] + rest, key) <==>
            (first.status.Failed? && KeyOf(first.action) == key) || RecordedFailed(rest, key)
  {
    var all := [first] + rest;
    assert all[0] == first;
    assert forall i :: 0 <= i < |rest| ==> all[i + 1] == rest[i];
    forall i | 0 < i < |all| ensures all[i] == rest[i - 1] {
    }
  }

  // ------------------------------------------------------------ the run behind the report

  /** Everything that reaches the chain between two reads. */
  function Landing(c: Chain, a: Action, r: Round): seq<Step> {
    r.before + (if r.delivery.Dropped? then [] else [StepOf(Arrival(c, r), a)]) + r.after
  }

  /** Everything that reaches the chain during the crank's run. */
  function History(c: Chain, o: Options, failed: set<Key>, rounds: seq<Round>): seq<Step>
    decreases |rounds|
  {
    if rounds == [] || Due(c, o, failed) == [] then []
    else
      var a := Due(c, o, failed)[0];
      var next := NextRead(c, a, rounds[0]);
      Landing(c, a, rounds[0]) + History(next, o, WithFailure(failed, a, StatusOf(c, o, a, rounds[0])), rounds[1..])
  }

  lemma {:induction false} RunAppend(c: Chain, s: seq<Step>, t: seq<Step>)
    ensures Run(c, s + t) == Run(Run(c, s), t)
    decreases |s|
  {
    if s == [] {
      assert s + t == t;
    } else {
      assert (s + t)[1..] == s[1..] + t;
      RunAppend(Apply(c, s[0]), s[1..], t);
    }
  }

  lemma NextReadIsRun(c: Chain, a: Action, r: Round)
    ensures NextRead(c, a, r) == Run(c, Landing(c, a, r))
  {
    var sent := if r.delivery.Dropped? then [] else [StepOf(Arrival(c, r), a)];
    RunAppend(c, r.before + sent, r.after);
    RunAppend(c, r.before, sent);
  }

  function Final(r: CrankResult): Chain
    requires r.seen != []
  {
    r.seen[|r.seen| - 1]
  }

  /** The final state is the run of everything that landed, in order. */
  lemma {:induction false} CrankIsRun(c: Chain, o: Options, failed: set<Key>, rounds: seq<Round>)
    ensures var r := CrankFrom(c, o, failed, rounds);
            r.seen != [] && Final(r) == Run(c, History(c, o, failed, rounds))
    decreases |rounds|
  {
    if rounds != [] && Due(c, o, failed) != [] {
      var a := Due(c, o, failed)[0];
      var next := NextRead(c, a, rounds[0]);
      var failedNow := WithFailure(failed, a, StatusOf(c, o, a, rounds[0]));
      CrankIsRun(next, o, failedNow, rounds[1..]);
      NextReadIsRun(c, a, rounds[0]);
      RunAppend(c, Landing(c, a, rounds[0]), History(next, o, failedNow, rounds[1..]));
    }
  }

  /** Under every race a crank run keeps the invariant, all quote, all latches and the floor. */
  lemma CrankIsSafe(c: Chain, o: Options, rounds: seq<Round>)
    requires Valid(c) && c.curve.created
    ensures var r := CrankFrom(c, o, {}, rounds);
            && r.seen != [] && Keeps(c, Final(r))
            && FloorKept(c.funds.vault, c.base.supply, Final(r).funds.vault, Final(r).base.supply)
  {
    CrankIsRun(c, o, {}, rounds);
    RunKeeps(c, History(c, o, {}, rounds));
    RunKeepsMeasures(c, History(c, o, {}, rounds));
  }
}
