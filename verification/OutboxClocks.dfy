/** What clocks may do to the outbox: when a delivered event can be marked published. */
module OutboxClocks {
  import opened Wrappers
  import opened Outbox
  import opened OutboxRuns

  /** The event is appended due at its own time or later, and a retry of it is not due before its own claim. */
  predicate Timely(event: nat, s: Sys, l: Label) {
    match l
    case Append(id, _, occurredAt, nextAttemptAt) => id == event ==> occurredAt <= nextAttemptAt
    case Retry(h, nextAttemptAt, _) =>
      h.event == event && Owns(s.table, h.event, h.token) ==> s.table.rows[h.event].state.claimedAt <= nextAttemptAt
    case _ => true
  }

  predicate TimelyRun(max: int, event: nat, s: Sys, labels: seq<Label>)
    decreases |labels|
  {
    labels == [] || (Timely(event, s, labels[0]) && TimelyRun(max, event, Do(max, s, labels[0]), labels[1..]))
  }

  /** The event is not due, claimed or published before it occurred. */
  predicate Dated(rows: map<nat, Row>, event: nat) {
    event in rows ==> DatedRow(rows[event])
  }

  predicate DatedRow(row: Row) {
    match row.state
    case Pending => row.occurredAt <= row.nextAttemptAt
    case Processing(_, claimedAt, leaseExpiresAt) => row.occurredAt <= claimedAt < leaseExpiresAt
    case Published(at) => row.occurredAt <= at
    case DeadLetter => true
  }

  lemma StepKeepsDated(max: int, event: nat, s: Sys, l: Label)
    requires Dated(s.table.rows, event) && Timely(event, s, l)
    ensures Dated(Do(max, s, l).table.rows, event)
  {
  }

  /** However the clocks of the workers are set, runs timely for an event keep it dated. */
  lemma {:induction false} TimelyRunsKeepDated(max: int, event: nat, s: Sys, labels: seq<Label>)
    requires Dated(s.table.rows, event) && TimelyRun(max, event, s, labels)
    ensures Dated(DoAll(max, s, labels).table.rows, event)
    decreases |labels|
  {
    if labels != [] {
      StepKeepsDated(max, event, s, labels[0]);
      TimelyRunsKeepDated(max, event, Do(max, s, labels[0]), labels[1..]);
    }
  }

  /** An acknowledgement publishes the event exactly if its claim still owns the row and the clock has reached the
    * event. */
  lemma AcknowledgementPublishesExactly(max: int, s: Sys, h: Handle, at: Instant)
    requires InPhase(s, h, Delivered)
    ensures var t := Do(max, s, Acknowledge(h, at)).table;
            && (t != s.table <==> Owns(s.table, h.event, h.token) && s.table.rows[h.event].occurredAt <= at)
            && (t != s.table ==> t.rows[h.event].state == Published(at))
  {
    if Owns(s.table, h.event, h.token) && s.table.rows[h.event].occurredAt <= at {
      assert MarkedPublished(s.table, h.event, h.token, at).rows[h.event].state == Published(at);
    }
  }

  /** In a run timely for its event an owner whose clock has not gone back behind its own claim publishes. */
  lemma SteadyClockPublishes(max: int, labels: seq<Label>, h: Handle, at: Instant)
    requires TimelyRun(max, h.event, EMPTY, labels)
    requires var s := DoAll(max, EMPTY, labels); InPhase(s, h, Delivered) && Owns(s.table, h.event, h.token)
    ensures var s := DoAll(max, EMPTY, labels);
            var state := Do(max, s, Acknowledge(h, at)).table.rows[h.event].state;
            && (s.table.rows[h.event].state.claimedAt <= at ==> state == Published(at))
            && (state.Processing? ==> at < s.table.rows[h.event].occurredAt <= s.table.rows[h.event].state.claimedAt)
  {
    TimelyRunsKeepDated(max, h.event, EMPTY, labels);
    var s := DoAll(max, EMPTY, labels);
    assert DatedRow(s.table.rows[h.event]);
    AcknowledgementPublishesExactly(max, s, h, at);
  }

  lemma {:induction false} FirstUntimely(max: int, event: nat, s: Sys, labels: seq<Label>) returns (i: nat)
    requires !TimelyRun(max, event, s, labels)
    ensures i < |labels| && !Timely(event, DoAll(max, s, labels[..i]), labels[i])
    decreases |labels|
  {
    if !Timely(event, s, labels[0]) {
      i := 0;
    } else {
      var j := FirstUntimely(max, event, Do(max, s, labels[0]), labels[1..]);
      i := j + 1;
      assert labels[..i][0] == labels[0] && labels[..i][1..] == labels[1..][..j];
    }
  }

  /** Every event is appended due at its own instant. */
  predicate AppendsInTime(labels: seq<Label>) {
    forall l :: l in labels && l.Append? ==> l.occurredAt == l.nextAttemptAt
  }

  /** Label i gave the event back to be due before its own claim. */
  predicate RetriedEarly(max: int, labels: seq<Label>, event: nat, i: nat)
    requires i < |labels|
  {
    var l, t := labels[i], DoAll(max, EMPTY, labels[..i]).table;
    && l.Retry? && l.h.event == event && Owns(t, event, l.h.token)
    && l.nextAttemptAt < t.rows[event].state.claimedAt
  }

  /** In every run: if the acknowledgement of a delivered event is refused to the claim's owner, then some clock went
    * back behind its own claim of that event: the owner's, or one that dated an earlier retry of it. */
  lemma RefusalMeansAClockWentBack(max: int, labels: seq<Label>, h: Handle, at: Instant)
    requires AppendsInTime(labels)
    requires var s := DoAll(max, EMPTY, labels);
             && InPhase(s, h, Delivered) && Owns(s.table, h.event, h.token)
             && Do(max, s, Acknowledge(h, at)).table == s.table
    ensures at < DoAll(max, EMPTY, labels).table.rows[h.event].state.claimedAt
            || exists i :: 0 <= i < |labels| && RetriedEarly(max, labels, h.event, i)
  {
    if TimelyRun(max, h.event, EMPTY, labels) {
      SteadyClockPublishes(max, labels, h, at);
    } else {
      var i := FirstUntimely(max, h.event, EMPTY, labels);
      assert labels[i] in labels;
      assert RetriedEarly(max, labels, h.event, i);
    }
  }

  // ----- Concrete runs -----

  lemma ThreeSteps(max: int, s: Sys, a: Label, b: Label, c: Label, s1: Sys, s2: Sys, s3: Sys)
    requires Do(max, s, a) == s1 && Do(max, s1, b) == s2 && Do(max, s2, c) == s3
    ensures DoAll(max, s, [a, b, c]) == s3
  {
    assert [a, b, c][1..] == [b, c] && [b, c][1..] == [c] && [c][1..] == [];
    assert DoAll(max, s2, [c]) == s3;
    assert DoAll(max, s1, [b, c]) == s3;
  }

  /** The one event, of instant 100. */
  function EventRow(due: Instant, attempts: int, state: State, failure: Option<string>): Row {
    Row(1, 1, 100, due, attempts, state, failure)
  }

  /** The event waits, due at `due`, and nobody holds a claim. */
  predicate Waits(s: Sys, due: Instant, attempts: nat, failure: Option<string>) {
    s.table == Table(map[1 := EventRow(due, attempts, Pending, failure)], map[1 := 2]) && s.hands == map[]
  }

  /** It is claimed by h since asOf for 60 units of time, and the claim is in the given phase. */
  predicate IsCalled(
    s: Sys, h: Handle, asOf: Instant, due: Instant, attempts: nat, failure: Option<string>, phase: Phase) {
    && s.table == Table(map[1 := EventRow(due, attempts, Processing(h.token, asOf, asOf + 60), failure)], map[1 := 2])
    && s.hands == map[h := Hand(attempts, asOf + 60, phase)]
  }

  lemma EventIsClaimed(s: Sys, h: Handle, asOf: Instant, due: Instant, attempts: nat, failure: Option<string>)
    requires Waits(s, due, attempts, failure) && h.event == 1 && h.token != 0 && h.token !in s.used
    requires due <= asOf && 0 < asOf && attempts < 10
    ensures var s' := Do(10, s, Claim({1}, asOf, h.token, asOf + 60, 1));
            IsCalled(s', h, asOf, due, attempts + 1, failure, Held)
            && s'.used == s.used + {h.token} && s'.history == s.history
  {
    assert Claimable(s.table.rows, 1, asOf);
    assert Allowed(10, s, Claim({1}, asOf, h.token, asOf + 60, 1));
    assert HandsOf(s.table.rows, {1}, h.token, asOf + 60) == map[h := Hand(attempts + 1, asOf + 60, Held)];
  }

  lemma EventIsCalled(
    s: Sys, h: Handle, asOf: Instant, due: Instant, attempts: nat, failure: Option<string>, good: bool)
    requires IsCalled(s, h, asOf, due, attempts, failure, Held) && attempts <= 10
    ensures var s' := Do(10, Do(10, s, Start(h)), if good then Succeed(h) else Fail(h));
            IsCalled(s', h, asOf, due, attempts, failure, if good then Delivered else Missed) && s'.used == s.used
  {
    var started := Do(10, s, Start(h));
    assert IsCalled(started, h, asOf, due, attempts, failure, Calling) && started.used == s.used;
  }

  function OneCall(h: Handle, asOf: Instant, good: bool): seq<Label> {
    [Claim({1}, asOf, h.token, asOf + 60, 1), Start(h), if good then Succeed(h) else Fail(h)]
  }

  lemma EventIsDelivered(
    s: Sys, h: Handle, asOf: Instant, due: Instant, attempts: nat, failure: Option<string>, good: bool)
    requires Waits(s, due, attempts, failure) && h.event == 1 && h.token != 0 && h.token !in s.used
    requires due <= asOf && 0 < asOf && attempts < 10
    ensures var s' := DoAll(10, s, OneCall(h, asOf, good));
            IsCalled(s', h, asOf, due, attempts + 1, failure, if good then Delivered else Missed)
            && s'.used == s.used + {h.token}
  {
    EventIsClaimed(s, h, asOf, due, attempts, failure);
    var s1 := Do(10, s, Claim({1}, asOf, h.token, asOf + 60, 1));
    EventIsCalled(s1, h, asOf, due, attempts + 1, failure, good);
    var s2, end := Do(10, s1, Start(h)), if good then Succeed(h) else Fail(h);
    ThreeSteps(10, s, Claim({1}, asOf, h.token, asOf + 60, 1), Start(h), end, s1, s2, Do(10, s2, end));
  }

  lemma EventIsAppended() returns (s: Sys)
    ensures s == DoAll(10, EMPTY, [Append(1, 1, 100, 100)]) && Waits(s, 100, 0, None) && s.used == {}
  {
    s := Do(10, EMPTY, Append(1, 1, 100, 100));
    assert [Append(1, 1, 100, 100)][1..] == [];
    assert DoAll(10, s, []) == s;
  }

  /** A concrete run: an event of instant 100 is claimed at 100 until 160 and delivered; if the clock then
    * steps back to 90 the acknowledgement is refused, and the delivered event will be claimed again. */
  lemma ClockBehindItsClaimIsRefused() returns (labels: seq<Label>, h: Handle)
    ensures AppendsInTime(labels) && forall l :: l in labels ==> !l.Retry?
    ensures var s := DoAll(10, EMPTY, labels);
            && InPhase(s, h, Delivered) && Owns(s.table, h.event, h.token)
            && Do(10, s, Acknowledge(h, 90)).table == s.table && Claimable(s.table.rows, h.event, 160)
            && Do(10, s, Acknowledge(h, 100)).table.rows[h.event].state == Published(100)
  {
    h := Handle(1, 7);
    labels := [Append(1, 1, 100, 100)] + OneCall(h, 100, true);
    var s := EventIsAppended();
    DoAllConcat(10, EMPTY, [Append(1, 1, 100, 100)], OneCall(h, 100, true));
    EventIsDelivered(s, h, 100, 100, 0, None, true);
    var s' := DoAll(10, s, OneCall(h, 100, true));
    AcknowledgementPublishesExactly(10, s', h, 90);
    AcknowledgementPublishesExactly(10, s', h, 100);
  }

  lemma EventIsRetried(s: Sys, h: Handle, asOf: Instant, due: Instant, attempts: nat, at: Instant)
    requires IsCalled(s, h, asOf, due, attempts, None, Missed) && h.event == 1 && attempts < 10
    ensures var s' := Do(10, s, Retry(h, at, "delivery_failed"));
            Waits(s', at, attempts, Some("delivery_failed")) && s'.used == s.used
    ensures [Retry(h, at, "delivery_failed")][1..] == []
    ensures DoAll(10, s, [Retry(h, at, "delivery_failed")]) == Do(10, s, Retry(h, at, "delivery_failed"))
  {
    assert ValidFailureCode("delivery_failed");
    var s' := Do(10, s, Retry(h, at, "delivery_failed"));
    assert DoAll(10, s', []) == s';
  }

  lemma FourParts(
    max: int, s: Sys, a: seq<Label>, b: seq<Label>, c: seq<Label>, d: seq<Label>, s1: Sys, s2: Sys, s3: Sys, s4: Sys)
    requires DoAll(max, s, a) == s1 && DoAll(max, s1, b) == s2 && DoAll(max, s2, c) == s3 && DoAll(max, s3, d) == s4
    ensures DoAll(max, s, a + b + c + d) == s4
  {
    DoAllConcat(max, s, a, b);
    DoAllConcat(max, s, a + b, c);
    DoAllConcat(max, s, a + b + c, d);
  }

  lemma AppendedInTime() returns (append: seq<Label>, s: Sys)
    ensures s == DoAll(10, EMPTY, append) && Waits(s, 100, 0, None) && s.used == {} && AppendsInTime(append)
  {
    append := [Append(1, 1, 100, 100)];
    s := EventIsAppended();
  }

  lemma FailedCall(s: Sys, h: Handle, at: Instant) returns (call: seq<Label>, failed: Sys)
    requires Waits(s, at, 0, None) && s.used == {} && h == Handle(1, 7) && at > 0
    ensures failed == DoAll(10, s, call) && AppendsInTime(call)
    ensures IsCalled(failed, h, at, at, 1, None, Missed) && failed.used == {7}
  {
    EventIsDelivered(s, h, at, at, 0, None, false);
    call := OneCall(h, at, false);
    failed := DoAll(10, s, call);
  }

  lemma EarlyRetry(failed: Sys, h: Handle) returns (retry: seq<Label>, waiting: Sys)
    requires IsCalled(failed, h, 100, 100, 1, None, Missed) && failed.used == {7} && h == Handle(1, 7)
    ensures waiting == DoAll(10, failed, retry) && AppendsInTime(retry)
    ensures Waits(waiting, 55, 1, Some("delivery_failed")) && waiting.used == {7}
  {
    EventIsRetried(failed, h, 100, 100, 1, 55);
    retry := [Retry(h, 55, "delivery_failed")];
    waiting := DoAll(10, failed, retry);
  }

  lemma LaggingCallIsRefused(waiting: Sys, h: Handle) returns (call: seq<Label>, s: Sys)
    requires Waits(waiting, 55, 1, Some("delivery_failed")) && waiting.used == {7} && h == Handle(1, 8)
    ensures s == DoAll(10, waiting, call) && AppendsInTime(call)
    ensures InPhase(s, h, Delivered) && Owns(s.table, h.event, h.token)
    ensures s.table.rows[h.event].state.claimedAt == 60 && Do(10, s, Acknowledge(h, 70)).table == s.table
  {
    EventIsDelivered(waiting, h, 60, 55, 1, Some("delivery_failed"), true);
    call := OneCall(h, 60, true);
    s := DoAll(10, waiting, call);
    AcknowledgementPublishesExactly(10, s, h, 70);
  }

  /** A concrete run: one worker claims the event at 100, its call fails, its clock steps back to 50 and it dates the
    * retry to 55. A second worker whose clock merely lags claims at 60, delivers, and is refused at 70. */
  lemma EarlyRetryHurtsAnother() returns (labels: seq<Label>, h: Handle)
    ensures AppendsInTime(labels)
    ensures var s := DoAll(10, EMPTY, labels);
            && InPhase(s, h, Delivered) && Owns(s.table, h.event, h.token)
            && s.table.rows[h.event].state.claimedAt == 60 && Do(10, s, Acknowledge(h, 70)).table == s.table
  {
    var append, appended := AppendedInTime();
    var call, failed := FailedCall(appended, Handle(1, 7), 100);
    var retry, waiting := EarlyRetry(failed, Handle(1, 7));
    h := Handle(1, 8);
    var again, s := LaggingCallIsRefused(waiting, h);
    labels := append + call + retry + again;
    FourParts(10, EMPTY, append, call, retry, again, appended, failed, waiting, s);
  }
}
