/** What every run of the delivery workers guarantees. */
module OutboxLaws {
  import opened Wrappers
  import opened Outbox
  import opened OutboxRuns

  // ----- The shape of a stream -----

  /** The first n rows are published; the next one may be in progress; the rest were never claimed. */
  ghost predicate IsShape(t: Table, stream: nat, n: int) {
    && 0 <= n < NextPosition(t.next, stream)
    && (forall id :: id in t.rows && t.rows[id].stream == stream && t.rows[id].position <= n ==>
        t.rows[id].state.Published?)
    && (forall id :: id in t.rows && t.rows[id].stream == stream && t.rows[id].position == n + 1 ==>
        !t.rows[id].state.Published?)
    && (forall id :: id in t.rows && t.rows[id].stream == stream && t.rows[id].position > n + 1 ==>
        !Touched(t.rows[id]))
  }

  ghost predicate PublishedUpTo(t: Table, stream: nat, n: int) {
    forall id :: id in t.rows && t.rows[id].stream == stream && t.rows[id].position <= n ==> t.rows[id].state.Published?
  }

  lemma {:induction false} ShapeFrom(t: Table, stream: nat, n: int) returns (m: int)
    requires Positions(t) && Ordered(t.rows)
    requires 0 <= n < NextPosition(t.next, stream) && PublishedUpTo(t, stream, n)
    ensures IsShape(t, stream, m)
    decreases NextPosition(t.next, stream) - n
  {
    m := n;
    if n + 1 < NextPosition(t.next, stream) {
      assert At(t.rows, stream, n + 1);
      var head :| head in t.rows && t.rows[head].stream == stream && t.rows[head].position == n + 1;
      if t.rows[head].state.Published? {
        m := ShapeFrom(t, stream, n + 1);
      } else {
        forall id | id in t.rows && t.rows[id].stream == stream && t.rows[id].position > n + 1
          ensures !Touched(t.rows[id]) {
          assert Precedes(t.rows[head], t.rows[id]);
        }
      }
    }
  }

  /** Every stream of every reachable table has the shape: published, one in progress, untouched. */
  lemma StreamShape(max: int, labels: seq<Label>, stream: nat) returns (n: int)
    ensures IsShape(DoAll(max, EMPTY, labels).table, stream, n)
  {
    EmptyIsGood(max);
    RunsKeepGood(max, EMPTY, labels);
    n := ShapeFrom(DoAll(max, EMPTY, labels).table, stream, 0);
  }

  /** Exactly the first unpublished row of a stream can be claimed, and it can be as soon as it is due. */
  lemma OnlyTheHeadIsClaimable(max: int, s: Sys, id: nat, n: int, asOf: Instant)
    requires Good(max, s) && id in s.table.rows && IsShape(s.table, s.table.rows[id].stream, n)
    ensures Claimable(s.table.rows, id, asOf) <==> Due(s.table.rows[id], asOf) && s.table.rows[id].position == n + 1
  {
    var rows, row := s.table.rows, s.table.rows[id];
    if row.position > n + 1 {
      assert At(rows, row.stream, n + 1);
      var head :| head in rows && rows[head].stream == row.stream && rows[head].position == n + 1;
      assert !rows[head].state.Published? && Precedes(rows[head], row);
    }
  }

  // ----- The publisher is called a bounded number of times -----

  function Calls(history: seq<Entry>, event: nat): nat {
    if history == [] then 0
    else
      var last := history[|history| - 1];
      Calls(history[..|history| - 1], event) + if last.Started? && last.h.event == event then 1 else 0
  }

  ghost predicate AttemptIn(history: seq<Entry>, event: nat, a: nat) {
    exists i :: 0 <= i < |history| && history[i].Started? && history[i].h.event == event && history[i].attempt == a
  }

  ghost predicate AttemptsPositive(history: seq<Entry>) {
    forall i :: 0 <= i < |history| && history[i].Started? ==> history[i].attempt > 0
  }

  lemma MemberOf(s: set<nat>)
    ensures s == {} || exists a :: a in s
  {
    if s != {} {
      var a :| a in s;
    }
  }

  /** Distinct attempt numbers: as many as there were calls. */
  lemma {:induction false} CallsAreAttempts(history: seq<Entry>, event: nat, attempts: set<nat>)
    requires StartsDistinct(history) && AttemptsPositive(history)
    requires forall a :: a in attempts <==> AttemptIn(history, event, a)
    ensures Calls(history, event) == |attempts|
    decreases |history|
  {
    if history != [] {
      var last, front := history[|history| - 1], history[..|history| - 1];
      if last.Started? && last.h.event == event {
        AttemptsOfFront(history, event, attempts - {last.attempt});
        CallsAreAttempts(front, event, attempts - {last.attempt});
        assert AttemptIn(history, event, last.attempt);
      } else {
        AttemptsOfFront(history, event, attempts);
        CallsAreAttempts(front, event, attempts);
      }
    } else {
      MemberOf(attempts);
    }
  }

  lemma AttemptsOfFront(history: seq<Entry>, event: nat, attempts: set<nat>)
    requires StartsDistinct(history) && history != []
    requires var last := history[|history| - 1];
             forall a :: a in attempts <==>
               AttemptIn(history, event, a) && !(last.Started? && last.h.event == event && a == last.attempt)
    ensures forall a :: a in attempts <==> AttemptIn(history[..|history| - 1], event, a)
  {
    var n := |history| - 1;
    forall a ensures a in attempts <==> AttemptIn(history[..n], event, a) {
      if a in attempts {
        var i :| 0 <= i < |history| && history[i].Started? && history[i].h.event == event && history[i].attempt == a;
        assert i < n && history[..n][i] == history[i];
      }
      if AttemptIn(history[..n], event, a) {
        var i :| 0 <= i < n && history[..n][i].Started? && history[..n][i].h.event == event
          && history[..n][i].attempt == a;
        assert history[i] == history[..n][i];
      }
    }
  }

  lemma {:induction false} AtMost(max: int, attempts: set<nat>)
    requires max >= 0 && forall a :: a in attempts ==> 1 <= a <= max
    ensures |attempts| <= max
    decreases max
  {
    if max > 0 {
      AtMost(max - 1, attempts - {max});
    } else {
      MemberOf(attempts);
    }
  }

  ghost function Attempts(max: int, history: seq<Entry>, event: nat): (r: set<nat>) {
    set a: nat | 1 <= a <= max && AttemptIn(history, event, a)
  }

  /** However workers crash and leases expire, the publisher is called at most `max` times per event. */
  lemma CallsAreBounded(max: int, labels: seq<Label>, event: nat)
    requires max >= 1
    ensures Calls(DoAll(max, EMPTY, labels).history, event) <= max
  {
    EmptyIsGood(max);
    RunsKeepGood(max, EMPTY, labels);
    var s := DoAll(max, EMPTY, labels);
    var attempts := Attempts(max, s.history, event);
    forall i | 0 <= i < |s.history| && s.history[i].Started? ensures 1 <= s.history[i].attempt <= max {
      assert StartOk(max, s.table.rows, s.history, i);
    }
    CallsAreAttempts(s.history, event, attempts);
    AtMost(max, attempts);
  }

  // ----- Order of delivery -----

  /** Position k + 1 is never handed to the publisher before position k was delivered once. */
  lemma DeliveredInOrder(max: int, labels: seq<Label>, i: nat)
    returns (previous: nat)
    requires var s := DoAll(max, EMPTY, labels);
             i < |s.history| && s.history[i].Started? && s.history[i].h.event in s.table.rows
             && s.table.rows[s.history[i].h.event].position > 1
    ensures var s := DoAll(max, EMPTY, labels);
            var row := s.table.rows[s.history[i].h.event];
            && previous in s.table.rows && s.table.rows[previous].stream == row.stream
            && s.table.rows[previous].position == row.position - 1
            && SucceededBefore(s.history, i, previous)
  {
    EmptyIsGood(max);
    RunsKeepGood(max, EMPTY, labels);
    var s := DoAll(max, EMPTY, labels);
    assert StartOk(max, s.table.rows, s.history, i);
    var row := s.table.rows[s.history[i].h.event];
    assert At(s.table.rows, row.stream, row.position - 1);
    previous :| previous in s.table.rows && s.table.rows[previous].stream == row.stream
      && s.table.rows[previous].position == row.position - 1;
  }

  /** A published event was delivered; a dead letter has used up its attempts. */
  lemma FinalStatesAreEarned(max: int, labels: seq<Label>, event: nat)
    requires event in DoAll(max, EMPTY, labels).table.rows
    ensures var s := DoAll(max, EMPTY, labels);
            && (s.table.rows[event].state.Published? ==> SucceededBefore(s.history, |s.history|, event))
            && (s.table.rows[event].state.DeadLetter? ==> s.table.rows[event].attempts >= max)
  {
    EmptyIsGood(max);
    RunsKeepGood(max, EMPTY, labels);
  }

  function Settlements(history: seq<Entry>, h: Handle): nat {
    if history == [] then 0
    else Settlements(history[..|history| - 1], h) + if history[|history| - 1] == Settled(h) then 1 else 0
  }

  lemma {:induction false} SettlementsAtMostOne(history: seq<Entry>, h: Handle)
    requires SettledOnce(history)
    ensures Settlements(history, h) <= 1
    ensures Settled(h) !in history ==> Settlements(history, h) == 0
  {
    if history != [] {
      var front := history[..|history| - 1];
      SettlementsAtMostOne(front, h);
      if history[|history| - 1] == Settled(h) {
        assert forall i :: 0 <= i < |front| ==> front[i] == history[i];
      }
    }
  }

  /** One claim changes its row at most once more, whoever holds it and whenever it expires. */
  lemma EachClaimSettlesOnce(max: int, labels: seq<Label>, h: Handle)
    ensures Settlements(DoAll(max, EMPTY, labels).history, h) <= 1
  {
    EmptyIsGood(max);
    RunsKeepGood(max, EMPTY, labels);
    SettlementsAtMostOne(DoAll(max, EMPTY, labels).history, h);
  }

  // ----- A dead letter stops its stream -----

  lemma EvolvesTransitive(a: map<nat, Row>, b: map<nat, Row>, c: map<nat, Row>)
    requires Evolves(a, b) && Evolves(b, c)
    ensures Evolves(a, c)
  {
  }

  lemma SettlingEvolves(max: int, s: Sys, l: Label)
    requires (l.Acknowledge? || l.Retry? || l.GiveUp?) && Allowed(max, s, l)
    ensures Evolves(s.table.rows, Do(max, s, l).table.rows)
  {
    SettleEvolves(s.table, l.h, Do(max, s, l).table);
  }

  lemma StepEvolves(max: int, s: Sys, l: Label)
    requires Good(max, s)
    ensures Evolves(s.table.rows, Do(max, s, l).table.rows)
  {
    if Allowed(max, s, l) {
      match l
      case Append(id, stream, at, next) => AppendEvolves(s.table, id, stream, at, next);
      case Claim(ids, asOf, token, lease, _) => ClaimEvolves(s.table, ids, asOf, token, lease);
      case Acknowledge(_, _) => SettlingEvolves(max, s, l);
      case Retry(_, _, _) => SettlingEvolves(max, s, l);
      case GiveUp(_, _) => SettlingEvolves(max, s, l);
      case _ =>
    }
  }

  /** No event disappears, moves or leaves PUBLISHED or DEAD_LETTER, and none is inserted before another. */
  lemma {:induction false} RunsEvolve(max: int, s: Sys, labels: seq<Label>)
    requires Good(max, s)
    ensures Evolves(s.table.rows, DoAll(max, s, labels).table.rows)
    decreases |labels|
  {
    if labels != [] {
      var next := Do(max, s, labels[0]);
      StepEvolves(max, s, labels[0]);
      StepKeepsGood(max, s, labels[0]);
      RunsEvolve(max, next, labels[1..]);
      EvolvesTransitive(s.table.rows, next.table.rows, DoAll(max, next, labels[1..]).table.rows);
    }
  }

  lemma {:induction false} NoCalls(history: seq<Entry>, event: nat)
    requires forall i :: 0 <= i < |history| && history[i].Started? ==> history[i].h.event != event
    ensures Calls(history, event) == 0
  {
    if history != [] {
      NoCalls(history[..|history| - 1], event);
    }
  }

  /** After a dead letter nothing behind it, present or future, is ever claimed or published. */
  lemma DeadLetterStopsItsStream(max: int, s: Sys, dead: nat, labels: seq<Label>, event: nat)
    requires Good(max, s) && dead in s.table.rows && s.table.rows[dead].state.DeadLetter?
    requires var rows := DoAll(max, s, labels).table.rows;
             && event in rows && dead in rows
             && Precedes(rows[dead], rows[event])
    ensures var s' := DoAll(max, s, labels);
            && s'.table.rows[dead].state.DeadLetter?
            && !Touched(s'.table.rows[event]) && Calls(s'.history, event) == 0
  {
    RunsKeepGood(max, s, labels);
    RunsEvolve(max, s, labels);
    var s' := DoAll(max, s, labels);
    forall i | 0 <= i < |s'.history| && s'.history[i].Started? ensures s'.history[i].h.event != event {
      assert StartOk(max, s'.table.rows, s'.history, i);
    }
    NoCalls(s'.history, event);
  }
}
