/** The sliding-window rate limiter: a pruned event table that decides like the full history.
  *
  * Derived keys are naturals with 0 for the zero key; instants and durations are nanoseconds and 0 is
  * the unset time. The advisory lock makes every operation on one key a single step.
  */
module RateLimit {
  import opened Wrappers

  type Instant = int

  const SECOND: int := 1_000_000_000
  const MINUTE: int := 60 * SECOND

  datatype Policy = LoginEmailFailure | LoginIPAttempt | RegistrationIPAttempt | RefreshFamilyAttempt

  function Limit(p: Policy): nat {
    match p
    case LoginEmailFailure => 5
    case LoginIPAttempt => 30
    case RegistrationIPAttempt => 5
    case RefreshFamilyAttempt => 20
  }

  function Window(p: Policy): int {
    match p
    case RegistrationIPAttempt => 60 * MINUTE
    case _ => 15 * MINUTE
  }

  datatype Event = Event(policy: Policy, key: nat, occurredAt: Instant, expiresAt: Instant)

  /** The where clauses of the statements. */
  datatype Where =
    | OfKey(policy: Policy, key: nat)
    | ExpiredOf(policy: Policy, key: nat, asOf: Instant)
    | LiveOf(policy: Policy, key: nat, asOf: Instant)
    | ExpiredAny(asOf: Instant)

  predicate Satisfies(e: Event, w: Where) {
    match w
    case OfKey(p, k) => e.policy == p && e.key == k
    case ExpiredOf(p, k, asOf) => e.policy == p && e.key == k && e.expiresAt <= asOf
    case LiveOf(p, k, asOf) => e.policy == p && e.key == k && e.expiresAt > asOf
    case ExpiredAny(asOf) => e.expiresAt <= asOf
  }

  function Rows(events: seq<Event>, w: Where): seq<Event> {
    if events == [] then []
    else
      var front, last := Rows(events[..|events| - 1], w), events[|events| - 1];
      if Satisfies(last, w) then front + [last] else front
  }

  function Without(events: seq<Event>, w: Where): seq<Event> {
    if events == [] then []
    else
      var front, last := Without(events[..|events| - 1], w), events[|events| - 1];
      if Satisfies(last, w) then front else front + [last]
  }

  function Earliest(events: seq<Event>): (earliest: Instant)
    requires events != []
    ensures exists e :: e in events && e.expiresAt == earliest
    ensures forall e :: e in events ==> earliest <= e.expiresAt
  {
    var last := events[|events| - 1].expiresAt;
    if |events| == 1 then last
    else
      var front := Earliest(events[..|events| - 1]);
      assert events == events[..|events| - 1] + [events[|events| - 1]];
      if last < front then last else front
  }

  function MaxDuration(left: int, right: int): int {
    if left > right then left else right
  }

  datatype Decision = Allowed(remaining: int) | Denied(retryAfter: int)

  function NewEvent(p: Policy, k: nat, now: Instant): Event {
    Event(p, k, now, now + Window(p))
  }

  /** What the live events of a key decide. */
  function DecisionBy(live: seq<Event>, p: Policy, now: Instant): Decision {
    if |live| >= Limit(p) then Denied(MaxDuration(Earliest(live) - now, SECOND)) else Allowed(Limit(p) - |live| - 1)
  }

  function Decide(events: seq<Event>, p: Policy, k: nat, now: Instant): Decision {
    DecisionBy(Rows(events, LiveOf(p, k, now)), p, now)
  }

  /** A check as it runs: expired rows of the key go first. */
  function Checked(events: seq<Event>, p: Policy, k: nat, now: Instant): seq<Event> {
    var pruned := Without(events, ExpiredOf(p, k, now));
    if Decide(pruned, p, k, now).Denied? then pruned else pruned + [NewEvent(p, k, now)]
  }

  /** A check on the history nobody prunes. */
  function Logged(log: seq<Event>, p: Policy, k: nat, now: Instant): seq<Event> {
    if Decide(log, p, k, now).Denied? then log else log + [NewEvent(p, k, now)]
  }

  datatype RateError = InvalidKey | Unavailable

  // ----- The limiter over its table -----

  class Limiter {
    var events: seq<Event>

    constructor ()
      ensures events == []
    {
      events := [];
    }

    method DeleteWhere(w: Where) returns (count: nat)
      modifies this
      ensures events == Without(old(events), w) && count == |old(events)| - |events|
    {
      var kept: seq<Event> := [];
      for i := 0 to |events|
        invariant events == old(events) && kept == Without(events[..i], w) && |kept| <= i
      {
        assert events[..i + 1][..i] == events[..i];
        if !Satisfies(events[i], w) {
          kept := kept + [events[i]];
        }
      }
      assert events[..|events|] == events;
      count := |events| - |kept|;
      events := kept;
    }

    method CountActive(p: Policy, k: nat, asOf: Instant) returns (count: nat)
      ensures count == |Rows(events, LiveOf(p, k, asOf))|
    {
      count := 0;
      for i := 0 to |events|
        invariant count == |Rows(events[..i], LiveOf(p, k, asOf))|
      {
        assert events[..i + 1][..i] == events[..i];
        if Satisfies(events[i], LiveOf(p, k, asOf)) {
          count := count + 1;
        }
      }
      assert events[..|events|] == events;
    }

    method EarliestActiveExpiry(p: Policy, k: nat, asOf: Instant) returns (earliest: Option<Instant>)
      ensures var live := Rows(events, LiveOf(p, k, asOf));
              earliest == if live == [] then None else Some(Earliest(live))
    {
      earliest := None;
      for i := 0 to |events|
        invariant var live := Rows(events[..i], LiveOf(p, k, asOf));
                  earliest == if live == [] then None else Some(Earliest(live))
      {
        assert events[..i + 1][..i] == events[..i];
        ghost var live := Rows(events[..i], LiveOf(p, k, asOf));
        if Satisfies(events[i], LiveOf(p, k, asOf)) {
          assert (live + [events[i]])[..|live|] == live;
          if earliest.None? || events[i].expiresAt < earliest.value {
            earliest := Some(events[i].expiresAt);
          }
        }
      }
      assert events[..|events|] == events;
    }

    method Check(p: Policy, k: nat, now: Instant) returns (decision: Result<Decision, RateError>)
      modifies this
      ensures decision.Failure? <==> k == 0 || now == 0
      ensures decision.Failure? ==> events == old(events)
      ensures decision.Success? ==>
                decision.value == Decide(old(events), p, k, now) && events == Checked(old(events), p, k, now)
      ensures decision.Success? ==> forall e :: e in events <==>
                || (e in old(events) && !(e.policy == p && e.key == k && e.expiresAt <= now))
                || (decision.value.Allowed?
                    && e == Event(p, k, now, now + if p.RegistrationIPAttempt? then 60 * MINUTE else 15 * MINUTE))
    {
      if k == 0 || now == 0 {
        return Failure(InvalidKey);
      }
      PruningIsInvisible(events, p, k, now, now);
      WithoutMembers(events, ExpiredOf(p, k, now));
      var _ := DeleteWhere(ExpiredOf(p, k, now));
      var count := CountActive(p, k, now);
      if count >= Limit(p) {
        var earliest := EarliestActiveExpiry(p, k, now);
        return Success(Denied(MaxDuration(earliest.value - now, SECOND)));
      }
      events := events + [Event(p, k, now, now + Window(p))];
      decision := Success(Allowed(Limit(p) - count - 1));
    }

    method ResetLoginEmailFailures(k: nat) returns (error: Option<RateError>)
      modifies this
      ensures error.None? <==> k != 0
      ensures events == if error.None? then Without(old(events), OfKey(LoginEmailFailure, k)) else old(events)
      ensures error.None? ==> forall e :: e in events <==>
                e in old(events) && !(e.policy.LoginEmailFailure? && e.key == k)
    {
      if k == 0 {
        return Some(InvalidKey);
      }
      WithoutMembers(events, OfKey(LoginEmailFailure, k));
      var _ := DeleteWhere(OfKey(LoginEmailFailure, k));
      error := None;
    }

    method CleanupExpired(now: Instant) returns (count: Result<nat, RateError>)
      modifies this
      ensures count.Failure? <==> now == 0
      ensures events == if now == 0 then old(events) else Without(old(events), ExpiredAny(now))
      ensures now != 0 ==>
                && count == Success(|old(events)| - |events|)
                && forall e :: e in events <==> e in old(events) && e.expiresAt > now
    {
      if now == 0 {
        return Failure(Unavailable);
      }
      WithoutMembers(events, ExpiredAny(now));
      var n := DeleteWhere(ExpiredAny(now));
      count := Success(n);
    }
  }

  // ----- Selecting and deleting -----

  lemma {:induction false} WithoutMembers(events: seq<Event>, w: Where)
    ensures forall e :: e in Without(events, w) <==> e in events && !Satisfies(e, w)
  {
    if events != [] {
      var front, last := events[..|events| - 1], events[|events| - 1];
      WithoutMembers(front, w);
      assert events == front + [last];
    }
  }

  lemma {:induction false} RowsWithout(events: seq<Event>, w: Where, gone: Where)
    requires forall e :: e in events && Satisfies(e, gone) ==> !Satisfies(e, w)
    ensures Rows(Without(events, gone), w) == Rows(events, w)
  {
    if events != [] {
      var front, last := events[..|events| - 1], events[|events| - 1];
      RowsWithout(front, w, gone);
      if !Satisfies(last, gone) {
        RowsMore(Without(front, gone), last, w);
      }
    }
  }

  lemma RowsMore(events: seq<Event>, e: Event, w: Where)
    ensures Rows(events + [e], w) == if Satisfies(e, w) then Rows(events, w) + [e] else Rows(events, w)
  {
    assert (events + [e])[..|events|] == events;
  }

  /** Deleting what has expired by now is invisible from now on. */
  lemma PruningIsInvisible(events: seq<Event>, p: Policy, k: nat, now: Instant, later: Instant)
    requires now <= later
    ensures Decide(Without(events, ExpiredOf(p, k, now)), p, k, later) == Decide(events, p, k, later)
    ensures Rows(Without(events, ExpiredOf(p, k, now)), LiveOf(p, k, later)) == Rows(events, LiveOf(p, k, later))
  {
    RowsWithout(events, LiveOf(p, k, later), ExpiredOf(p, k, now));
  }

  // ----- The pruned table against the full history -----

  datatype Op = Check(policy: Policy, key: nat, now: Instant) | Reset(key: nat) | Cleanup(asOf: Instant)

  /** On the table. */
  function Do(events: seq<Event>, op: Op): seq<Event> {
    match op
    case Check(p, k, now) => if k == 0 || now == 0 then events else Checked(events, p, k, now)
    case Reset(k) => if k == 0 then events else Without(events, OfKey(LoginEmailFailure, k))
    case Cleanup(now) => if now == 0 then events else Without(events, ExpiredAny(now))
  }

  /** On the history since the last reset, which is never pruned. */
  function DoLog(log: seq<Event>, op: Op): seq<Event> {
    match op
    case Check(p, k, now) => if k == 0 || now == 0 then log else Logged(log, p, k, now)
    case Reset(k) => if k == 0 then log else Without(log, OfKey(LoginEmailFailure, k))
    case Cleanup(_) => log
  }

  predicate IsCheckOf(op: Op, p: Policy, k: nat) {
    op.Check? && op.policy == p && op.key == k && k != 0 && op.now != 0
  }

  /** The decisions about one key, in order. */
  function Decisions(events: seq<Event>, ops: seq<Op>, p: Policy, k: nat): seq<Decision>
    decreases |ops|
  {
    if ops == [] then []
    else
      (if IsCheckOf(ops[0], p, k) then [Decide(events, p, k, ops[0].now)] else [])
      + Decisions(Do(events, ops[0]), ops[1..], p, k)
  }

  function LogDecisions(log: seq<Event>, ops: seq<Op>, p: Policy, k: nat): seq<Decision>
    decreases |ops|
  {
    if ops == [] then []
    else
      (if IsCheckOf(ops[0], p, k) then [Decide(log, p, k, ops[0].now)] else [])
      + LogDecisions(DoLog(log, ops[0]), ops[1..], p, k)
  }

  /** The latest of the key's own checks and of the cleanups so far. */
  function TimeAfter(op: Op, p: Policy, k: nat, t: Instant): Instant {
    if IsCheckOf(op, p, k) then op.now
    else if op.Cleanup? && op.asOf != 0 && t < op.asOf then op.asOf
    else t
  }

  /** From t on, no check of the key runs behind an earlier one or behind a cleanup; a cleanup may lag. */
  predicate Forward(ops: seq<Op>, p: Policy, k: nat, t: Instant)
    decreases |ops|
  {
    ops != [] ==> (IsCheckOf(ops[0], p, k) ==> t <= ops[0].now) && Forward(ops[1..], p, k, TimeAfter(ops[0], p, k, t))
  }

  /** From t on the table shows the same live events of the key as the history. */
  ghost predicate Shows(events: seq<Event>, log: seq<Event>, p: Policy, k: nat, t: Instant) {
    forall now :: t <= now ==> Rows(events, LiveOf(p, k, now)) == Rows(log, LiveOf(p, k, now))
  }

  lemma StepShows(events: seq<Event>, log: seq<Event>, op: Op, p: Policy, k: nat, t: Instant)
    requires Shows(events, log, p, k, t) && (IsCheckOf(op, p, k) ==> t <= op.now)
    ensures Shows(Do(events, op), DoLog(log, op), p, k, TimeAfter(op, p, k, t))
    ensures IsCheckOf(op, p, k) ==> Decide(events, p, k, op.now) == Decide(log, p, k, op.now)
  {
    forall now | TimeAfter(op, p, k, t) <= now
      ensures Rows(Do(events, op), LiveOf(p, k, now)) == Rows(DoLog(log, op), LiveOf(p, k, now))
    {
      match op
      case Check(q, j, at) =>
        if j != 0 && at != 0 {
          CheckShows(events, log, q, j, at, p, k, now);
        }
      case Reset(j) =>
        ResetShows(events, log, j, p, k, now);
      case Cleanup(asOf) =>
        if asOf != 0 {
          RowsWithout(events, LiveOf(p, k, now), ExpiredAny(asOf));
        }
    }
  }

  lemma ResetShows(events: seq<Event>, log: seq<Event>, j: nat, p: Policy, k: nat, now: Instant)
    requires Rows(events, LiveOf(p, k, now)) == Rows(log, LiveOf(p, k, now))
    ensures Rows(Without(events, OfKey(LoginEmailFailure, j)), LiveOf(p, k, now))
            == Rows(Without(log, OfKey(LoginEmailFailure, j)), LiveOf(p, k, now))
  {
    if p.LoginEmailFailure? && j == k {
      NothingLeft(events, LiveOf(p, k, now), OfKey(p, k));
      NothingLeft(log, LiveOf(p, k, now), OfKey(p, k));
    } else {
      RowsWithout(events, LiveOf(p, k, now), OfKey(LoginEmailFailure, j));
      RowsWithout(log, LiveOf(p, k, now), OfKey(LoginEmailFailure, j));
    }
  }

  /** Deleting the rows of a clause leaves none for a narrower one. */
  lemma {:induction false} NothingLeft(events: seq<Event>, w: Where, gone: Where)
    requires forall e :: e in events && Satisfies(e, w) ==> Satisfies(e, gone)
    ensures Rows(Without(events, gone), w) == []
  {
    if events != [] {
      var front, last := events[..|events| - 1], events[|events| - 1];
      NothingLeft(front, w, gone);
      if !Satisfies(last, gone) {
        RowsMore(Without(front, gone), last, w);
      }
    }
  }

  lemma CheckShows(events: seq<Event>, log: seq<Event>, q: Policy, j: nat, at: Instant, p: Policy, k: nat, now: Instant)
    requires Rows(events, LiveOf(p, k, now)) == Rows(log, LiveOf(p, k, now))
    requires (q, j) == (p, k) ==> at <= now && Decide(events, p, k, at) == Decide(log, p, k, at)
    ensures Rows(Checked(events, q, j, at), LiveOf(p, k, now)) == Rows(Logged(log, q, j, at), LiveOf(p, k, now))
  {
    RowsWithout(events, LiveOf(p, k, now), ExpiredOf(q, j, at));
    RowsMore(Without(events, ExpiredOf(q, j, at)), NewEvent(q, j, at), LiveOf(p, k, now));
    RowsMore(log, NewEvent(q, j, at), LiveOf(p, k, now));
    if (q, j) == (p, k) {
      PruningIsInvisible(events, p, k, at, at);
    }
  }

  lemma {:induction false} DecisionsFollowLog(
    events: seq<Event>, log: seq<Event>, ops: seq<Op>, p: Policy, k: nat, t: Instant)
    requires Shows(events, log, p, k, t) && Forward(ops, p, k, t)
    ensures Decisions(events, ops, p, k) == LogDecisions(log, ops, p, k)
    decreases |ops|
  {
    if ops != [] {
      StepShows(events, log, ops[0], p, k, t);
      DecisionsFollowLog(Do(events, ops[0]), DoLog(log, ops[0]), ops[1..], p, k, TimeAfter(ops[0], p, k, t));
    }
  }

  /** Pruning and cleanup never change a decision: the limiter decides like the full history since the last reset. */
  lemma PrunedDecidesLikeHistory(ops: seq<Op>, p: Policy, k: nat, t: Instant)
    requires Forward(ops, p, k, t)
    ensures Decisions([], ops, p, k) == LogDecisions([], ops, p, k)
  {
    DecisionsFollowLog([], [], ops, p, k, t);
  }

  // ----- A cleanup ahead of a check -----

  lemma {:induction false} RowsLeft(events: seq<Event>, w: Where, gone: Where, left: Where)
    requires forall e :: Satisfies(e, left) <==> Satisfies(e, w) && !Satisfies(e, gone)
    ensures Rows(Without(events, gone), w) == Rows(events, left)
  {
    if events != [] {
      var front, last := events[..|events| - 1], events[|events| - 1];
      RowsLeft(front, w, gone, left);
      if !Satisfies(last, gone) {
        RowsMore(Without(front, gone), last, w);
      }
    }
  }

  /** Behind a cleanup a check counts as if it were made at the cleanup's time: it is denied exactly
    * when the events that outlive both fill the limit. */
  lemma CleanupMovesTheClock(events: seq<Event>, p: Policy, k: nat, asOf: Instant, now: Instant)
    requires asOf != 0
    ensures var later := if now < asOf then asOf else now;
            Decide(Do(events, Cleanup(asOf)), p, k, now).Denied? <==> |Rows(events, LiveOf(p, k, later))| >= Limit(p)
  {
    RowsLeft(events, LiveOf(p, k, now), ExpiredAny(asOf), LiveOf(p, k, if now < asOf then asOf else now));
  }

  function Burst(p: Policy, k: nat, now: Instant, n: nat): seq<Event> {
    if n == 0 then [] else Do(Burst(p, k, now, n - 1), Check(p, k, now))
  }

  lemma AdmittedIsCounted(events: seq<Event>, p: Policy, k: nat, now: Instant, later: Instant)
    requires now <= later && |Rows(events, LiveOf(p, k, now))| < Limit(p)
    ensures var added := if later < now + Window(p) then [NewEvent(p, k, now)] else [];
            Rows(Checked(events, p, k, now), LiveOf(p, k, later)) == Rows(events, LiveOf(p, k, later)) + added
  {
    PruningIsInvisible(events, p, k, now, now);
    PruningIsInvisible(events, p, k, now, later);
    RowsMore(Without(events, ExpiredOf(p, k, now)), NewEvent(p, k, now), LiveOf(p, k, later));
  }

  /** n events of the key are live, none beyond a window. */
  predicate Counts(events: seq<Event>, p: Policy, k: nat, now: Instant, n: nat) {
    |Rows(events, LiveOf(p, k, now))| == n && Rows(events, LiveOf(p, k, now + Window(p))) == []
  }

  lemma AdmissionCounts(events: seq<Event>, p: Policy, k: nat, now: Instant, n: nat)
    requires k != 0 && now != 0 && Counts(events, p, k, now, n) && n < Limit(p)
    ensures Counts(Do(events, Check(p, k, now)), p, k, now, n + 1)
  {
    AdmittedIsCounted(events, p, k, now, now);
    AdmittedIsCounted(events, p, k, now, now + Window(p));
  }

  lemma {:induction false} BurstIsCounted(p: Policy, k: nat, now: Instant, n: nat)
    requires k != 0 && now != 0 && n <= Limit(p)
    ensures Counts(Burst(p, k, now, n), p, k, now, n)
  {
    if n > 0 {
      BurstIsCounted(p, k, now, n - 1);
      AdmissionCounts(Burst(p, k, now, n - 1), p, k, now, n - 1);
    }
  }

  /** Under every policy a full burst is denied, but not behind a cleanup whose clock is a window ahead. */
  lemma EarlyCleanupForgets(p: Policy, k: nat, now: Instant)
    requires k != 0 && now != 0 && now + Window(p) != 0
    ensures var events := Burst(p, k, now, Limit(p));
            && Decide(events, p, k, now).Denied?
            && Decide(Do(events, Cleanup(now + Window(p))), p, k, now).Allowed?
  {
    BurstIsCounted(p, k, now, Limit(p));
    CleanupMovesTheClock(Burst(p, k, now, Limit(p)), p, k, now + Window(p), now);
  }

  // ----- What the decisions promise -----

  /** The admitted checks of one key, oldest first. */
  function Admitted(log: seq<Event>, p: Policy, k: nat): seq<Event> {
    Rows(log, OfKey(p, k))
  }

  ghost predicate InTime(admitted: seq<Event>, p: Policy, t: Instant) {
    && (forall i :: 0 <= i < |admitted| ==>
        admitted[i].occurredAt <= t && admitted[i].expiresAt == admitted[i].occurredAt + Window(p))
    && (forall i, j :: 0 <= i < j < |admitted| ==> admitted[i].occurredAt <= admitted[j].occurredAt)
  }

  /** Any Limit + 1 consecutive admitted checks span at least the window. */
  ghost predicate Spread(admitted: seq<Event>, p: Policy) {
    forall i, j :: 0 <= i && i + Limit(p) == j && j < |admitted| ==>
      admitted[i].occurredAt + Window(p) <= admitted[j].occurredAt
  }

  /** The first n have expired, the others have not. */
  ghost predicate SplitsAt(admitted: seq<Event>, n: nat, now: Instant) {
    && n <= |admitted|
    && (forall i :: 0 <= i < n ==> admitted[i].expiresAt <= now)
    && (forall i :: n <= i < |admitted| ==> admitted[i].expiresAt > now)
  }

  lemma SplitAtLeast(admitted: seq<Event>, n: nat, m: nat, now: Instant)
    requires SplitsAt(admitted, n, now) && SplitsAt(admitted, m, now)
    ensures n >= m
  {
    if n < |admitted| {
      assert admitted[n].expiresAt > now;
    }
  }

  lemma OneMoreAdmitted(before: seq<Event>, last: Event, p: Policy, n: nat, now: Instant) returns (m: nat)
    requires SplitsAt(before, n, now) && InTime(before + [last], p, now)
    ensures SplitsAt(before + [last], m, now)
    ensures last.expiresAt > now ==> m == n
    ensures last.expiresAt <= now ==> n == |before| && m == n + 1
  {
    var all := before + [last];
    assert all[|before|] == last && forall i :: 0 <= i < |before| ==> all[i] == before[i];
    if last.expiresAt <= now {
      assert forall i :: 0 <= i < |before| ==> all[i].expiresAt <= last.expiresAt;
      SplitAtLeast(before, n, |before|, now);
      m := |all|;
    } else {
      m := n;
    }
  }

  /** The live events of a key are the last of its admitted ones. */
  lemma {:induction false} LiveAreTheLast(log: seq<Event>, p: Policy, k: nat, now: Instant) returns (n: nat)
    requires InTime(Admitted(log, p, k), p, now)
    ensures SplitsAt(Admitted(log, p, k), n, now) && Rows(log, LiveOf(p, k, now)) == Admitted(log, p, k)[n..]
  {
    if log == [] {
      n := 0;
    } else {
      var front, last := log[..|log| - 1], log[|log| - 1];
      var before := Admitted(front, p, k);
      if Satisfies(last, OfKey(p, k)) {
        assert Admitted(log, p, k) == before + [last];
        EarlierInTime(before, last, p, now);
        var m := LiveAreTheLast(front, p, k, now);
        n := OneMoreAdmitted(before, last, p, m, now);
        assert (before + [last])[m..] == before[m..] + [last];
      } else {
        n := LiveAreTheLast(front, p, k, now);
      }
    }
  }

  lemma EarlierInTime(before: seq<Event>, last: Event, p: Policy, now: Instant)
    requires InTime(before + [last], p, now)
    ensures InTime(before, p, now)
  {
    assert forall i :: 0 <= i < |before| ==> (before + [last])[i] == before[i];
  }

  lemma CheckKeepsSpread(log: seq<Event>, p: Policy, k: nat, now: Instant, t: Instant)
    requires t <= now && InTime(Admitted(log, p, k), p, t) && Spread(Admitted(log, p, k), p)
    ensures InTime(Admitted(Logged(log, p, k, now), p, k), p, now) && Spread(Admitted(Logged(log, p, k, now), p, k), p)
  {
    var n := LiveAreTheLast(log, p, k, now);
    RowsMore(log, NewEvent(p, k, now), OfKey(p, k));
    if Decide(log, p, k, now).Allowed? {
      AdmissionKeepsSpread(Admitted(log, p, k), p, k, now, n);
    }
  }

  lemma AdmissionKeepsSpread(admitted: seq<Event>, p: Policy, k: nat, now: Instant, n: nat)
    requires InTime(admitted, p, now) && Spread(admitted, p)
    requires n <= |admitted| < n + Limit(p) && forall i :: 0 <= i < n ==> admitted[i].expiresAt <= now
    ensures InTime(admitted + [NewEvent(p, k, now)], p, now) && Spread(admitted + [NewEvent(p, k, now)], p)
  {
    var more := admitted + [NewEvent(p, k, now)];
    assert forall i :: 0 <= i < |admitted| ==> more[i] == admitted[i];
  }

  function DoLogAll(log: seq<Event>, ops: seq<Op>): seq<Event>
    decreases |ops|
  {
    if ops == [] then log else DoLogAll(DoLog(log, ops[0]), ops[1..])
  }

  lemma StepKeepsSpread(log: seq<Event>, op: Op, p: Policy, k: nat, t: Instant)
    requires InTime(Admitted(log, p, k), p, t) && Spread(Admitted(log, p, k), p)
             && (IsCheckOf(op, p, k) ==> t <= op.now)
    ensures var log' := DoLog(log, op);
            && InTime(Admitted(log', p, k), p, TimeAfter(op, p, k, t))
            && Spread(Admitted(log', p, k), p)
  {
    match op
    case Check(q, j, now) =>
      if IsCheckOf(op, p, k) {
        CheckKeepsSpread(log, p, k, now, t);
      } else {
        RowsMore(log, NewEvent(q, j, now), OfKey(p, k));
      }
    case Reset(j) =>
      if p.LoginEmailFailure? && j == k {
        NothingLeft(log, OfKey(p, k), OfKey(p, k));
      } else {
        RowsWithout(log, OfKey(p, k), OfKey(LoginEmailFailure, j));
      }
    case Cleanup(_) =>
  }

  /** Whatever the load, Limit + 1 consecutive admitted checks of one key never fit in less than the window. */
  lemma {:induction false} WindowIsRespected(log: seq<Event>, ops: seq<Op>, p: Policy, k: nat, t: Instant)
    requires InTime(Admitted(log, p, k), p, t) && Spread(Admitted(log, p, k), p) && Forward(ops, p, k, t)
    ensures Spread(Admitted(DoLogAll(log, ops), p, k), p)
    decreases |ops|
  {
    if ops != [] {
      StepKeepsSpread(log, ops[0], p, k, t);
      WindowIsRespected(DoLog(log, ops[0]), ops[1..], p, k, TimeAfter(ops[0], p, k, t));
    }
  }

  lemma DenialIsInvisible(events: seq<Event>, p: Policy, k: nat, now: Instant)
    requires Decide(events, p, k, now).Denied?
    ensures Shows(Checked(events, p, k, now), events, p, k, now)
  {
    PruningIsInvisible(events, p, k, now, now);
    forall later | now <= later
      ensures Rows(Checked(events, p, k, now), LiveOf(p, k, later)) == Rows(events, LiveOf(p, k, later))
    {
      PruningIsInvisible(events, p, k, now, later);
    }
  }

  /** A denied check leaves every later decision about the key as it was, whatever is checked, reset and cleaned up
    * in between. */
  lemma DenialLeavesNoTrace(events: seq<Event>, ops: seq<Op>, p: Policy, k: nat, now: Instant)
    requires Decide(events, p, k, now).Denied? && Forward(ops, p, k, now)
    ensures Decisions(Checked(events, p, k, now), ops, p, k) == Decisions(events, ops, p, k)
  {
    DenialIsInvisible(events, p, k, now);
    DecisionsFollowLog(Checked(events, p, k, now), events, ops, p, k, now);
    DecisionsFollowLog(events, events, ops, p, k, now);
  }

  /** A check is admitted exactly when the Limit-th last admitted one is at least a window old. */
  lemma AdmitsExactly(log: seq<Event>, p: Policy, k: nat, now: Instant)
    requires InTime(Admitted(log, p, k), p, now)
    ensures var admitted := Admitted(log, p, k);
            Decide(log, p, k, now).Allowed? <==>
              |admitted| < Limit(p) || admitted[|admitted| - Limit(p)].occurredAt + Window(p) <= now
    ensures Decide(log, p, k, now).Allowed? ==> 0 <= Decide(log, p, k, now).remaining < Limit(p)
  {
    var admitted := Admitted(log, p, k);
    var n := LiveAreTheLast(log, p, k, now);
    if |admitted| >= Limit(p) {
      var e := admitted[|admitted| - Limit(p)];
      assert e.expiresAt == e.occurredAt + Window(p);
    }
  }

  lemma LiveIsBounded(log: seq<Event>, p: Policy, k: nat, now: Instant, t: Instant)
    requires InTime(Admitted(log, p, k), p, t) && Spread(Admitted(log, p, k), p) && t <= now
    ensures |Rows(log, LiveOf(p, k, now))| <= Limit(p)
  {
    var admitted := Admitted(log, p, k);
    var n := LiveAreTheLast(log, p, k, now);
    if |admitted| > Limit(p) {
      var j := |admitted| - 1;
      assert admitted[j - Limit(p)].occurredAt + Window(p) <= admitted[j].occurredAt;
      assert j - Limit(p) < n;
    }
  }

  /** On the history, a retry after the announced delay is admitted. */
  lemma RetryIsAdmitted(log: seq<Event>, p: Policy, k: nat, now: Instant, t: Instant)
    requires InTime(Admitted(log, p, k), p, t) && Spread(Admitted(log, p, k), p) && t <= now
    requires Decide(log, p, k, now).Denied?
    ensures Decide(log, p, k, now).retryAfter >= SECOND
    ensures Decide(log, p, k, now + Decide(log, p, k, now).retryAfter).Allowed?
  {
    var live := Rows(log, LiveOf(p, k, now));
    var later := now + Decide(log, p, k, now).retryAfter;
    LiveIsBounded(log, p, k, now, t);
    OneExpires(log, p, k, now, later);
  }

  lemma OneExpires(log: seq<Event>, p: Policy, k: nat, now: Instant, later: Instant)
    requires InTime(Admitted(log, p, k), p, now) && now <= later
    requires var live := Rows(log, LiveOf(p, k, now)); live != [] && Earliest(live) <= later
    ensures |Rows(log, LiveOf(p, k, later))| < |Rows(log, LiveOf(p, k, now))|
  {
    var admitted := Admitted(log, p, k);
    var live := Rows(log, LiveOf(p, k, now));
    var n := LiveAreTheLast(log, p, k, now);
    var m := LiveAreTheLast(log, p, k, later);
    var e :| e in live && e.expiresAt == Earliest(live);
    var i :| 0 <= i < |live| && live[i] == e;
    assert admitted[n + i] == e;
    assert n + i < m;
  }

  function DoAll(events: seq<Event>, ops: seq<Op>): seq<Event>
    decreases |ops|
  {
    if ops == [] then events else DoAll(Do(events, ops[0]), ops[1..])
  }

  function TimeAfterAll(ops: seq<Op>, p: Policy, k: nat, t: Instant): Instant
    decreases |ops|
  {
    if ops == [] then t else TimeAfterAll(ops[1..], p, k, TimeAfter(ops[0], p, k, t))
  }

  lemma {:induction false} RunShows(events: seq<Event>, log: seq<Event>, ops: seq<Op>, p: Policy, k: nat, t: Instant)
    requires Shows(events, log, p, k, t) && Forward(ops, p, k, t)
    requires InTime(Admitted(log, p, k), p, t) && Spread(Admitted(log, p, k), p)
    ensures var end := TimeAfterAll(ops, p, k, t);
            var log' := DoLogAll(log, ops);
            && Shows(DoAll(events, ops), log', p, k, end)
            && InTime(Admitted(log', p, k), p, end) && Spread(Admitted(log', p, k), p)
    decreases |ops|
  {
    if ops != [] {
      StepShows(events, log, ops[0], p, k, t);
      StepKeepsSpread(log, ops[0], p, k, t);
      RunShows(Do(events, ops[0]), DoLog(log, ops[0]), ops[1..], p, k, TimeAfter(ops[0], p, k, t));
    }
  }

  /** After any load on the table, a denied client that retries alone after the announced delay is admitted. */
  lemma LoneRetryIsAdmitted(events: seq<Event>, ops: seq<Op>, p: Policy, k: nat, t: Instant, now: Instant)
    requires Forward(ops, p, k, t) && TimeAfterAll(ops, p, k, t) <= now
    requires events == DoAll([], ops) && Decide(events, p, k, now).Denied?
    ensures var wait := Decide(events, p, k, now).retryAfter;
            wait >= SECOND && Decide(Checked(events, p, k, now), p, k, now + wait).Allowed?
  {
    RunFromEmpty(ops, p, k, t);
    RetryOnTable(events, DoLogAll([], ops), p, k, TimeAfterAll(ops, p, k, t), now);
  }

  lemma RunFromEmpty(ops: seq<Op>, p: Policy, k: nat, t: Instant)
    requires Forward(ops, p, k, t)
    ensures var end := TimeAfterAll(ops, p, k, t);
            var log := DoLogAll([], ops);
            && Shows(DoAll([], ops), log, p, k, end)
            && InTime(Admitted(log, p, k), p, end) && Spread(Admitted(log, p, k), p)
  {
    RunShows([], [], ops, p, k, t);
  }

  lemma SameDecision(events: seq<Event>, log: seq<Event>, p: Policy, k: nat, t: Instant, now: Instant)
    requires Shows(events, log, p, k, t) && t <= now
    ensures Decide(events, p, k, now) == Decide(log, p, k, now)
  {
  }

  lemma RetryOnTable(events: seq<Event>, log: seq<Event>, p: Policy, k: nat, t: Instant, now: Instant)
    requires Shows(events, log, p, k, t) && t <= now && Decide(events, p, k, now).Denied?
    requires InTime(Admitted(log, p, k), p, t) && Spread(Admitted(log, p, k), p)
    ensures var wait := Decide(events, p, k, now).retryAfter;
            wait >= SECOND && Decide(Checked(events, p, k, now), p, k, now + wait).Allowed?
  {
    SameDecision(events, log, p, k, t, now);
    RetryIsAdmitted(log, p, k, now, t);
    var later := now + Decide(log, p, k, now).retryAfter;
    SameDecision(events, log, p, k, t, later);
    DenialIsInvisible(events, p, k, now);
    SameDecision(Checked(events, p, k, now), events, p, k, now, later);
  }
}
