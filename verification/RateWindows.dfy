/** The rate limiter against the plain description of a sliding window: how many checks of a key were granted,
  * when, and how long the next one must wait. No table, no pruning and no cleanup occurs in it.
  */
module RateWindows {
  import opened RateLimit

  function Most(p: Policy): nat {
    if p.LoginIPAttempt? then 30 else if p.RefreshFamilyAttempt? then 20 else 5
  }

  /** One hour for registrations, a quarter of an hour otherwise. */
  function Span(p: Policy): int {
    if p.RegistrationIPAttempt? then 3_600_000_000_000 else 900_000_000_000
  }

  /** Whether a check is granted after grants at the instants g: the last `Most` of them must not all be recent. */
  predicate IsGranted(g: seq<Instant>, p: Policy, now: Instant) {
    |g| < Most(p) || g[|g| - Most(p)] + Span(p) <= now
  }

  function Recent(g: seq<Instant>, p: Policy, now: Instant): nat {
    if g == [] then 0
    else Recent(g[..|g| - 1], p, now) + (if g[|g| - 1] + Span(p) > now then 1 else 0)
  }

  /** The answer: what is left, or the wait until the oldest of the last `Most` grants is a window old, at least a
    * second. */
  function Answer(g: seq<Instant>, p: Policy, now: Instant): Decision {
    if IsGranted(g, p, now) then Allowed(Most(p) - 1 - Recent(g, p, now))
    else
      var wait := g[|g| - Most(p)] + Span(p) - now;
      Denied(if wait < 1_000_000_000 then 1_000_000_000 else wait)
  }

  /** The grants of a key since its last reset; cleanups do not matter. */
  function GrantsAfter(g: seq<Instant>, op: Op, p: Policy, k: nat): seq<Instant> {
    match op
    case Check(q, j, now) => if q == p && j == k && j != 0 && now != 0 && IsGranted(g, p, now) then g + [now] else g
    case Reset(j) => if p.LoginEmailFailure? && j == k && j != 0 then [] else g
    case Cleanup(_) => g
  }

  function GrantsAfterAll(g: seq<Instant>, ops: seq<Op>, p: Policy, k: nat): seq<Instant>
    decreases |ops|
  {
    if ops == [] then g else GrantsAfterAll(GrantsAfter(g, ops[0], p, k), ops[1..], p, k)
  }

  /** g are the instants of the admitted checks. */
  ghost predicate AreTimesOf(g: seq<Instant>, admitted: seq<Event>) {
    |g| == |admitted| && forall i :: 0 <= i < |g| ==> g[i] == admitted[i].occurredAt
  }

  lemma PoliciesAreSpelledOut(p: Policy)
    ensures Limit(p) == Most(p) && Window(p) == Span(p) && SECOND == 1_000_000_000
  {
  }

  lemma {:induction false} RecentIsTheRest(g: seq<Instant>, admitted: seq<Event>, p: Policy, n: nat, now: Instant)
    requires AreTimesOf(g, admitted) && SplitsAt(admitted, n, now)
    requires forall i :: 0 <= i < |admitted| ==> admitted[i].expiresAt == admitted[i].occurredAt + Window(p)
    ensures Recent(g, p, now) == |g| - n
  {
    PoliciesAreSpelledOut(p);
    if g != [] {
      var last := |g| - 1;
      assert admitted[last].expiresAt == g[last] + Span(p);
      RecentIsTheRest(g[..last], admitted[..last], p, if n == |g| then last else n, now);
    }
  }

  lemma EarliestIsFirst(live: seq<Event>)
    requires live != [] && forall i :: 0 <= i < |live| ==> live[0].expiresAt <= live[i].expiresAt
    ensures Earliest(live) == live[0].expiresAt
  {
    var earliest := Earliest(live);
    var e :| e in live && e.expiresAt == earliest;
    assert live[0] in live;
  }

  lemma OldestIsFirst(admitted: seq<Event>, p: Policy, n: nat, now: Instant)
    requires InTime(admitted, p, now) && n < |admitted|
    ensures Earliest(admitted[n..]) == admitted[n].expiresAt
  {
    var live := admitted[n..];
    forall i | 0 <= i < |live| ensures live[0].expiresAt <= live[i].expiresAt {
      assert live[i] == admitted[n + i] && live[0] == admitted[n];
      assert i > 0 ==> admitted[n].occurredAt <= admitted[n + i].occurredAt;
    }
    EarliestIsFirst(live);
  }

  lemma DenialIsTimed(g: seq<Instant>, admitted: seq<Event>, p: Policy, n: nat, now: Instant)
    requires AreTimesOf(g, admitted) && SplitsAt(admitted, n, now) && InTime(admitted, p, now)
    requires n + Limit(p) == |admitted|
    ensures Answer(g, p, now) == DecisionBy(admitted[n..], p, now)
  {
    PoliciesAreSpelledOut(p);
    OldestIsFirst(admitted, p, n, now);
    assert admitted[n].expiresAt == g[n] + Span(p);
  }

  lemma GrantIsCounted(g: seq<Instant>, admitted: seq<Event>, p: Policy, n: nat, now: Instant)
    requires AreTimesOf(g, admitted) && SplitsAt(admitted, n, now) && InTime(admitted, p, now)
    requires |admitted| < n + Limit(p)
    ensures Answer(g, p, now) == DecisionBy(admitted[n..], p, now)
  {
    PoliciesAreSpelledOut(p);
    RecentIsTheRest(g, admitted, p, n, now);
    if |g| >= Most(p) {
      assert admitted[|g| - Most(p)].expiresAt <= now;
    }
  }

  lemma HistoryAnswers(log: seq<Event>, g: seq<Instant>, p: Policy, k: nat, t: Instant, now: Instant)
    requires InTime(Admitted(log, p, k), p, t) && Spread(Admitted(log, p, k), p) && t <= now
    requires AreTimesOf(g, Admitted(log, p, k))
    ensures Decide(log, p, k, now) == Answer(g, p, now)
  {
    var admitted := Admitted(log, p, k);
    var n := LiveAreTheLast(log, p, k, now);
    LiveIsBounded(log, p, k, now, t);
    WindowAnswers(g, admitted, p, n, now);
  }

  lemma WindowAnswers(g: seq<Instant>, admitted: seq<Event>, p: Policy, n: nat, now: Instant)
    requires AreTimesOf(g, admitted) && SplitsAt(admitted, n, now) && InTime(admitted, p, now)
    requires |admitted| <= n + Limit(p)
    ensures Answer(g, p, now) == DecisionBy(admitted[n..], p, now)
  {
    if |admitted| - n == Limit(p) {
      DenialIsTimed(g, admitted, p, n, now);
    } else {
      GrantIsCounted(g, admitted, p, n, now);
    }
  }

  lemma StepGrants(log: seq<Event>, g: seq<Instant>, op: Op, p: Policy, k: nat, t: Instant)
    requires k != 0 && InTime(Admitted(log, p, k), p, t) && Spread(Admitted(log, p, k), p)
    requires AreTimesOf(g, Admitted(log, p, k)) && (IsCheckOf(op, p, k) ==> t <= op.now)
    ensures AreTimesOf(GrantsAfter(g, op, p, k), Admitted(DoLog(log, op), p, k))
  {
    match op
    case Check(q, j, now) =>
      if IsCheckOf(op, p, k) {
        HistoryAnswers(log, g, p, k, t, now);
      }
      RowsMore(log, NewEvent(q, j, now), OfKey(p, k));
    case Reset(j) =>
      if p.LoginEmailFailure? && j == k {
        NothingLeft(log, OfKey(p, k), OfKey(p, k));
      } else {
        RowsWithout(log, OfKey(p, k), OfKey(LoginEmailFailure, j));
      }
    case Cleanup(_) =>
  }

  lemma {:induction false} RunGrants(log: seq<Event>, g: seq<Instant>, ops: seq<Op>, p: Policy, k: nat, t: Instant)
    requires k != 0 && InTime(Admitted(log, p, k), p, t) && Spread(Admitted(log, p, k), p)
    requires AreTimesOf(g, Admitted(log, p, k)) && Forward(ops, p, k, t)
    ensures AreTimesOf(GrantsAfterAll(g, ops, p, k), Admitted(DoLogAll(log, ops), p, k))
    decreases |ops|
  {
    if ops != [] {
      StepGrants(log, g, ops[0], p, k, t);
      StepKeepsSpread(log, ops[0], p, k, t);
      RunGrants(
        DoLog(log, ops[0]), GrantsAfter(g, ops[0], p, k), ops[1..], p, k, TimeAfter(ops[0], p, k, t));
    }
  }

  /** After any load on the pruned table, the answer to a check is the sliding window's, number by number. */
  lemma TableIsAWindow(ops: seq<Op>, p: Policy, k: nat, t: Instant, now: Instant)
    requires k != 0 && Forward(ops, p, k, t) && TimeAfterAll(ops, p, k, t) <= now
    ensures Decide(DoAll([], ops), p, k, now) == Answer(GrantsAfterAll([], ops, p, k), p, now)
  {
    RunFromEmpty(ops, p, k, t);
    RunGrants([], [], ops, p, k, t);
    var log, end := DoLogAll([], ops), TimeAfterAll(ops, p, k, t);
    SameDecision(DoAll([], ops), log, p, k, end, now);
    HistoryAnswers(log, GrantsAfterAll([], ops, p, k), p, k, end, now);
  }
}
