/** One delivery worker among others: its claim cycle only ever takes steps of the transition system.
  *
  * The surroundings of the worker are a sequence of moments, one per interaction: the clock, whether
  * the context is cancelled, how a call or statement ends, and what every other worker does first.
  */
module Delivery {
  import opened Wrappers
  import opened Outbox
  import opened OutboxRuns
  import opened RetryCap

  /** A statement runs, is refused before it runs, or runs while its answer is lost. */
  datatype Fault = NoFault | Refused | Lost

  datatype Moment = Moment(
    now: Instant, cancelled: bool, noToken: bool, succeeds: bool, jitter: int, fault: Fault, locked: set<nat>,
    others: seq<Label>)

  datatype WorkerError =
    | Cancelled | TokenUnavailable | StoreFault | Rejected(error: StoreError) | InvalidClaim | InvalidDependencies

  datatype Config = Config(lease: int64, baseDelay: int64, maxDelay: int64, maxInvocations: int32, batchSize: int32)

  predicate ValidConfig(c: Config) {
    && c.lease > 0 && 0 < c.baseDelay <= c.maxDelay
    && 1 <= c.maxInvocations <= 0x7fff_fffe && 1 <= c.batchSize <= 100
  }

  datatype ClaimedEvent = ClaimedEvent(id: nat, token: nat, attempt: int, leaseExpiresAt: Instant)

  function HandleOf(c: ClaimedEvent): Handle {
    Handle(c.id, c.token)
  }

  /** A step that no holder of `token` takes. */
  predicate Foreign(token: nat, l: Label) {
    match l
    case Append(_, _, _, _) => true
    case Claim(_, _, other, _, _) => other != token
    case Drop(h) => h.token != token
    case Start(h) => h.token != token
    case Succeed(h) => h.token != token
    case Fail(h) => h.token != token
    case Acknowledge(h, _) => h.token != token
    case Retry(h, _, _) => h.token != token
    case GiveUp(h, _) => h.token != token
  }

  /** The claims under `token` are as they were, and its rows are if anything fewer. */
  ghost predicate Keeps(token: nat, s: Sys, s': Sys) {
    && (token in s'.used <==> token in s.used)
    && KeepsHands(token, s.hands, s'.hands)
    && OwnsNoMore(token, s.table, s'.table)
  }

  ghost predicate KeepsHands(token: nat, hands: map<Handle, Hand>, hands': map<Handle, Hand>) {
    forall h: Handle :: h.token == token ==> (h in hands' <==> h in hands) && (h in hands ==> hands'[h] == hands[h])
  }

  ghost predicate OwnsNoMore(token: nat, t: Table, t': Table) {
    forall id: nat :: Owns(t', id, token) ==> Owns(t, id, token)
  }

  lemma ForeignKeeps(max: int, s: Sys, l: Label, token: nat)
    requires Foreign(token, l)
    ensures Keeps(token, s, Do(max, s, l))
  {
  }

  // ----- Which steps of a trace are the worker's own -----

  /** One step; naming it keeps the proofs about whole traces from unfolding every step. */
  predicate LeadsTo(max: int, s: Sys, l: Label, next: Sys) {
    next == Do(max, s, l)
  }

  /** The labels of `trace` lead from s to s'; those of the holder of `token` are `own`, each possible when it was
    * taken. */
  ghost predicate Ran(max: int, token: nat, s: Sys, trace: seq<Label>, own: seq<Label>, s': Sys)
    decreases |trace|
  {
    if trace == [] then own == [] && s' == s
    else
      forall next :: LeadsTo(max, s, trace[0], next) ==>
        if Foreign(token, trace[0]) then Ran(max, token, next, trace[1..], own, s')
        else
          && Allowed(max, s, trace[0]) && own != [] && own[0] == trace[0]
          && Ran(max, token, next, trace[1..], own[1..], s')
  }

  lemma {:induction false} RanIsRun(max: int, token: nat, s: Sys, trace: seq<Label>, own: seq<Label>, s': Sys)
    requires Ran(max, token, s, trace, own, s')
    ensures s' == DoAll(max, s, trace)
    decreases |trace|
  {
    if trace != [] {
      var next := Do(max, s, trace[0]);
      assert LeadsTo(max, s, trace[0], next);
      RanIsRun(max, token, next, trace[1..], if Foreign(token, trace[0]) then own else own[1..], s');
    }
  }

  lemma {:induction false} RanThen(
    max: int, token: nat, s: Sys, a: seq<Label>, own: seq<Label>, s1: Sys, b: seq<Label>, more: seq<Label>, s2: Sys,
    whole: seq<Label>)
    requires Ran(max, token, s, a, own, s1) && Ran(max, token, s1, b, more, s2) && whole == own + more
    ensures Ran(max, token, s, a + b, whole, s2)
    decreases |a|
  {
    if a == [] {
      assert a + b == b && whole == more;
    } else {
      var l, rest := a[0], a[1..];
      assert (a + b)[0] == l && (a + b)[1..] == rest + b;
      forall next | LeadsTo(max, s, l, next)
        ensures if Foreign(token, l) then Ran(max, token, next, rest + b, whole, s2)
                else
                  && Allowed(max, s, l) && whole != [] && whole[0] == l
                  && Ran(max, token, next, rest + b, whole[1..], s2)
      {
        RanThen(max, token, next, rest, if Foreign(token, l) then own else own[1..], s1, b, more, s2,
                if Foreign(token, l) then whole else whole[1..]);
      }
    }
  }

  function OwnOf(token: nat, l: Label): seq<Label> {
    if Foreign(token, l) then [] else [l]
  }

  lemma RanOne(max: int, token: nat, s: Sys, l: Label)
    requires Foreign(token, l) || Allowed(max, s, l)
    ensures Ran(max, token, s, [l], OwnOf(token, l), Do(max, s, l))
  {
    assert [l][1..] == [] && LeadsTo(max, s, l, Do(max, s, l));
    assert Ran(max, token, Do(max, s, l), [], [], Do(max, s, l));
  }

  lemma RanThenOne(max: int, token: nat, s: Sys, a: seq<Label>, own: seq<Label>, s1: Sys, l: Label)
    requires Ran(max, token, s, a, own, s1) && (Foreign(token, l) || Allowed(max, s1, l))
    ensures Ran(max, token, s, a + [l], if Foreign(token, l) then own else own + [l], Do(max, s1, l))
  {
    RanOne(max, token, s1, l);
    RanThen(max, token, s, a, own, s1, [l], OwnOf(token, l), Do(max, s1, l),
            if Foreign(token, l) then own else own + [l]);
  }

  /** The table refuses the statement outright, whoever owns the row. */
  ghost predicate Refuses(t: Table, l: Label) {
    match l
    case Claim(_, asOf, token, lease, limit) =>
      !ValidClaim(asOf, token, lease, limit) || exists id :: id in t.rows && t.rows[id].attempts >= MAX_INT32
    case Acknowledge(h, at) =>
      h.event == 0 || h.token == 0 || at == 0 || (Owns(t, h.event, h.token) && at < t.rows[h.event].occurredAt)
    case Retry(h, at, code) => h.event == 0 || h.token == 0 || at == 0 || !ValidFailureCode(code)
    case GiveUp(h, code) => h.event == 0 || h.token == 0 || !ValidFailureCode(code)
    case _ => false
  }

  // ----- The surroundings -----

  /** The database, the other workers and the publisher. */
  class World {
    const max: int
    const store: Store
    const moments: nat -> Moment
    var clock: nat
    var hands: map<Handle, Hand>
    var history: seq<Entry>
    var used: set<nat>

    function View(): Sys
      reads this, store
    {
      Sys(store.Contents(), hands, history, used)
    }

    constructor (max: int, moments: nat -> Moment)
      ensures View() == EMPTY && clock == 0 && this.max == max && this.moments == moments && fresh(store)
    {
      this.max, this.moments := max, moments;
      store := new Store();
      clock, hands, history, used := 0, map[], [], {};
    }

    method Apply(l: Label)
      modifies this, store
      ensures View() == Do(max, old(View()), l) && clock == old(clock)
    {
      var s := Do(max, View(), l);
      store.rows, store.next := s.table.rows, s.table.next;
      hands, history, used := s.hands, s.history, s.used;
    }

    /** Time passes: everyone else acts, then this worker reads its surroundings. */
    method Tick(token: nat) returns (m: Moment, ghost trace: seq<Label>)
      modifies this, store
      ensures m == moments(old(clock)) && clock == old(clock) + 1
      ensures Ran(max, token, old(View()), trace, [], View())
      ensures Keeps(token, old(View()), View())
    {
      m := moments(clock);
      clock := clock + 1;
      trace := [];
      for i := 0 to |m.others|
        invariant clock == old(clock) + 1
        invariant Ran(max, token, old(View()), trace, [], View())
        invariant Keeps(token, old(View()), View())
      {
        if Foreign(token, m.others[i]) {
          ForeignKeeps(max, View(), m.others[i], token);
          RanThenOne(max, token, old(View()), trace, [], View(), m.others[i]);
          Apply(m.others[i]);
          trace := trace + [m.others[i]];
        }
      }
    }

    /** A random identifier; it has never been drawn before. */
    method ClaimToken() returns (token: nat)
      ensures token != 0 && token !in used
    {
      token := 1;
      ghost var rest := used;
      while token in used
        invariant token != 0 && forall t :: t in used && t >= token ==> t in rest
        decreases rest
      {
        rest := rest - {token};
        token := token + 1;
      }
    }

    /** The claim statement. What it claimed, even if its answer is lost, is `batch`; the others brought the table
      * to `at` before. */
    method ClaimDue(now: Instant, token: nat, lease: Instant, limit: int)
      returns (claims: Result<seq<ClaimedEvent>, WorkerError>, ghost batch: seq<ClaimedEvent>, ghost at: Sys,
               ghost lead: seq<Label>)
      requires token !in used
      modifies this, store
      ensures clock == old(clock) + 1
      ensures Ran(max, token, old(View()), lead, [], at)
      ensures ClaimEnded(max, moments(old(clock)), at, Claim(IdsOf(batch), now, token, lease, limit), batch, View(),
                         claims)
      ensures claims.Success? ==> AllHeld(View(), token, batch, 0)
    {
      var m;
      batch := [];
      m, lead := Tick(token);
      at := View();
      if m.fault.Refused? {
        return Failure(StoreFault), batch, at, lead;
      }
      var taken := TakeBatch(now, token, lease, limit, m.locked);
      if taken.Failure? {
        return Failure(Rejected(taken.error)), batch, at, lead;
      }
      batch := taken.value;
      claims := if m.fault.Lost? then Failure(StoreFault) else Success(taken.value);
    }

    /** The statement, as far as the worker relies on it. */
    method ClaimRows(now: Instant, token: nat, lease: Instant, limit: int, locked: set<nat>)
      returns (ids: Result<set<nat>, StoreError>)
      modifies store
      ensures ids.Failure? ==>
                store.Contents() == old(store.Contents())
                  && Refuses(store.Contents(), Claim({}, now, token, lease, limit))
      ensures ids.Success? ==>
                && ValidClaim(now, token, lease, limit)
                && IsBatch(old(store.rows), locked, now, limit, ids.value)
                && (forall id :: id in ids.value ==> old(store.rows)[id].attempts < MAX_INT32)
                && store.Contents() == Claimed(old(store.Contents()), ids.value, now, token, lease)
    {
      ids := store.ClaimDue(now, token, lease, limit, locked);
    }

    /** The claims as they are handed to the worker. */
    method HandOut(rows: map<nat, Row>, ids: set<nat>, token: nat, lease: Instant) returns (listed: seq<ClaimedEvent>)
      requires forall id :: id in ids ==> id in rows
      modifies this`hands, this`used
      ensures hands == old(hands) + HandsOf(rows, ids, token, lease) && used == old(used) + {token}
      ensures IdsOf(listed) == ids && AreListed(rows, token, lease, listed)
    {
      hands := hands + HandsOf(rows, ids, token, lease);
      used := used + {token};
      listed := Listed(rows, ids, token, lease);
    }

    /** The statement itself, and the claims as they are handed to the worker. */
    method TakeBatch(now: Instant, token: nat, lease: Instant, limit: int, locked: set<nat>)
      returns (taken: Result<seq<ClaimedEvent>, StoreError>)
      requires token !in used
      modifies this, store
      ensures clock == old(clock)
      ensures taken.Failure? ==> View() == old(View()) && Refuses(View().table, Claim({}, now, token, lease, limit))
      ensures taken.Success? ==>
                var l := Claim(IdsOf(taken.value), now, token, lease, limit);
                && Allowed(max, old(View()), l) && View() == Do(max, old(View()), l)
                && IsClaimOf(old(View()).table.rows, locked, l, taken.value) && AllHeld(View(), token, taken.value, 0)
    {
      ghost var s := View();
      var rows := store.rows;
      var ids := ClaimRows(now, token, lease, limit, locked);
      if ids.Failure? {
        return Failure(ids.error);
      }
      ClaimedAreRows(s.table.rows, locked, now, limit, ids.value);
      var listed := HandOut(rows, ids.value, token, lease);
      BatchIsTaken(max, s, locked, Claim(ids.value, now, token, lease, limit), listed, View());
      taken := Success(listed);
    }

    /** One call of the publisher while the others go on. */
    method Publish(h: Handle) returns (delivered: bool, ghost trace: seq<Label>)
      requires InPhase(View(), h, Held) && hands[h].attempt <= max
      modifies this, store
      ensures delivered == moments(old(clock)).succeeds && clock == old(clock) + 1
      ensures Ran(max, h.token, old(View()), trace, [Start(h), if delivered then Succeed(h) else Fail(h)], View())
      ensures InPhase(View(), h, if delivered then Delivered else Missed)
              && View().hands[h].attempt == old(hands[h].attempt)
      ensures KeepsOtherHands(h, old(hands), hands) && OwnsNoMore(h.token, old(View()).table, View().table)
    {
      var m;
      ghost var during;
      RanOne(max, h.token, View(), Start(h));
      Apply(Start(h));
      ghost var started := View();
      m, during := Tick(h.token);
      delivered := m.succeeds;
      var end := if delivered then Succeed(h) else Fail(h);
      CallRan(max, h, old(View()), started, during, View(), end);
      Apply(end);
      trace := [Start(h)] + during + [end];
    }

    /** The statement that settles a claim, as label l describes it. Without an error the claim owns its row no
      * longer. */
    method Settle(h: Handle, l: Label)
      returns (error: Option<WorkerError>, ghost trace: seq<Label>, ghost own: seq<Label>)
      requires (l.Acknowledge? || l.Retry? || l.GiveUp?) && l.h == h
      requires Allowed(max, View(), l)
      modifies this, store
      ensures clock == old(clock) + 1
      ensures Ran(max, h.token, old(View()), trace, own, View())
      ensures KeepsOtherHands(h, old(hands), hands) && OwnsNoMore(h.token, old(View()).table, View().table)
      ensures SettlementEnded(moments(old(clock)), View().table, h, l, own, error)
    {
      var m;
      m, trace := Tick(h.token);
      own := [];
      if m.fault.Refused? {
        return Some(StoreFault), trace, own;
      }
      ghost var before := View();
      var refused := Execute(h, l);
      if refused.Some? {
        return Some(Rejected(refused.value)), trace, own;
      }
      RanThenOne(max, h.token, old(View()), trace, own, before, l);
      assert own + [l] == [l];
      trace, own := trace + [l], [l];
      error := if m.fault.Lost? then Some(StoreFault) else None;
    }

    /** The statement itself. */
    method Execute(h: Handle, l: Label) returns (refused: Option<StoreError>)
      requires (l.Acknowledge? || l.Retry? || l.GiveUp?) && l.h == h && Allowed(max, View(), l)
      modifies this, store
      ensures clock == old(clock)
      ensures refused.Some? ==> View() == old(View()) && Refuses(View().table, l)
      ensures refused.None? ==>
                && View() == Do(max, old(View()), l) && !Owns(View().table, h.event, h.token)
                && KeepsOtherHands(h, old(hands), hands) && OwnsNoMore(h.token, old(View()).table, View().table)
    {
      ghost var before := View();
      var changed;
      match l {
        case Acknowledge(_, at) => changed := store.MarkPublished(h.event, h.token, at);
        case Retry(_, nextAttemptAt, code) => changed := store.Reschedule(h.event, h.token, nextAttemptAt, code);
        case GiveUp(_, code) => changed := store.MarkDeadLetter(h.event, h.token, code);
      }
      if changed.Failure? {
        return Some(changed.error);
      }
      hands := hands - {h};
      if changed.value {
        history := history + [Settled(h)];
      }
      SettlingIsDone(max, before, h, l, changed.value, View());
      refused := None;
    }
  }

  function SettledBy(t: Table, l: Label): Table {
    match l
    case Acknowledge(h, at) => MarkedPublished(t, h.event, h.token, at)
    case Retry(h, at, code) => Rescheduled(t, h.event, h.token, at, code)
    case GiveUp(h, code) => MarkedDeadLetter(t, h.event, h.token, code)
    case _ => t
  }

  lemma SettlingIsDone(max: int, s: Sys, h: Handle, l: Label, changed: bool, s': Sys)
    requires (l.Acknowledge? || l.Retry? || l.GiveUp?) && l.h == h && Allowed(max, s, l) && !Refuses(s.table, l)
    requires changed == Owns(s.table, h.event, h.token)
    requires s' == Sys(SettledBy(s.table, l), s.hands - {h}, if changed then s.history + [Settled(h)] else s.history,
                       s.used)
    ensures s' == Do(max, s, l) && !Owns(s'.table, h.event, h.token)
    ensures KeepsOtherHands(h, s.hands, s'.hands) && OwnsNoMore(h.token, s.table, s'.table)
  {
  }

  lemma CallRan(max: int, h: Handle, s: Sys, started: Sys, during: seq<Label>, called: Sys, end: Label)
    requires InPhase(s, h, Held) && s.hands[h].attempt <= max && started == Do(max, s, Start(h))
    requires Ran(max, h.token, started, during, [], called) && InPhase(called, h, Calling)
    requires end == Succeed(h) || end == Fail(h)
    ensures Ran(max, h.token, s, [Start(h)] + during + [end], [Start(h), end], Do(max, called, end))
  {
    RanOne(max, h.token, s, Start(h));
    RanThen(max, h.token, s, [Start(h)], [Start(h)], started, during, [], called, [Start(h)]);
    RanThenOne(max, h.token, s, [Start(h)] + during, [Start(h)], called, end);
    assert [Start(h)] + [end] == [Start(h), end];
  }

  /** What a settling statement has done, and why not if it has not. */
  ghost predicate SettlementEnded(
    m: Moment, t: Table, h: Handle, l: Label, own: seq<Label>, error: Option<WorkerError>) {
    && (own == [] || own == [l])
    && match error
       case None => own == [l] && !Owns(t, h.event, h.token)
       case Some(StoreFault) => m.fault != NoFault
       case Some(Rejected(_)) => own == [] && Refuses(t, l)
       case _ => false
  }

  /** What a claim statement that found the table at `at` has done, and why not if it has not. */
  ghost predicate ClaimEnded(
    max: int, m: Moment, at: Sys, l: Label, batch: seq<ClaimedEvent>, s: Sys,
    claims: Result<seq<ClaimedEvent>, WorkerError>)
    requires l.Claim?
  {
    && (s == at || (Allowed(max, at, l) && s == Do(max, at, l) && IsClaimOf(at.table.rows, m.locked, l, batch)))
    && match claims
       case Success(listed) => listed == batch && s != at
       case Failure(StoreFault) => m.fault != NoFault
       case Failure(Rejected(_)) => s == at && Refuses(at.table, l)
       case _ => false
  }

  lemma ClaimIsDone(max: int, s: Sys, l: Label, s': Sys)
    requires l.Claim? && l.token !in s.used && ValidClaim(l.asOf, l.token, l.lease, l.limit) && |l.ids| <= l.limit
    requires forall id :: id in l.ids ==>
               id in s.table.rows && Claimable(s.table.rows, id, l.asOf) && s.table.rows[id].attempts < MAX_INT32
    requires s' == Sys(Claimed(s.table, l.ids, l.asOf, l.token, l.lease),
                       s.hands + HandsOf(s.table.rows, l.ids, l.token, l.lease),
                       s.history, s.used + {l.token})
    ensures Allowed(max, s, l) && s' == Do(max, s, l)
  {
  }

  lemma ClaimedAreRows(rows: map<nat, Row>, locked: set<nat>, asOf: Instant, limit: int, ids: set<nat>)
    requires IsBatch(rows, locked, asOf, limit, ids)
    ensures forall id :: id in ids ==> id in rows
  {
  }

  lemma BatchIsTaken(max: int, s: Sys, locked: set<nat>, l: Label, listed: seq<ClaimedEvent>, s': Sys)
    requires l.Claim? && l.token !in s.used && ValidClaim(l.asOf, l.token, l.lease, l.limit)
    requires IsBatch(s.table.rows, locked, l.asOf, l.limit, l.ids)
    requires (forall id :: id in l.ids ==> s.table.rows[id].attempts < MAX_INT32)
    requires IdsOf(listed) == l.ids && AreListed(s.table.rows, l.token, l.lease, listed)
    requires s' == Sys(Claimed(s.table, l.ids, l.asOf, l.token, l.lease),
                       s.hands + HandsOf(s.table.rows, l.ids, l.token, l.lease), s.history, s.used + {l.token})
    ensures l == Claim(IdsOf(listed), l.asOf, l.token, l.lease, l.limit)
    ensures Allowed(max, s, l) && s' == Do(max, s, l)
    ensures IsClaimOf(s.table.rows, locked, l, listed) && AllHeld(s', l.token, listed, 0)
  {
    ClaimIsDone(max, s, l, s');
    ListedAreHeld(s, s', s.table.rows, l.ids, l.token, l.lease, listed);
  }

  lemma ListedAreHeld(
    s: Sys, s': Sys, rows: map<nat, Row>, ids: set<nat>, token: nat, lease: Instant, claims: seq<ClaimedEvent>)
    requires (forall id :: id in ids ==> id in rows) && s'.hands == s.hands + HandsOf(rows, ids, token, lease)
    requires IdsOf(claims) == ids && AreListed(rows, token, lease, claims)
    ensures AllHeld(s', token, claims, 0)
  {
    forall j | 0 <= j < |claims| ensures claims[j].id in ids {
      assert claims[j] in claims;
    }
  }

  function IdsOf(claims: seq<ClaimedEvent>): set<nat> {
    set c | c in claims :: c.id
  }

  /** The claims are distinct events as the claim statement leaves them. */
  ghost predicate AreListed(rows: map<nat, Row>, token: nat, lease: Instant, claims: seq<ClaimedEvent>) {
    && (forall j :: 0 <= j < |claims| ==>
          && claims[j].id in rows
          && claims[j] == ClaimedEvent(claims[j].id, token, rows[claims[j].id].attempts + 1, lease))
    && (forall j, k :: 0 <= j < k < |claims| ==> claims[j].id != claims[k].id)
  }

  /** What a claim statement on these rows returns. */
  ghost predicate IsClaimOf(rows: map<nat, Row>, locked: set<nat>, l: Label, claims: seq<ClaimedEvent>)
    requires l.Claim?
  {
    IsBatch(rows, locked, l.asOf, l.limit, l.ids) && l.ids == IdsOf(claims) && AreListed(rows, l.token, l.lease, claims)
  }

  ghost predicate KeepsOtherHands(h: Handle, hands: map<Handle, Hand>, hands': map<Handle, Hand>) {
    forall g: Handle :: g.token == h.token && g != h ==>
      (g in hands' <==> g in hands) && (g in hands ==> hands'[g] == hands[g])
  }

  /** The claims from index i on are still in hand, not yet started. */
  ghost predicate AllHeld(s: Sys, token: nat, claims: seq<ClaimedEvent>, i: nat) {
    && (forall j :: i <= j < |claims| ==>
          && claims[j].token == token && InPhase(s, HandleOf(claims[j]), Held)
          && s.hands[HandleOf(claims[j])].attempt == claims[j].attempt)
    && (forall j, k :: i <= j < k < |claims| ==> claims[j].id != claims[k].id)
  }

  /** The returned rows, in no particular order. */
  method Listed(rows: map<nat, Row>, ids: set<nat>, token: nat, lease: Instant) returns (claims: seq<ClaimedEvent>)
    requires forall id :: id in ids ==> id in rows
    ensures IdsOf(claims) == ids && AreListed(rows, token, lease, claims)
  {
    claims := [];
    var rest := ids;
    while rest != {}
      invariant rest <= ids && rest !! IdsOf(claims) && rest + IdsOf(claims) == ids
                && AreListed(rows, token, lease, claims)
      decreases rest
    {
      var id :| id in rest;
      var c := ClaimedEvent(id, token, rows[id].attempts + 1, lease);
      ListsMore(claims, c);
      forall j | 0 <= j < |claims| ensures claims[j].id in IdsOf(claims) {
        assert claims[j] in claims;
      }
      claims := claims + [c];
      rest := rest - {id};
    }
  }

  lemma ListsMore(claims: seq<ClaimedEvent>, c: ClaimedEvent)
    ensures IdsOf(claims + [c]) == IdsOf(claims) + {c.id}
  {
    assert c in claims + [c];
    forall id ensures id in IdsOf(claims + [c]) <==> id in IdsOf(claims) || id == c.id {
      if id in IdsOf(claims) {
        var d :| d in claims && d.id == id;
        assert d in claims + [c];
      }
    }
  }

  // ----- What a worker is to do -----

  const EXHAUSTED := "delivery_attempts_exhausted"
  const FAILED := "delivery_failed"

  lemma CodesAreValid()
    ensures ValidFailureCode(EXHAUSTED) && ValidFailureCode(FAILED)
  {
  }

  /** The call failed and by then the lease had run out. */
  predicate FailsLate(config: Config, moments: nat -> Moment, c: nat, claim: ClaimedEvent) {
    claim.attempt <= config.maxInvocations as int && !moments(c).succeeds && moments(c + 1).now >= claim.leaseExpiresAt
  }

  predicate Retries(config: Config, moments: nat -> Moment, c: nat, claim: ClaimedEvent) {
    claim.attempt < config.maxInvocations as int && !moments(c).succeeds && moments(c + 1).now < claim.leaseExpiresAt
  }

  predicate JitterFits(config: Config, jitter: int, attempt: int) {
    attempt >= 1 && 0 <= jitter <= CapAt(config.baseDelay as int, config.maxDelay as int, attempt)
  }

  /** After a failed call whose lease still runs, decided on at moment c: nothing if the delay drawn is no valid one. */
  function LastSteps(config: Config, moments: nat -> Moment, c: nat, claim: ClaimedEvent): seq<Label> {
    var h := HandleOf(claim);
    if claim.attempt == config.maxInvocations as int then [GiveUp(h, EXHAUSTED)]
    else if !JitterFits(config, moments(c).jitter, claim.attempt) then []
    else [Retry(h, moments(c + 1).now + moments(c).jitter, FAILED)]
  }

  /** The steps that deliver a claim, if moment c is the end of its call. */
  function DeliverySteps(config: Config, moments: nat -> Moment, c: nat, claim: ClaimedEvent): seq<Label> {
    var h, max := HandleOf(claim), config.maxInvocations as int;
    if claim.attempt > max then [GiveUp(h, EXHAUSTED)]
    else if moments(c).succeeds then [Start(h), Succeed(h), Acknowledge(h, moments(c + 1).now)]
    else if FailsLate(config, moments, c, claim) then [Start(h), Fail(h)]
    else [Start(h), Fail(h)] + LastSteps(config, moments, c + 1, claim)
  }

  /** How many moments they take. */
  function DeliveryTime(config: Config, moments: nat -> Moment, c: nat, claim: ClaimedEvent): nat {
    if claim.attempt > config.maxInvocations as int then 1
    else if FailsLate(config, moments, c, claim) then 2
    else if Retries(config, moments, c, claim) then 4
    else 3
  }

  /** A retry's delay lies between nothing and the cap of its attempt. */
  predicate WithinCap(config: Config, moments: nat -> Moment, c: nat, claim: ClaimedEvent) {
    Retries(config, moments, c, claim) ==> JitterFits(config, moments(c + 1).jitter, claim.attempt)
  }

  /** The claim is not even started at moment c. */
  predicate ComesLate(moments: nat -> Moment, c: nat, claim: ClaimedEvent) {
    moments(c).now >= claim.leaseExpiresAt
  }

  /** What happens to a claim reached at moment c. */
  function ClaimSteps(config: Config, moments: nat -> Moment, c: nat, claim: ClaimedEvent): seq<Label> {
    if ComesLate(moments, c, claim) then [] else DeliverySteps(config, moments, c + 1, claim)
  }

  /** The moment after it. */
  function AfterClaim(config: Config, moments: nat -> Moment, c: nat, claim: ClaimedEvent): nat {
    c + 1 + if ComesLate(moments, c, claim) then 0 else DeliveryTime(config, moments, c + 1, claim)
  }

  /** The steps for a batch, one claim after the other. */
  function BatchSteps(config: Config, moments: nat -> Moment, c: nat, claims: seq<ClaimedEvent>): seq<Label>
    decreases |claims|
  {
    if claims == [] then []
    else
      ClaimSteps(config, moments, c, claims[0])
      + BatchSteps(config, moments, AfterClaim(config, moments, c, claims[0]), claims[1..])
  }

  function AfterBatch(config: Config, moments: nat -> Moment, c: nat, claims: seq<ClaimedEvent>): nat
    decreases |claims|
  {
    if claims == [] then c else AfterBatch(config, moments, AfterClaim(config, moments, c, claims[0]), claims[1..])
  }

  /** The moment at which the worker reaches claim j. */
  function Reached(config: Config, moments: nat -> Moment, c: nat, claims: seq<ClaimedEvent>, j: nat): nat
    requires j < |claims|
    decreases j
  {
    if j == 0 then c else Reached(config, moments, AfterClaim(config, moments, c, claims[0]), claims[1..], j - 1)
  }

  /** The claims whose lease was seen to have run out, before or after the call. */
  function LateClaims(config: Config, moments: nat -> Moment, c: nat, claims: seq<ClaimedEvent>): set<nat>
    decreases |claims|
  {
    if claims == [] then {}
    else
      (if ComesLate(moments, c, claims[0]) || FailsLate(config, moments, c + 1, claims[0]) then {claims[0].id} else {})
      + LateClaims(config, moments, AfterClaim(config, moments, c, claims[0]), claims[1..])
  }

  predicate AllWithinCap(config: Config, moments: nat -> Moment, c: nat, claims: seq<ClaimedEvent>)
    decreases |claims|
  {
    claims == []
    || ((ComesLate(moments, c, claims[0]) || WithinCap(config, moments, c + 1, claims[0]))
        && AllWithinCap(config, moments, AfterClaim(config, moments, c, claims[0]), claims[1..]))
  }

  function About(h: Handle, labels: seq<Label>): seq<Label> {
    if labels == [] then []
    else
      (if !labels[0].Append? && !labels[0].Claim? && labels[0].h == h then [labels[0]] else [])
      + About(h, labels[1..])
  }

  lemma {:induction false} AboutConcat(h: Handle, a: seq<Label>, b: seq<Label>)
    ensures About(h, a + b) == About(h, a) + About(h, b)
  {
    if a == [] {
      assert a + b == b;
    } else {
      assert (a + b)[0] == a[0] && (a + b)[1..] == a[1..] + b;
      AboutConcat(h, a[1..], b);
    }
  }

  /** The steps for a claim are about nothing else. */
  lemma ClaimStepsAreAbout(config: Config, moments: nat -> Moment, c: nat, claim: ClaimedEvent, h: Handle)
    ensures var steps := ClaimSteps(config, moments, c, claim);
            About(h, steps) == if h == HandleOf(claim) then steps else []
  {
    AboutOne(h, HandleOf(claim), ClaimSteps(config, moments, c, claim));
  }

  lemma {:induction false} AboutOne(h: Handle, g: Handle, labels: seq<Label>)
    requires forall l :: l in labels ==> !l.Append? && !l.Claim? && l.h == g
    ensures About(h, labels) == if h == g then labels else []
  {
    if labels != [] {
      AboutOne(h, g, labels[1..]);
    }
  }

  ghost predicate DistinctHandles(claims: seq<ClaimedEvent>) {
    forall i, k :: 0 <= i < k < |claims| ==> HandleOf(claims[i]) != HandleOf(claims[k])
  }

  lemma RestIsDistinct(claims: seq<ClaimedEvent>)
    requires claims != [] && DistinctHandles(claims)
    ensures DistinctHandles(claims[1..])
    ensures forall k :: 0 <= k < |claims[1..]| ==> HandleOf(claims[1..][k]) != HandleOf(claims[0])
  {
    forall k | 0 <= k < |claims[1..]| ensures HandleOf(claims[1..][k]) != HandleOf(claims[0]) {
      assert claims[1..][k] == claims[k + 1];
    }
  }

  lemma BatchBegins(
    config: Config, moments: nat -> Moment, c: nat, claims: seq<ClaimedEvent>, h: Handle, next: nat,
    rest: seq<ClaimedEvent>)
    requires claims != [] && next == AfterClaim(config, moments, c, claims[0]) && rest == claims[1..]
    ensures About(h, BatchSteps(config, moments, c, claims))
            == (if h == HandleOf(claims[0]) then ClaimSteps(config, moments, c, claims[0]) else [])
               + About(h, BatchSteps(config, moments, next, rest))
  {
    ClaimStepsAreAbout(config, moments, c, claims[0], h);
    AboutConcat(h, ClaimSteps(config, moments, c, claims[0]), BatchSteps(config, moments, next, rest));
  }

  lemma {:induction false} NothingAboutOthers(
    config: Config, moments: nat -> Moment, c: nat, claims: seq<ClaimedEvent>, h: Handle)
    requires forall j :: 0 <= j < |claims| ==> HandleOf(claims[j]) != h
    ensures About(h, BatchSteps(config, moments, c, claims)) == []
    decreases |claims|
  {
    if claims != [] {
      var next := AfterClaim(config, moments, c, claims[0]);
      BatchBegins(config, moments, c, claims, h, next, claims[1..]);
      NothingAboutOthers(config, moments, next, claims[1..], h);
    }
  }

  /** What a batch does about each of its claims is the delivery of that claim, from the moment it is reached. */
  lemma {:induction false} EachClaimIsHandled(
    config: Config, moments: nat -> Moment, c: nat, claims: seq<ClaimedEvent>, j: nat)
    requires j < |claims| && DistinctHandles(claims)
    ensures About(HandleOf(claims[j]), BatchSteps(config, moments, c, claims))
            == ClaimSteps(config, moments, Reached(config, moments, c, claims, j), claims[j])
    decreases |claims|
  {
    var h, next, rest := HandleOf(claims[j]), AfterClaim(config, moments, c, claims[0]), claims[1..];
    BatchBegins(config, moments, c, claims, h, next, rest);
    RestIsDistinct(claims);
    if j == 0 {
      NothingAboutOthers(config, moments, next, rest, h);
    } else {
      assert rest[j - 1] == claims[j];
      EachClaimIsHandled(config, moments, next, rest, j - 1);
    }
  }

  // ----- What stopped it -----

  /** Why the plan was left after the steps `own`: the last moment read says so, or the table refuses its next step. */
  ghost predicate Stopped(
    config: Config, last: Moment, claims: seq<ClaimedEvent>, t: Table, own: seq<Label>, plan: seq<Label>,
    error: WorkerError)
  {
    match error
    case Cancelled => last.cancelled
    case TokenUnavailable => last.noToken
    case StoreFault => last.fault != NoFault
    case Rejected(_) => |own| < |plan| && Refuses(t, plan[|own|])
    case InvalidClaim => exists c :: c in claims && c.attempt < 1
    case InvalidDependencies => last.jitter < 0 || last.jitter > config.baseDelay as int
  }

  lemma StoppedLater(
    config: Config, last: Moment, claims: seq<ClaimedEvent>, more: seq<ClaimedEvent>, t: Table, before: seq<Label>,
    own: seq<Label>, plan: seq<Label>, whole: seq<Label>, error: WorkerError)
    requires Stopped(config, last, claims, t, own, plan, error) && own <= plan && before + plan <= whole
    requires forall c :: c in claims ==> c in more
    ensures Stopped(config, last, more, t, before + own, whole, error) && before + own <= whole
  {
    if error.Rejected? {
      assert whole[|before + own|] == (before + plan)[|before| + |own|];
    }
  }

  /** One claim cycle: where and when it began, its token, what it found when it claimed, its claims, all
    * that happened until its end and the worker's own part of it. */
  datatype Cycle = Cycle(
    start: Sys, clock: nat, token: nat, lead: seq<Label>, at: Sys, claims: seq<ClaimedEvent>, trace: seq<Label>,
    own: seq<Label>, end: Sys)

  function ClaimStep(config: Config, moments: nat -> Moment, cy: Cycle): Label {
    var now := moments(cy.clock).now;
    Claim(IdsOf(cy.claims), now, cy.token, now + config.lease as int, config.batchSize as int)
  }

  /** The steps of a whole cycle. */
  function Plan(config: Config, moments: nat -> Moment, cy: Cycle): seq<Label> {
    [ClaimStep(config, moments, cy)] + BatchSteps(config, moments, cy.clock + 2, cy.claims)
  }

  /** Under a new token the worker did nothing but the plan, as far as it came, and claimed what the table it found
    * had for it. */
  ghost predicate Follows(config: Config, max: int, moments: nat -> Moment, cy: Cycle) {
    && cy.token !in cy.start.used
    && Ran(max, cy.token, cy.start, cy.trace, cy.own, cy.end) && cy.own <= Plan(config, moments, cy)
    && Ran(max, cy.token, cy.start, cy.lead, [], cy.at) && cy.lead <= cy.trace
    && (cy.own != [] ==> ClaimsWhatIsDue(config, moments, cy))
  }

  ghost predicate ClaimsWhatIsDue(config: Config, moments: nat -> Moment, cy: Cycle) {
    IsClaimOf(cy.at.table.rows, moments(cy.clock + 1).locked, ClaimStep(config, moments, cy), cy.claims)
  }

  /** It completed the plan by moment `clock`, and of the rows it claimed it owns at most those whose lease it saw
    * run out. */
  ghost predicate Completed(config: Config, max: int, moments: nat -> Moment, cy: Cycle, clock: nat)
    requires ValidConfig(config)
  {
    && Follows(config, max, moments, cy) && cy.own == Plan(config, moments, cy)
    && BatchEnded(config, moments, cy.token, cy.clock + 2, cy.claims, clock, cy.end.table, cy.own[1..], None)
  }

  /** It stopped at an error before moment `clock`. */
  ghost predicate Broken(config: Config, max: int, moments: nat -> Moment, cy: Cycle, clock: nat, error: WorkerError) {
    && Follows(config, max, moments, cy) && clock > 0
    && Stopped(config, moments(clock - 1), cy.claims, cy.end.table, cy.own, Plan(config, moments, cy), error)
  }

  // ----- How a batch proceeds -----

  /** A claim reached at moment c, by moment c'. */
  ghost predicate ClaimHandled(
    config: Config, moments: nat -> Moment, c: nat, claim: ClaimedEvent, c': nat, t: Table, own: seq<Label>,
    error: Option<WorkerError>)
    requires ValidConfig(config)
  {
    && c' > 0 && own <= ClaimSteps(config, moments, c, claim)
    && match error
       case None =>
         && own == ClaimSteps(config, moments, c, claim) && c' == AfterClaim(config, moments, c, claim)
         && (ComesLate(moments, c, claim) || WithinCap(config, moments, c + 1, claim))
         && (Owns(t, claim.id, claim.token) ==>
             ComesLate(moments, c, claim) || FailsLate(config, moments, c + 1, claim))
       case Some(e) => Stopped(config, moments(c' - 1), [claim], t, own, ClaimSteps(config, moments, c, claim), e)
  }

  /** By moment `now` the first i claims of a batch reached at moment c are dealt with. */
  ghost predicate DoneUpTo(
    config: Config, moments: nat -> Moment, token: nat, c: nat, claims: seq<ClaimedEvent>, i: nat, now: nat, t: Table,
    own: seq<Label>)
    requires ValidConfig(config) && i <= |claims|
  {
    && own + BatchSteps(config, moments, now, claims[i..]) == BatchSteps(config, moments, c, claims)
    && AfterBatch(config, moments, now, claims[i..]) == AfterBatch(config, moments, c, claims)
    && (AllWithinCap(config, moments, now, claims[i..]) ==> AllWithinCap(config, moments, c, claims))
    && LateClaims(config, moments, now, claims[i..]) <= LateClaims(config, moments, c, claims)
    && forall j :: 0 <= j < i && Owns(t, claims[j].id, token) ==> claims[j].id in LateClaims(config, moments, c, claims)
  }

  /** A batch reached at moment c, by moment c': all done, and of its rows at most those whose lease was seen
    * to run out are still owned; or stopped. */
  ghost predicate BatchEnded(
    config: Config, moments: nat -> Moment, token: nat, c: nat, claims: seq<ClaimedEvent>, c': nat, t: Table,
    own: seq<Label>, error: Option<WorkerError>)
    requires ValidConfig(config)
  {
    && c' > 0 && own <= BatchSteps(config, moments, c, claims)
    && match error
       case None =>
         && own == BatchSteps(config, moments, c, claims) && c' == AfterBatch(config, moments, c, claims)
         && AllWithinCap(config, moments, c, claims)
         && forall id :: id in IdsOf(claims) && Owns(t, id, token) ==> id in LateClaims(config, moments, c, claims)
       case Some(e) => Stopped(config, moments(c' - 1), claims, t, own, BatchSteps(config, moments, c, claims), e)
  }

  /** One delivery started at moment c, by moment c'. */
  ghost predicate DeliveryEnded(
    config: Config, moments: nat -> Moment, c: nat, claim: ClaimedEvent, c': nat, t: Table, own: seq<Label>,
    error: Option<WorkerError>)
    requires ValidConfig(config)
  {
    && c' > 0 && own <= DeliverySteps(config, moments, c, claim)
    && match error
       case None =>
         && own == DeliverySteps(config, moments, c, claim) && c' == c + DeliveryTime(config, moments, c, claim)
         && WithinCap(config, moments, c, claim)
         && (Owns(t, claim.id, claim.token) ==> FailsLate(config, moments, c, claim))
       case Some(e) => Stopped(config, moments(c' - 1), [claim], t, own, DeliverySteps(config, moments, c, claim), e)
  }

  /** The last steps of a delivery, decided on at moment c. */
  ghost predicate RetryEnded(
    config: Config, moments: nat -> Moment, c: nat, claim: ClaimedEvent, c': nat, t: Table, own: seq<Label>,
    error: Option<WorkerError>)
  {
    var plan := LastSteps(config, moments, c, claim);
    && c' > 0 && own <= plan
    && match error
       case None =>
         && own == plan && !Owns(t, claim.id, claim.token)
         && c' == c + (if claim.attempt == config.maxInvocations as int then 2 else 3)
         && (claim.attempt < config.maxInvocations as int ==> JitterFits(config, moments(c).jitter, claim.attempt))
       case Some(e) => Stopped(config, moments(c' - 1), [claim], t, own, plan, e)
  }

  lemma LateFailureEnds(config: Config, moments: nat -> Moment, c: nat, claim: ClaimedEvent, t: Table)
    requires ValidConfig(config) && FailsLate(config, moments, c, claim)
    ensures DeliveryEnded(config, moments, c, claim, c + 2, t, [Start(HandleOf(claim)), Fail(HandleOf(claim))], None)
  {
  }

  lemma CancelledEnds(config: Config, moments: nat -> Moment, c: nat, claim: ClaimedEvent, t: Table)
    requires ValidConfig(config) && claim.attempt <= config.maxInvocations as int && !moments(c).succeeds
             && moments(c + 1).cancelled
    ensures DeliveryEnded(config, moments, c, claim, c + 2, t, [Start(HandleOf(claim)), Fail(HandleOf(claim))],
                          Some(Cancelled))
  {
  }

  lemma AcknowledgementEnds(
    config: Config, moments: nat -> Moment, c: nat, claim: ClaimedEvent, t: Table, own: seq<Label>,
    error: Option<WorkerError>)
    requires ValidConfig(config) && claim.attempt <= config.maxInvocations as int && moments(c).succeeds
    requires SettlementEnded(moments(c + 2), t, HandleOf(claim), Acknowledge(HandleOf(claim), moments(c + 1).now), own,
                             error)
    ensures DeliveryEnded(config, moments, c, claim, c + 3, t,
                          [Start(HandleOf(claim)), Succeed(HandleOf(claim))] + own, error)
  {
  }

  lemma FailureEnds(
    config: Config, moments: nat -> Moment, c: nat, claim: ClaimedEvent, c': nat, t: Table, own: seq<Label>,
    error: Option<WorkerError>)
    requires ValidConfig(config) && claim.attempt <= config.maxInvocations as int
    requires !moments(c).succeeds && !FailsLate(config, moments, c, claim)
    requires RetryEnded(config, moments, c + 1, claim, c', t, own, error)
    ensures DeliveryEnded(config, moments, c, claim, c', t, [Start(HandleOf(claim)), Fail(HandleOf(claim))] + own,
                          error)
  {
    var called, plan := [Start(HandleOf(claim)), Fail(HandleOf(claim))], LastSteps(config, moments, c + 1, claim);
    assert DeliverySteps(config, moments, c, claim) == called + plan;
    if error.Some? {
      StoppedLater(config, moments(c' - 1), [claim], [claim], t, called, own, plan, called + plan, error.value);
    }
  }

  lemma ExhaustionEnds(
    config: Config, moments: nat -> Moment, c: nat, claim: ClaimedEvent, t: Table, own: seq<Label>,
    error: Option<WorkerError>)
    requires ValidConfig(config) && claim.attempt > config.maxInvocations as int
    requires SettlementEnded(moments(c), t, HandleOf(claim), GiveUp(HandleOf(claim), EXHAUSTED), own, error)
    ensures DeliveryEnded(config, moments, c, claim, c + 1, t, own, error)
  {
  }

  lemma GivingUpEnds(
    config: Config, moments: nat -> Moment, c: nat, claim: ClaimedEvent, t: Table, own: seq<Label>,
    error: Option<WorkerError>)
    requires ValidConfig(config) && claim.attempt == config.maxInvocations as int
    requires SettlementEnded(moments(c + 1), t, HandleOf(claim), GiveUp(HandleOf(claim), EXHAUSTED), own, error)
    ensures RetryEnded(config, moments, c, claim, c + 2, t, own, error)
  {
  }

  lemma RetryingEnds(
    config: Config, moments: nat -> Moment, c: nat, claim: ClaimedEvent, t: Table, own: seq<Label>,
    error: Option<WorkerError>)
    requires ValidConfig(config) && 1 <= claim.attempt < config.maxInvocations as int
    requires JitterFits(config, moments(c).jitter, claim.attempt)
    requires var l := Retry(HandleOf(claim), moments(c + 1).now + moments(c).jitter, FAILED);
             SettlementEnded(moments(c + 2), t, HandleOf(claim), l, own, error)
    ensures RetryEnded(config, moments, c, claim, c + 3, t, own, error)
  {
  }

  lemma NothingDone(config: Config, moments: nat -> Moment, token: nat, c: nat, claims: seq<ClaimedEvent>, t: Table)
    requires ValidConfig(config)
    ensures DoneUpTo(config, moments, token, c, claims, 0, c, t, [])
  {
    assert claims[0..] == claims;
  }

  lemma OneMoreDone(
    config: Config, moments: nat -> Moment, token: nat, c: nat, claims: seq<ClaimedEvent>, i: nat, now: nat, t: Table,
    own: seq<Label>, now': nat, t': Table, steps: seq<Label>)
    requires ValidConfig(config) && i < |claims| && DoneUpTo(config, moments, token, c, claims, i, now, t, own)
    requires claims[i].token == token && OwnsNoMore(token, t, t')
    requires ClaimHandled(config, moments, now, claims[i], now', t', steps, None)
    ensures DoneUpTo(config, moments, token, c, claims, i + 1, now', t', own + steps)
  {
    assert claims[i..][0] == claims[i] && claims[i..][1..] == claims[i + 1..];
    var rest := BatchSteps(config, moments, now', claims[i + 1..]);
    assert own + (steps + rest) == (own + steps) + rest;
  }

  lemma AllDone(
    config: Config, moments: nat -> Moment, token: nat, c: nat, claims: seq<ClaimedEvent>, now: nat, t: Table,
    own: seq<Label>)
    requires ValidConfig(config) && DoneUpTo(config, moments, token, c, claims, |claims|, now, t, own) && now > 0
    ensures BatchEnded(config, moments, token, c, claims, now, t, own, None)
  {
    assert claims[|claims|..] == [];
    assert own + [] == own;
  }

  lemma StoppedInBatch(
    config: Config, moments: nat -> Moment, token: nat, c: nat, claims: seq<ClaimedEvent>, i: nat, now: nat, t: Table,
    own: seq<Label>, now': nat, t': Table, next: seq<Label>, error: WorkerError)
    requires ValidConfig(config) && i < |claims| && DoneUpTo(config, moments, token, c, claims, i, now, t, own)
    requires ClaimHandled(config, moments, now, claims[i], now', t', next, Some(error))
    ensures BatchEnded(config, moments, token, c, claims, now', t', own + next, Some(error))
  {
    var steps, whole := ClaimSteps(config, moments, now, claims[i]), BatchSteps(config, moments, c, claims);
    NextInBatch(config, moments, token, c, claims, i, now, t, own);
    StoppedLater(config, moments(now' - 1), [claims[i]], claims, t', own, next, steps, whole, error);
  }

  lemma NextInBatch(
    config: Config, moments: nat -> Moment, token: nat, c: nat, claims: seq<ClaimedEvent>, i: nat, now: nat, t: Table,
    own: seq<Label>)
    requires ValidConfig(config) && i < |claims| && DoneUpTo(config, moments, token, c, claims, i, now, t, own)
    ensures own + ClaimSteps(config, moments, now, claims[i]) <= BatchSteps(config, moments, c, claims)
  {
    var steps := ClaimSteps(config, moments, now, claims[i]);
    var rest := RestOfBatch(config, moments, claims, i, now);
    assert own + (steps + rest) == (own + steps) + rest;
  }

  lemma RestOfBatch(config: Config, moments: nat -> Moment, claims: seq<ClaimedEvent>, i: nat, now: nat)
    returns (rest: seq<Label>)
    requires i < |claims|
    ensures BatchSteps(config, moments, now, claims[i..]) == ClaimSteps(config, moments, now, claims[i]) + rest
  {
    assert claims[i..][0] == claims[i] && claims[i..][1..] == claims[i + 1..];
    rest := BatchSteps(config, moments, AfterClaim(config, moments, now, claims[i]), claims[i + 1..]);
  }

  lemma StillHeld(s: Sys, s': Sys, token: nat, claims: seq<ClaimedEvent>, i: nat)
    requires i < |claims| && AllHeld(s, token, claims, i) && KeepsOtherHands(HandleOf(claims[i]), s.hands, s'.hands)
    ensures AllHeld(s', token, claims, i + 1)
  {
  }

  // ----- How cycles follow each other -----

  /** A completed cycle and what the others did during the wait after it. */
  datatype Turn = Turn(cycle: Cycle, wait: seq<Label>)

  /** From state s0 at moment c0 the completed turns lead to state s at moment c; while waiting the worker does
    * nothing. */
  ghost predicate Cycled(
    config: Config, max: int, moments: nat -> Moment, s0: Sys, c0: nat, done: seq<Turn>, s: Sys, c: nat)
    requires ValidConfig(config)
    decreases |done|
  {
    if done == [] then s == s0 && c == c0
    else
      var last := done[|done| - 1];
      && c > 0 && Completed(config, max, moments, last.cycle, c - 1) && Ran(max, 0, last.cycle.end, last.wait, [], s)
      && Cycled(config, max, moments, s0, c0, done[..|done| - 1], last.cycle.start, last.cycle.clock)
  }

  lemma OneMoreTurn(
    config: Config, max: int, moments: nat -> Moment, s0: Sys, c0: nat, done: seq<Turn>, cy: Cycle, c: nat,
    wait: seq<Label>, s: Sys)
    requires ValidConfig(config) && Cycled(config, max, moments, s0, c0, done, cy.start, cy.clock)
    requires Completed(config, max, moments, cy, c) && Ran(max, 0, cy.end, wait, [], s)
    ensures Cycled(config, max, moments, s0, c0, done + [Turn(cy, wait)], s, c + 1)
  {
    assert (done + [Turn(cy, wait)])[..|done|] == done;
  }

  lemma RanKeepsGood(max: int, token: nat, s: Sys, trace: seq<Label>, own: seq<Label>, s': Sys)
    requires Ran(max, token, s, trace, own, s')
    ensures Good(max, s) ==> Good(max, s')
  {
    RanIsRun(max, token, s, trace, own, s');
    if Good(max, s) {
      RunsKeepGood(max, s, trace);
    }
  }

  // ----- How a cycle proceeds -----

  lemma RanClaim(max: int, token: nat, start: Sys, lead: seq<Label>, at: Sys, l: Label, s: Sys)
    requires Ran(max, token, start, lead, [], at)
    requires s == at || (Allowed(max, at, l) && !Foreign(token, l) && s == Do(max, at, l))
    ensures var own := if s == at then [] else [l]; Ran(max, token, start, lead + own, own, s)
  {
    if s == at {
      assert lead + [] == lead;
    } else {
      RanThenOne(max, token, start, lead, [], at, l);
      assert [] + [l] == [l];
    }
  }

  lemma StartsPlan(l: Label, rest: seq<Label>)
    ensures [] <= [l] + rest && [l] <= [l] + rest
  {
  }

  lemma ClaimIsDue(config: Config, moments: nat -> Moment, cy: Cycle, rows: map<nat, Row>, locked: set<nat>, l: Label)
    requires rows == cy.at.table.rows && locked == moments(cy.clock + 1).locked && l == ClaimStep(config, moments, cy)
    requires IsClaimOf(rows, locked, l, cy.claims)
    ensures ClaimsWhatIsDue(config, moments, cy)
  {
  }

  lemma AfterClaiming(
    config: Config, max: int, moments: nat -> Moment, start: Sys, c: nat, token: nat, lead: seq<Label>, at: Sys,
    batch: seq<ClaimedEvent>, l: Label, s: Sys, claims: Result<seq<ClaimedEvent>, WorkerError>)
    returns (cy: Cycle)
    requires var now := moments(c).now;
             l == Claim(IdsOf(batch), now, token, now + config.lease as int, config.batchSize as int)
    requires Ran(max, token, start, lead, [], at) && token !in start.used
    requires ClaimEnded(max, moments(c + 1), at, l, batch, s, claims)
    ensures cy.start == start && cy.clock == c && cy.token == token && cy.claims == batch && cy.end == s
    ensures Follows(config, max, moments, cy) && ClaimStep(config, moments, cy) == l
    ensures cy.own == if s == at then [] else [l]
  {
    var own := if s == at then [] else [l];
    cy := Cycle(start, c, token, lead, at, batch, lead + own, own, s);
    RanClaim(max, token, start, lead, at, l, s);
    StartsPlan(l, BatchSteps(config, moments, c + 2, batch));
    if s != at {
      ClaimIsDue(config, moments, cy, at.table.rows, moments(c + 1).locked, l);
    }
  }

  lemma NothingClaimed(
    config: Config, max: int, moments: nat -> Moment, start: Sys, c: nat, token: nat, lead: seq<Label>, s: Sys,
    error: WorkerError)
    returns (cy: Cycle)
    requires Ran(max, token, start, lead, [], s) && token !in start.used
    requires (error == Cancelled && moments(c).cancelled) || (error == TokenUnavailable && moments(c).noToken)
    ensures cy.start == start && cy.clock == c && cy.end == s && Broken(config, max, moments, cy, c + 1, error)
  {
    cy := Cycle(start, c, token, lead, s, [], lead, [], s);
  }

  lemma ClaimBroken(
    config: Config, max: int, moments: nat -> Moment, cy: Cycle, at: Sys, l: Label, batch: seq<ClaimedEvent>, s: Sys,
    asked: nat, claims: Result<seq<ClaimedEvent>, WorkerError>)
    requires Follows(config, max, moments, cy) && l.Claim? && l == ClaimStep(config, moments, cy) && s == cy.end
    requires cy.claims == batch && cy.own == if s == at then [] else [l]
    requires ClaimEnded(max, moments(asked), at, l, batch, s, claims) && claims.Failure?
    ensures Broken(config, max, moments, cy, asked + 1, claims.error)
  {
    assert Plan(config, moments, cy)[0] == l;
  }

  lemma DueLater(config: Config, moments: nat -> Moment, cy: Cycle, cy': Cycle)
    requires ClaimsWhatIsDue(config, moments, cy) && cy' == cy.(trace := cy'.trace, own := cy'.own, end := cy'.end)
    ensures ClaimsWhatIsDue(config, moments, cy')
  {
  }

  lemma FollowsLater(
    config: Config, max: int, moments: nat -> Moment, cy: Cycle, next: seq<Label>, own: seq<Label>, s: Sys)
    requires Follows(config, max, moments, cy) && cy.own != []
    requires Ran(max, cy.token, cy.end, next, own, s) && cy.own + own <= Plan(config, moments, cy)
    ensures Follows(config, max, moments, cy.(trace := cy.trace + next, own := cy.own + own, end := s))
  {
    RanThen(max, cy.token, cy.start, cy.trace, cy.own, cy.end, next, own, s, cy.own + own);
    var cy' := cy.(trace := cy.trace + next, own := cy.own + own, end := s);
    DueLater(config, moments, cy, cy');
  }

  lemma AfterDelivering(
    config: Config, max: int, moments: nat -> Moment, cy: Cycle, token: nat, c: nat, claims: seq<ClaimedEvent>,
    s1: Sys, clock: nat, next: seq<Label>, own: seq<Label>, s: Sys, error: Option<WorkerError>)
    returns (cy': Cycle)
    requires ValidConfig(config) && token == cy.token && c == cy.clock + 2 && claims == cy.claims && s1 == cy.end
    requires Follows(config, max, moments, cy) && cy.own == [ClaimStep(config, moments, cy)]
    requires Ran(max, token, s1, next, own, s)
    requires BatchEnded(config, moments, token, c, claims, clock, s.table, own, error)
    ensures cy'.start == cy.start && cy'.clock == cy.clock && cy'.end == s
    ensures error.None? ==> Completed(config, max, moments, cy', clock)
    ensures error.Some? ==> Broken(config, max, moments, cy', clock, error.value)
  {
    assert cy.own + own <= Plan(config, moments, cy);
    FollowsLater(config, max, moments, cy, next, own, s);
    cy' := cy.(trace := cy.trace + next, own := cy.own + own, end := s);
    CycleEnds(config, max, moments, cy', cy.own[0], token, c, claims, clock, own, s.table, error);
  }

  lemma CycleEnds(
    config: Config, max: int, moments: nat -> Moment, cy: Cycle, l: Label, token: nat, c: nat,
    claims: seq<ClaimedEvent>, clock: nat, own: seq<Label>, t: Table, error: Option<WorkerError>)
    requires ValidConfig(config) && token == cy.token && c == cy.clock + 2 && claims == cy.claims && t == cy.end.table
    requires Follows(config, max, moments, cy) && l == ClaimStep(config, moments, cy) && cy.own == [l] + own
    requires BatchEnded(config, moments, token, c, claims, clock, t, own, error)
    ensures error.None? ==> Completed(config, max, moments, cy, clock)
    ensures error.Some? ==> Broken(config, max, moments, cy, clock, error.value)
  {
    assert cy.own[1..] == own;
    if error.Some? {
      StoppedLater(config, moments(clock - 1), claims, claims, t, [l], own, BatchSteps(config, moments, c, claims),
                   Plan(config, moments, cy), error.value);
    }
  }

  class Worker {
    const config: Config
    const world: World

    ghost predicate Valid() {
      ValidConfig(config) && world.max == config.maxInvocations as int
    }

    constructor (config: Config, world: World)
      requires ValidConfig(config) && world.max == config.maxInvocations as int
      ensures Valid() && this.config == config && this.world == world
    {
      this.config, this.world := config, world;
    }

    /** Delivers one claim: at most one call of the publisher, then at most one settling statement. */
    method Deliver(claim: ClaimedEvent)
      returns (error: Option<WorkerError>, ghost trace: seq<Label>, ghost own: seq<Label>)
      requires Valid() && InPhase(world.View(), HandleOf(claim), Held)
      requires world.hands[HandleOf(claim)].attempt == claim.attempt
      modifies world, world.store
      ensures Ran(world.max, claim.token, old(world.View()), trace, own, world.View())
              && world.clock >= old(world.clock)
      ensures KeepsOtherHands(HandleOf(claim), old(world.hands), world.hands)
      ensures OwnsNoMore(claim.token, old(world.View()).table, world.View().table)
      ensures old(world.clock) > 0 ==>
                DeliveryEnded(config, world.moments, old(world.clock), claim, world.clock, world.View().table, own,
                              error)
    {
      ghost var c := world.clock;
      trace, own := [], [];
      if claim.attempt < 1 {
        assert claim in [claim];
        return Some(InvalidClaim), trace, own;
      }
      CodesAreValid();
      if claim.attempt > config.maxInvocations as int {
        error, trace, own := world.Settle(HandleOf(claim), GiveUp(HandleOf(claim), EXHAUSTED));
        ExhaustionEnds(config, world.moments, c, claim, world.View().table, own, error);
        return;
      }
      error, trace, own := CallAndSettle(claim);
    }

    /** The claim has attempts left. */
    method CallAndSettle(claim: ClaimedEvent)
      returns (error: Option<WorkerError>, ghost trace: seq<Label>, ghost own: seq<Label>)
      requires Valid() && InPhase(world.View(), HandleOf(claim), Held)
      requires world.hands[HandleOf(claim)].attempt == claim.attempt
               && 1 <= claim.attempt <= config.maxInvocations as int
      modifies world, world.store
      ensures Ran(world.max, claim.token, old(world.View()), trace, own, world.View())
              && world.clock >= old(world.clock)
      ensures KeepsOtherHands(HandleOf(claim), old(world.hands), world.hands)
      ensures OwnsNoMore(claim.token, old(world.View()).table, world.View().table)
      ensures DeliveryEnded(config, world.moments, old(world.clock), claim, world.clock, world.View().table, own, error)
    {
      ghost var c, h := world.clock, HandleOf(claim);
      var m: Moment;
      var delivered: bool;
      ghost var during: seq<Label>, next: seq<Label>, last: seq<Label>;
      delivered, during := world.Publish(HandleOf(claim));
      ghost var called := world.View();
      m, next := world.Tick(claim.token);
      own := [Start(h), if delivered then Succeed(h) else Fail(h)];
      RanThen(world.max, claim.token, old(world.View()), during, own, called, next, [], world.View(), own);
      trace := during + next;
      ghost var read := world.View();
      if delivered {
        error, next, last := world.Settle(HandleOf(claim), Acknowledge(HandleOf(claim), m.now));
        AcknowledgementEnds(config, world.moments, c, claim, world.View().table, last, error);
      } else if m.cancelled {
        CancelledEnds(config, world.moments, c, claim, world.View().table);
        return Some(Cancelled), trace, own;
      } else if m.now >= claim.leaseExpiresAt {
        LateFailureEnds(config, world.moments, c, claim, world.View().table);
        return None, trace, own;
      } else {
        error, next, last := GiveUpOrRetry(claim, m.jitter);
        FailureEnds(config, world.moments, c, claim, world.clock, world.View().table, last, error);
      }
      RanThen(world.max, claim.token, old(world.View()), trace, own, read, next, last, world.View(), own + last);
      trace, own := trace + next, own + last;
    }

    /** After a failed call whose lease still runs. */
    method GiveUpOrRetry(claim: ClaimedEvent, jitter: int)
      returns (error: Option<WorkerError>, ghost trace: seq<Label>, ghost own: seq<Label>)
      requires Valid() && InPhase(world.View(), HandleOf(claim), Missed)
      requires world.hands[HandleOf(claim)].attempt == claim.attempt
               && 1 <= claim.attempt <= config.maxInvocations as int
      requires world.clock > 0 && jitter == world.moments(world.clock - 1).jitter
      modifies world, world.store
      ensures Ran(world.max, claim.token, old(world.View()), trace, own, world.View())
              && world.clock >= old(world.clock)
      ensures KeepsOtherHands(HandleOf(claim), old(world.hands), world.hands)
      ensures OwnsNoMore(claim.token, old(world.View()).table, world.View().table)
      ensures RetryEnded(config, world.moments, old(world.clock) - 1, claim, world.clock, world.View().table, own,
                         error)
    {
      ghost var c := world.clock - 1;
      trace, own := [], [];
      CodesAreValid();
      if claim.attempt == config.maxInvocations as int {
        error, trace, own := world.Settle(HandleOf(claim), GiveUp(HandleOf(claim), EXHAUSTED));
        GivingUpEnds(config, world.moments, c, claim, world.View().table, own, error);
        return;
      }
      var cap := Compute(config.baseDelay, config.maxDelay, claim.attempt as int32);
      if jitter < 0 || jitter > cap as int {
        CapIsMonotone(config.baseDelay as int, config.maxDelay as int, claim.attempt, claim.attempt);
        return Some(InvalidDependencies), trace, own;
      }
      error, trace, own := RetryLater(claim, jitter);
      RetryingEnds(config, world.moments, c, claim, world.View().table, own, error);
    }

    /** Gives the event back, due after the delay drawn. */
    method RetryLater(claim: ClaimedEvent, jitter: int)
      returns (error: Option<WorkerError>, ghost trace: seq<Label>, ghost own: seq<Label>)
      requires Valid() && InPhase(world.View(), HandleOf(claim), Missed)
      requires world.hands[HandleOf(claim)].attempt == claim.attempt && claim.attempt < config.maxInvocations as int
      modifies world, world.store
      ensures Ran(world.max, claim.token, old(world.View()), trace, own, world.View())
              && world.clock == old(world.clock) + 2
      ensures KeepsOtherHands(HandleOf(claim), old(world.hands), world.hands)
      ensures OwnsNoMore(claim.token, old(world.View()).table, world.View().table)
      ensures SettlementEnded(world.moments(old(world.clock) + 1), world.View().table, HandleOf(claim),
                              Retry(HandleOf(claim), world.moments(old(world.clock)).now + jitter, FAILED), own, error)
    {
      var m: Moment;
      ghost var next: seq<Label>;
      m, trace := world.Tick(claim.token);
      ghost var read := world.View();
      CodesAreValid();
      error, next, own := world.Settle(HandleOf(claim), Retry(HandleOf(claim), m.now + jitter, FAILED));
      RanThen(world.max, claim.token, old(world.View()), trace, [], read, next, own, world.View(), own);
      trace := trace + next;
    }

    /** One claim cycle, whatever the others do meanwhile: the plan to its end, or to an error that is explained. */
    method RunOnce() returns (error: Option<WorkerError>, ghost cy: Cycle)
      requires Valid()
      modifies world, world.store
      ensures cy.start == old(world.View()) && cy.clock == old(world.clock) && cy.end == world.View()
      ensures error.None? ==> Completed(config, world.max, world.moments, cy, world.clock)
      ensures error.Some? ==> Broken(config, world.max, world.moments, cy, world.clock, error.value)
    {
      ghost var s, c := world.View(), world.clock;
      var token := world.ClaimToken();
      var m: Moment;
      ghost var lead: seq<Label>;
      m, lead := world.Tick(token);
      ghost var ticked, asked := world.View(), world.clock;
      if m.cancelled {
        cy := NothingClaimed(config, world.max, world.moments, s, c, token, lead, ticked, Cancelled);
        return Some(Cancelled), cy;
      }
      if m.noToken {
        cy := NothingClaimed(config, world.max, world.moments, s, c, token, lead, ticked, TokenUnavailable);
        return Some(TokenUnavailable), cy;
      }
      var claims;
      ghost var at, more, batch;
      claims, batch, at, more := world.ClaimDue(m.now, token, m.now + config.lease as int, config.batchSize as int);
      RanThen(world.max, token, s, lead, [], ticked, more, [], at, []);
      ghost var l := Claim(IdsOf(batch), m.now, token, m.now + config.lease as int, config.batchSize as int);
      cy := AfterClaiming(config, world.max, world.moments, s, c, token, lead + more, at, batch, l, world.View(),
                          claims);
      if claims.Failure? {
        ClaimBroken(config, world.max, world.moments, cy, at, l, batch, world.View(), asked, claims);
        return Some(claims.error), cy;
      }
      error, cy := FinishCycle(token, claims.value, cy);
    }

    /** The rest of a cycle whose claim has succeeded. */
    method FinishCycle(token: nat, claims: seq<ClaimedEvent>, ghost claimed: Cycle)
      returns (error: Option<WorkerError>, ghost cy: Cycle)
      requires Valid() && AllHeld(world.View(), token, claims, 0)
      requires Follows(config, world.max, world.moments, claimed) && claimed.token == token && claimed.claims == claims
      requires claimed.own == [ClaimStep(config, world.moments, claimed)] && claimed.end == world.View()
      requires world.clock == claimed.clock + 2
      modifies world, world.store
      ensures cy.start == claimed.start && cy.clock == claimed.clock && cy.end == world.View()
      ensures error.None? ==> Completed(config, world.max, world.moments, cy, world.clock)
      ensures error.Some? ==> Broken(config, world.max, world.moments, cy, world.clock, error.value)
    {
      ghost var s1, reached := world.View(), world.clock;
      ghost var next, own;
      error, next, own := DeliverAll(token, claims);
      cy := AfterDelivering(config, world.max, world.moments, claimed, token, reached, claims, s1, world.clock, next,
                            own, world.View(), error);
    }

    /** The claims one after the other. */
    method DeliverAll(token: nat, claims: seq<ClaimedEvent>)
      returns (error: Option<WorkerError>, ghost trace: seq<Label>, ghost own: seq<Label>)
      requires Valid() && AllHeld(world.View(), token, claims, 0) && world.clock > 0
      modifies world, world.store
      ensures Ran(world.max, token, old(world.View()), trace, own, world.View())
      ensures BatchEnded(config, world.moments, token, old(world.clock), claims, world.clock, world.View().table, own,
                         error)
    {
      ghost var c := world.clock;
      error, trace, own := None, [], [];
      NothingDone(config, world.moments, token, c, claims, world.View().table);
      for i := 0 to |claims|
        invariant AllHeld(world.View(), token, claims, i) && world.clock > 0 && error.None?
        invariant Ran(world.max, token, old(world.View()), trace, own, world.View())
        invariant DoneUpTo(config, world.moments, token, c, claims, i, world.clock, world.View().table, own)
      {
        ghost var s, clock := world.View(), world.clock;
        ghost var next, steps;
        error, next, steps := Handle(claims[i]);
        RanThen(world.max, token, old(world.View()), trace, own, s, next, steps, world.View(), own + steps);
        if error.Some? {
          StoppedInBatch(config, world.moments, token, c, claims, i, clock, s.table, own,
                         world.clock, world.View().table, steps, error.value);
          return error, trace + next, own + steps;
        }
        OneMoreDone(config, world.moments, token, c, claims, i, clock, s.table, own,
                    world.clock, world.View().table, steps);
        StillHeld(s, world.View(), token, claims, i);
        trace, own := trace + next, own + steps;
      }
      AllDone(config, world.moments, token, c, claims, world.clock, world.View().table, own);
    }

    /** One claim of a batch: passed over if its lease has run out. */
    method Handle(claim: ClaimedEvent)
      returns (error: Option<WorkerError>, ghost trace: seq<Label>, ghost own: seq<Label>)
      requires Valid() && InPhase(world.View(), HandleOf(claim), Held)
      requires world.hands[HandleOf(claim)].attempt == claim.attempt
      modifies world, world.store
      ensures Ran(world.max, claim.token, old(world.View()), trace, own, world.View())
      ensures KeepsOtherHands(HandleOf(claim), old(world.hands), world.hands)
      ensures OwnsNoMore(claim.token, old(world.View()).table, world.View().table)
      ensures ClaimHandled(config, world.moments, old(world.clock), claim, world.clock, world.View().table, own, error)
    {
      var m;
      m, trace := world.Tick(claim.token);
      own := [];
      if m.cancelled {
        return Some(Cancelled), trace, own;
      }
      error := None;
      if m.now < claim.leaseExpiresAt {
        ghost var s, next := world.View(), [];
        error, next, own := Deliver(claim);
        RanThen(world.max, claim.token, old(world.View()), trace, [], s, next, own, world.View(), own);
        trace := trace + next;
      }
    }

    /** Cycles with a wait after each, until an error; `cycles` bounds how long the process lives. */
    method Run(cycles: nat) returns (error: Option<WorkerError>, ghost done: seq<Turn>, ghost broken: Option<Cycle>)
      requires Valid()
      modifies world, world.store
      ensures Good(world.max, old(world.View())) ==> Good(world.max, world.View())
      ensures broken.None? ==>
                && Cycled(config, world.max, world.moments, old(world.View()), old(world.clock), done, world.View(),
                          world.clock)
                && (error == None || (error == Some(Cancelled) && done != []
                                      && world.moments(world.clock - 1).cancelled))
      ensures broken.Some? ==>
                && Cycled(config, world.max, world.moments, old(world.View()), old(world.clock), done,
                          broken.value.start, broken.value.clock)
                && broken.value.end == world.View() && error.Some?
                && Broken(config, world.max, world.moments, broken.value, world.clock, error.value)
      ensures error.None? ==> |done| == cycles
    {
      ghost var s0, c0 := world.View(), world.clock;
      error, done, broken := None, [], None;
      for i := 0 to cycles
        invariant error.None? && broken.None? && |done| == i
        invariant Cycled(config, world.max, world.moments, s0, c0, done, world.View(), world.clock)
        invariant Good(world.max, s0) ==> Good(world.max, world.View())
      {
        var m: Moment;
        ghost var cy, wait;
        error, cy := RunOnce();
        RanKeepsGood(world.max, cy.token, cy.start, cy.trace, cy.own, cy.end);
        if error.Some? {
          broken := Some(cy);
          return;
        }
        ghost var c := world.clock;
        m, wait := world.Tick(0);
        RanKeepsGood(world.max, 0, cy.end, wait, [], world.View());
        OneMoreTurn(config, world.max, world.moments, s0, c0, done, cy, c, wait, world.View());
        done := done + [Turn(cy, wait)];
        if m.cancelled {
          return Some(Cancelled), done, broken;
        }
      }
    }
  }
}
