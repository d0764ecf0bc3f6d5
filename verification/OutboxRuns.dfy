/** Any number of delivery workers over one outbox table, with crashes and expiring leases.
  *
  * A label is one durable statement or one step of a worker that holds a claim; a label whose guard
  * does not hold is a no-op, so every sequence of labels is a run. Clocks are arbitrary: every label
  * carries its own reading. The history records each call of the publisher and each claim that was
  * settled in the table.
  */
module OutboxRuns {
  import opened Wrappers
  import opened Outbox

  datatype Handle = Handle(event: nat, token: nat)

  datatype Phase = Held | Calling | Delivered | Missed

  datatype Hand = Hand(attempt: int, leaseExpiresAt: Instant, phase: Phase)

  datatype Entry =
    | Started(h: Handle, attempt: int)
    | Succeeded(h: Handle)
    | Failed(h: Handle)
    | Settled(h: Handle)

  /** The table, the claims workers still hold, what happened so far and the tokens ever drawn. */
  datatype Sys = Sys(table: Table, hands: map<Handle, Hand>, history: seq<Entry>, used: set<nat>)

  datatype Label =
    | Append(id: nat, stream: nat, occurredAt: Instant, nextAttemptAt: Instant)
    | Claim(ids: set<nat>, asOf: Instant, token: nat, lease: Instant, limit: int)
    | Drop(h: Handle)
    | Start(h: Handle)
    | Succeed(h: Handle)
    | Fail(h: Handle)
    | Acknowledge(h: Handle, at: Instant)
    | Retry(h: Handle, nextAttemptAt: Instant, code: string)
    | GiveUp(h: Handle, code: string)

  predicate InPhase(s: Sys, h: Handle, phase: Phase) {
    h in s.hands && s.hands[h].phase == phase
  }

  predicate Allowed(max: int, s: Sys, l: Label) {
    match l
    case Append(id, _, _, _) => id != 0 && id !in s.table.rows
    case Claim(ids, asOf, token, lease, limit) =>
      && token !in s.used && ValidClaim(asOf, token, lease, limit) && |ids| <= limit
      && forall id :: id in ids ==> Claimable(s.table.rows, id, asOf) && s.table.rows[id].attempts < MAX_INT32
    case Drop(h) => h in s.hands
    case Start(h) => InPhase(s, h, Held) && s.hands[h].attempt <= max
    case Succeed(h) => InPhase(s, h, Calling)
    case Fail(h) => InPhase(s, h, Calling)
    case Acknowledge(h, _) => InPhase(s, h, Delivered)
    case Retry(h, _, code) => InPhase(s, h, Missed) && s.hands[h].attempt < max && ValidFailureCode(code)
    case GiveUp(h, code) =>
      && ((InPhase(s, h, Held) && s.hands[h].attempt > max) || (InPhase(s, h, Missed) && s.hands[h].attempt == max))
      && ValidFailureCode(code)
  }

  function Move(s: Sys, h: Handle, phase: Phase, entry: Entry): Sys
    requires h in s.hands
  {
    s.(hands := s.hands[h := s.hands[h].(phase := phase)], history := s.history + [entry])
  }

  function LetGo(s: Sys, h: Handle): Sys {
    s.(hands := s.hands - {h})
  }

  /** The claim's last statement: it changes the row or finds the claim already lost. */
  function Settle(s: Sys, h: Handle, table: Table): Sys {
    LetGo(s, h).(table := table, history := if table == s.table then s.history else s.history + [Settled(h)])
  }

  function HandsOf(rows: map<nat, Row>, ids: set<nat>, token: nat, lease: Instant): map<Handle, Hand>
    requires forall id :: id in ids ==> id in rows
  {
    map id | id in ids :: Handle(id, token) := Hand(rows[id].attempts + 1, lease, Held)
  }

  function Do(max: int, s: Sys, l: Label): Sys {
    if !Allowed(max, s, l) then s
    else match l
      case Append(id, stream, occurredAt, nextAttemptAt) =>
        s.(table := Appended(s.table, id, stream, occurredAt, nextAttemptAt))
      case Claim(ids, asOf, token, lease, _) =>
        s.(table := Claimed(s.table, ids, asOf, token, lease),
           hands := s.hands + HandsOf(s.table.rows, ids, token, lease),
           used := s.used + {token})
      case Drop(h) => LetGo(s, h)
      case Start(h) => Move(s, h, Calling, Started(h, s.hands[h].attempt))
      case Succeed(h) => Move(s, h, Delivered, Succeeded(h))
      case Fail(h) => Move(s, h, Missed, Failed(h))
      case Acknowledge(h, at) => Settle(s, h, MarkedPublished(s.table, h.event, h.token, at))
      case Retry(h, nextAttemptAt, code) => Settle(s, h, Rescheduled(s.table, h.event, h.token, nextAttemptAt, code))
      case GiveUp(h, code) => Settle(s, h, MarkedDeadLetter(s.table, h.event, h.token, code))
  }

  function DoAll(max: int, s: Sys, labels: seq<Label>): Sys
    decreases |labels|
  {
    if labels == [] then s else DoAll(max, Do(max, s, labels[0]), labels[1..])
  }

  lemma {:induction false} DoAllConcat(max: int, s: Sys, a: seq<Label>, b: seq<Label>)
    ensures DoAll(max, s, a + b) == DoAll(max, DoAll(max, s, a), b)
    decreases |a|
  {
    if a == [] {
      assert a + b == b;
    } else {
      assert (a + b)[0] == a[0] && (a + b)[1..] == a[1..] + b;
      DoAllConcat(max, Do(max, s, a[0]), a[1..], b);
    }
  }

  const EMPTY: Sys := Sys(Table(map[], map[]), map[], [], {})

  // ----- The invariant -----

  predicate At(rows: map<nat, Row>, stream: nat, position: int) {
    exists id :: id in rows && rows[id].stream == stream && rows[id].position == position
  }

  ghost predicate Positions(t: Table) {
    && (forall stream :: stream in t.next ==> t.next[stream] >= 1)
    && (forall id :: id in t.rows ==> 1 <= t.rows[id].position < NextPosition(t.next, t.rows[id].stream))
    && (forall id, j ::
          id in t.rows && j in t.rows && t.rows[id].stream == t.rows[j].stream
          && t.rows[id].position == t.rows[j].position
          ==> id == j)
    && (forall stream, k :: 1 <= k < NextPosition(t.next, stream) ==> At(t.rows, stream, k))
  }

  /** A row a worker has ever claimed. */
  predicate Touched(row: Row) {
    row.attempts > 0 || !row.state.Pending?
  }

  ghost predicate Ordered(rows: map<nat, Row>) {
    forall id, p :: id in rows && p in rows && Precedes(rows[p], rows[id]) && Touched(rows[id]) ==>
      rows[p].state.Published?
  }

  ghost predicate Counted(max: int, rows: map<nat, Row>, used: set<nat>) {
    forall id :: id in rows ==>
      && rows[id].attempts >= 0
      && (!rows[id].state.Pending? ==> rows[id].attempts >= 1)
      && (rows[id].state.DeadLetter? ==> rows[id].attempts >= max)
      && (rows[id].state.Processing? ==> rows[id].state.token in used)
  }

  ghost predicate HandsOk(rows: map<nat, Row>, hands: map<Handle, Hand>, used: set<nat>) {
    forall h :: h in hands ==> h.event in rows && 1 <= hands[h].attempt <= rows[h.event].attempts && h.token in used
  }

  ghost predicate HandsDistinct(hands: map<Handle, Hand>) {
    forall h, g :: h in hands && g in hands && h.event == g.event && h != g ==> hands[h].attempt != hands[g].attempt
  }

  ghost predicate SucceededBefore(history: seq<Entry>, n: int, event: nat) {
    exists i :: 0 <= i < n && i < |history| && history[i].Succeeded? && history[i].h.event == event
  }

  ghost predicate StartOk(max: int, rows: map<nat, Row>, history: seq<Entry>, i: nat)
    requires i < |history| && history[i].Started?
  {
    var e := history[i].h.event;
    && e in rows && 1 <= history[i].attempt <= max && history[i].attempt <= rows[e].attempts
    && forall p :: p in rows && Precedes(rows[p], rows[e]) ==> SucceededBefore(history, i, p)
  }

  ghost predicate StartsOk(max: int, rows: map<nat, Row>, history: seq<Entry>) {
    forall i :: 0 <= i < |history| && history[i].Started? ==> StartOk(max, rows, history, i)
  }

  ghost predicate StartsDistinct(history: seq<Entry>) {
    forall i, j :: 0 <= i < j < |history| && history[i].Started? && history[j].Started?
      && history[i].h.event == history[j].h.event
      ==> history[i].attempt != history[j].attempt
  }

  ghost predicate HeldNotStarted(hands: map<Handle, Hand>, history: seq<Entry>) {
    forall h, i :: h in hands && hands[h].phase.Held? && 0 <= i < |history| && history[i].Started?
      && history[i].h.event == h.event
      ==> history[i].attempt != hands[h].attempt
  }

  ghost predicate PublishedOk(rows: map<nat, Row>, hands: map<Handle, Hand>, history: seq<Entry>) {
    && (forall id :: id in rows && rows[id].state.Published? ==> SucceededBefore(history, |history|, id))
    && (forall h :: h in hands && hands[h].phase.Delivered? ==> SucceededBefore(history, |history|, h.event))
  }

  ghost predicate SettledOk(rows: map<nat, Row>, history: seq<Entry>, used: set<nat>) {
    forall i :: 0 <= i < |history| && history[i].Settled? ==>
      && history[i].h.token in used
      && forall id :: id in rows && rows[id].state.Processing? ==> history[i].h != Handle(id, rows[id].state.token)
  }

  ghost predicate SettledOnce(history: seq<Entry>) {
    forall i, j :: 0 <= i < j < |history| && history[i].Settled? && history[j].Settled? ==> history[i].h != history[j].h
  }

  ghost predicate TableOk(max: int, t: Table, used: set<nat>) {
    Positions(t) && Ordered(t.rows) && Counted(max, t.rows, used)
  }

  ghost predicate CallsOk(max: int, s: Sys) {
    && HandsOk(s.table.rows, s.hands, s.used) && HandsDistinct(s.hands)
    && StartsOk(max, s.table.rows, s.history) && StartsDistinct(s.history) && HeldNotStarted(s.hands, s.history)
  }

  ghost predicate OutcomesOk(s: Sys) {
    PublishedOk(s.table.rows, s.hands, s.history) && SettledOk(s.table.rows, s.history, s.used)
      && SettledOnce(s.history)
  }

  ghost predicate Good(max: int, s: Sys) {
    TableOk(max, s.table, s.used) && CallsOk(max, s) && OutcomesOk(s)
  }

  lemma EmptyIsGood(max: int)
    ensures Good(max, EMPTY)
  {
  }

  // ----- Rows only move forward -----

  ghost predicate Evolves(rows: map<nat, Row>, rows': map<nat, Row>) {
    && (forall id :: id in rows ==>
          && id in rows' && rows'[id].stream == rows[id].stream && rows'[id].position == rows[id].position
          && rows[id].attempts <= rows'[id].attempts
          && (rows[id].state.Published? ==> rows'[id].state.Published?)
          && (rows[id].state.DeadLetter? ==> rows'[id].state.DeadLetter?))
    && (forall id, p :: id in rows && p in rows' && p !in rows ==> !Precedes(rows'[p], rows'[id]))
  }

  lemma AppendEvolves(t: Table, id: nat, stream: nat, occurredAt: Instant, nextAttemptAt: Instant)
    requires Positions(t) && id !in t.rows
    ensures Evolves(t.rows, Appended(t, id, stream, occurredAt, nextAttemptAt).rows)
  {
  }

  lemma ClaimEvolves(t: Table, ids: set<nat>, asOf: Instant, token: nat, lease: Instant)
    requires forall id :: id in ids ==> Claimable(t.rows, id, asOf)
    ensures Evolves(t.rows, Claimed(t, ids, asOf, token, lease).rows)
  {
  }

  /** A settling statement changes at most the one row its claim still owns. */
  ghost predicate SettlesOne(t: Table, h: Handle, t': Table) {
    && t'.next == t.next
    && (t' != t ==> Owns(t, h.event, h.token) && exists to: State, at: Instant, code: Option<string> ::
          !to.Processing? && t'.rows == t.rows[h.event := SettledRow(t.rows[h.event], to, at, code)])
  }

  lemma SettleEvolves(t: Table, h: Handle, t': Table)
    requires SettlesOne(t, h, t')
    ensures Evolves(t.rows, t'.rows)
  {
  }

  lemma SucceededLater(history: seq<Entry>, added: seq<Entry>, n: int, m: int, event: nat)
    requires n <= m && SucceededBefore(history, n, event)
    ensures SucceededBefore(history + added, m, event)
  {
    var i :| 0 <= i < n && i < |history| && history[i].Succeeded? && history[i].h.event == event;
    assert (history + added)[i] == history[i];
  }

  lemma StartOkLater(
    max: int, rows: map<nat, Row>, rows': map<nat, Row>, history: seq<Entry>, added: seq<Entry>, i: nat)
    requires Evolves(rows, rows') && i < |history| && history[i].Started? && StartOk(max, rows, history, i)
    ensures StartOk(max, rows', history + added, i)
  {
    var e := history[i].h.event;
    forall p | p in rows' && Precedes(rows'[p], rows'[e]) ensures SucceededBefore(history + added, i, p) {
      assert p in rows && Precedes(rows[p], rows[e]);
      SucceededLater(history, added, i, i, p);
    }
  }

  /** The history grew by entries that are neither calls nor settlements, if any. */
  ghost predicate NoStarts(added: seq<Entry>) {
    forall i :: 0 <= i < |added| ==> !added[i].Started?
  }

  ghost predicate NoSettlements(added: seq<Entry>) {
    forall i :: 0 <= i < |added| ==> !added[i].Settled?
  }

  lemma StartsOkLater(max: int, rows: map<nat, Row>, rows': map<nat, Row>, history: seq<Entry>, added: seq<Entry>)
    requires StartsOk(max, rows, history) && Evolves(rows, rows') && NoStarts(added)
    ensures StartsOk(max, rows', history + added)
  {
    var history' := history + added;
    forall i | 0 <= i < |history'| && history'[i].Started? ensures StartOk(max, rows', history', i) {
      assert i < |history|;
      StartOkLater(max, rows, rows', history, added, i);
    }
  }

  lemma StartsDistinctLater(history: seq<Entry>, added: seq<Entry>)
    requires StartsDistinct(history) && NoStarts(added)
    ensures StartsDistinct(history + added)
  {
  }

  lemma HeldLater(hands: map<Handle, Hand>, hands': map<Handle, Hand>, history: seq<Entry>, added: seq<Entry>)
    requires HeldNotStarted(hands, history) && NoStarts(added)
    requires forall h :: h in hands' && hands'[h].phase.Held? ==> h in hands && hands'[h] == hands[h]
    ensures HeldNotStarted(hands', history + added)
  {
  }

  lemma SettledLater(rows: map<nat, Row>, history: seq<Entry>, used: set<nat>, added: seq<Entry>)
    requires SettledOk(rows, history, used) && SettledOnce(history) && NoSettlements(added)
    ensures SettledOk(rows, history + added, used) && SettledOnce(history + added)
  {
  }

  lemma MovedHands(rows: map<nat, Row>, hands: map<Handle, Hand>, used: set<nat>, h: Handle, phase: Phase)
    requires HandsOk(rows, hands, used) && HandsDistinct(hands) && h in hands
    ensures var hands' := hands[h := hands[h].(phase := phase)]; HandsOk(rows, hands', used) && HandsDistinct(hands')
  {
  }

  lemma FewerHands(rows: map<nat, Row>, rows': map<nat, Row>, hands: map<Handle, Hand>, used: set<nat>, h: Handle)
    requires HandsOk(rows, hands, used) && HandsDistinct(hands) && Evolves(rows, rows')
    ensures HandsOk(rows', hands - {h}, used) && HandsDistinct(hands - {h})
  {
  }

  lemma PublishedOkLater(
    rows: map<nat, Row>, hands: map<Handle, Hand>, hands': map<Handle, Hand>, history: seq<Entry>, added: seq<Entry>)
    requires PublishedOk(rows, hands, history)
    requires forall h :: h in hands' && hands'[h].phase.Delivered? ==>
               (h in hands && hands[h].phase.Delivered?) || SucceededBefore(history + added, |history + added|, h.event)
    ensures PublishedOk(rows, hands', history + added)
  {
    var history' := history + added;
    forall id | id in rows && rows[id].state.Published? ensures SucceededBefore(history', |history'|, id) {
      SucceededLater(history, added, |history|, |history'|, id);
    }
    forall h | h in hands' && hands'[h].phase.Delivered? ensures SucceededBefore(history', |history'|, h.event) {
      if h in hands && hands[h].phase.Delivered? {
        SucceededLater(history, added, |history|, |history'|, h.event);
      }
    }
  }

  // ----- Appending -----

  lemma AppendKeepsTable(
    max: int, t: Table, used: set<nat>, id: nat, stream: nat, occurredAt: Instant, nextAttemptAt: Instant)
    requires TableOk(max, t, used) && id !in t.rows
    ensures TableOk(max, Appended(t, id, stream, occurredAt, nextAttemptAt), used)
  {
    AppendKeepsPositions(t, id, stream, occurredAt, nextAttemptAt);
    AppendKeepsOrder(t, id, stream, occurredAt, nextAttemptAt);
  }

  lemma AppendKeepsOrder(t: Table, id: nat, stream: nat, occurredAt: Instant, nextAttemptAt: Instant)
    requires Positions(t) && Ordered(t.rows) && id !in t.rows
    ensures Ordered(Appended(t, id, stream, occurredAt, nextAttemptAt).rows)
  {
  }

  lemma AppendKeepsPositions(t: Table, id: nat, stream: nat, occurredAt: Instant, nextAttemptAt: Instant)
    requires Positions(t) && id !in t.rows
    ensures Positions(Appended(t, id, stream, occurredAt, nextAttemptAt))
  {
    var t' := Appended(t, id, stream, occurredAt, nextAttemptAt);
    forall other, k | 1 <= k < NextPosition(t'.next, other) ensures At(t'.rows, other, k) {
      if other == stream && k == NextPosition(t.next, stream) {
        assert t'.rows[id].stream == stream && t'.rows[id].position == k;
      } else {
        assert At(t.rows, other, k);
        var j :| j in t.rows && t.rows[j].stream == other && t.rows[j].position == k;
        assert t'.rows[j] == t.rows[j];
      }
    }
  }

  lemma AppendKeepsGood(max: int, s: Sys, l: Label)
    requires Good(max, s) && l.Append? && Allowed(max, s, l)
    ensures Good(max, Do(max, s, l))
  {
    AppendKeepsTable(max, s.table, s.used, l.id, l.stream, l.occurredAt, l.nextAttemptAt);
    AppendEvolves(s.table, l.id, l.stream, l.occurredAt, l.nextAttemptAt);
    var s' := Do(max, s, l);
    assert s.history + [] == s.history;
    StartsOkLater(max, s.table.rows, s'.table.rows, s.history, []);
  }

  // ----- Claiming -----

  lemma ClaimKeepsPositions(t: Table, ids: set<nat>, asOf: Instant, token: nat, lease: Instant)
    requires Positions(t)
    ensures Positions(Claimed(t, ids, asOf, token, lease))
  {
    var t' := Claimed(t, ids, asOf, token, lease);
    forall stream, k | 1 <= k < NextPosition(t'.next, stream) ensures At(t'.rows, stream, k) {
      assert At(t.rows, stream, k);
      var j :| j in t.rows && t.rows[j].stream == stream && t.rows[j].position == k;
      assert t'.rows[j].stream == stream && t'.rows[j].position == k;
    }
  }

  lemma ClaimKeepsOrder(max: int, t: Table, used: set<nat>, ids: set<nat>, asOf: Instant, token: nat, lease: Instant)
    requires Ordered(t.rows) && Counted(max, t.rows, used)
    requires forall id :: id in ids ==> Claimable(t.rows, id, asOf)
    ensures Ordered(Claimed(t, ids, asOf, token, lease).rows)
            && Counted(max, Claimed(t, ids, asOf, token, lease).rows, used + {token})
  {
  }

  lemma ClaimKeepsTable(max: int, t: Table, used: set<nat>, ids: set<nat>, asOf: Instant, token: nat, lease: Instant)
    requires TableOk(max, t, used)
    requires forall id :: id in ids ==> Claimable(t.rows, id, asOf)
    ensures TableOk(max, Claimed(t, ids, asOf, token, lease), used + {token})
  {
    ClaimKeepsPositions(t, ids, asOf, token, lease);
    ClaimKeepsOrder(max, t, used, ids, asOf, token, lease);
  }

  /** The hands after a claim: the old ones and one new hand per claimed row. */
  ghost predicate HandsMore(
    rows: map<nat, Row>, hands: map<Handle, Hand>, hands': map<Handle, Hand>, ids: set<nat>, token: nat) {
    && (forall h :: h in hands' <==> h in hands || (h.token == token && h.event in ids))
    && (forall h :: h in hands && h.token != token ==> hands'[h] == hands[h])
    && (forall h :: h in hands' && h.token == token ==>
        h.event in rows && hands'[h].phase.Held? && hands'[h].attempt == rows[h.event].attempts + 1)
  }

  lemma ClaimAddsHands(
    rows: map<nat, Row>, hands: map<Handle, Hand>, used: set<nat>, ids: set<nat>, token: nat, lease: Instant)
    requires HandsOk(rows, hands, used) && token !in used && forall id :: id in ids ==> id in rows
    ensures HandsMore(rows, hands, hands + HandsOf(rows, ids, token, lease), ids, token)
  {
    var hands' := hands + HandsOf(rows, ids, token, lease);
    assert forall h :: h in hands ==> h.token != token;
  }

  lemma HandsAfterClaim(
    rows: map<nat, Row>, rows': map<nat, Row>, hands: map<Handle, Hand>, hands': map<Handle, Hand>, used: set<nat>,
    ids: set<nat>, token: nat)
    requires HandsOk(rows, hands, used) && HandsDistinct(hands) && token !in used
    requires HandsMore(rows, hands, hands', ids, token) && Evolves(rows, rows')
    requires forall id :: id in ids ==>
               id in rows && rows[id].attempts >= 0 && rows'[id].attempts == rows[id].attempts + 1
    ensures HandsOk(rows', hands', used + {token})
    ensures HandsDistinct(hands')
  {
    forall h | h in hands'
      ensures h.event in rows' && 1 <= hands'[h].attempt <= rows'[h.event].attempts && h.token in used + {token} {
      assert h.token != token ==> h in hands;
    }
    forall h, g | h in hands' && g in hands' && h.event == g.event && h != g
      ensures hands'[h].attempt != hands'[g].attempt {
      assert h.token != token ==> h in hands && hands[h].attempt <= rows[h.event].attempts;
      assert g.token != token ==> g in hands && hands[g].attempt <= rows[g.event].attempts;
    }
  }

  lemma HeldAfterClaim(
    max: int, rows: map<nat, Row>, hands: map<Handle, Hand>, hands': map<Handle, Hand>, history: seq<Entry>,
    ids: set<nat>, token: nat)
    requires HandsMore(rows, hands, hands', ids, token)
    requires StartsOk(max, rows, history) && HeldNotStarted(hands, history)
    ensures HeldNotStarted(hands', history)
  {
    forall h, i | h in hands' && hands'[h].phase.Held? && 0 <= i < |history| && history[i].Started?
      && history[i].h.event == h.event
      ensures history[i].attempt != hands'[h].attempt
    {
      assert StartOk(max, rows, history, i);
      assert h.token != token ==> h in hands;
    }
  }

  lemma ClaimKeepsCalls(
    max: int, s: Sys, ids: set<nat>, asOf: Instant, token: nat, lease: Instant, hands': map<Handle, Hand>)
    requires CallsOk(max, s) && token !in s.used && HandsMore(s.table.rows, s.hands, hands', ids, token)
    requires forall id :: id in ids ==> Claimable(s.table.rows, id, asOf) && s.table.rows[id].attempts >= 0
    ensures CallsOk(max, Sys(Claimed(s.table, ids, asOf, token, lease), hands', s.history, s.used + {token}))
  {
    var rows' := Claimed(s.table, ids, asOf, token, lease).rows;
    ClaimEvolves(s.table, ids, asOf, token, lease);
    assert forall id :: id in ids ==> rows'[id].attempts == s.table.rows[id].attempts + 1;
    HandsAfterClaim(s.table.rows, rows', s.hands, hands', s.used, ids, token);
    HeldAfterClaim(max, s.table.rows, s.hands, hands', s.history, ids, token);
    assert s.history + [] == s.history;
    StartsOkLater(max, s.table.rows, rows', s.history, []);
  }

  lemma ClaimKeepsOutcomes(s: Sys, ids: set<nat>, asOf: Instant, token: nat, lease: Instant, hands': map<Handle, Hand>)
    requires OutcomesOk(s) && token !in s.used && HandsMore(s.table.rows, s.hands, hands', ids, token)
    ensures OutcomesOk(Sys(Claimed(s.table, ids, asOf, token, lease), hands', s.history, s.used + {token}))
  {
    var rows' := Claimed(s.table, ids, asOf, token, lease).rows;
    forall id | id in rows' && rows'[id].state.Published? ensures SucceededBefore(s.history, |s.history|, id) {
      assert s.table.rows[id].state.Published?;
    }
    forall h | h in hands' && hands'[h].phase.Delivered? ensures SucceededBefore(s.history, |s.history|, h.event) {
      assert h in s.hands && s.hands[h].phase.Delivered?;
    }
  }

  lemma ClaimKeepsGood(max: int, s: Sys, l: Label)
    requires Good(max, s) && l.Claim? && Allowed(max, s, l)
    ensures Good(max, Do(max, s, l))
  {
    ClaimKeepsTable(max, s.table, s.used, l.ids, l.asOf, l.token, l.lease);
    ClaimAddsHands(s.table.rows, s.hands, s.used, l.ids, l.token, l.lease);
    ClaimKeepsCalls(max, s, l.ids, l.asOf, l.token, l.lease, Do(max, s, l).hands);
    ClaimKeepsOutcomes(s, l.ids, l.asOf, l.token, l.lease, Do(max, s, l).hands);
  }

  // ----- Calling the publisher -----

  lemma StartIsOk(max: int, s: Sys, h: Handle)
    requires Good(max, s) && h in s.hands && s.hands[h].attempt <= max
    ensures StartsOk(max, s.table.rows, s.history + [Started(h, s.hands[h].attempt)])
  {
    var rows, entry := s.table.rows, Started(h, s.hands[h].attempt);
    var history' := s.history + [entry];
    forall i | 0 <= i < |history'| && history'[i].Started? ensures StartOk(max, rows, history', i) {
      if i < |s.history| {
        StartOkLater(max, rows, rows, s.history, [entry], i);
      } else {
        forall p | p in rows && Precedes(rows[p], rows[h.event]) ensures SucceededBefore(history', i, p) {
          assert rows[p].state.Published?;
          SucceededLater(s.history, [entry], |s.history|, i, p);
        }
      }
    }
  }

  lemma StartKeepsGood(max: int, s: Sys, l: Label)
    requires Good(max, s) && l.Start? && Allowed(max, s, l)
    ensures Good(max, Do(max, s, l))
  {
    var s' := Do(max, s, l);
    var entry := Started(l.h, s.hands[l.h].attempt);
    StartIsOk(max, s, l.h);
    StartIsNew(s.hands, s.history, l.h);
    MovedHands(s.table.rows, s.hands, s.used, l.h, Calling);
    PublishedOkLater(s.table.rows, s.hands, s'.hands, s.history, [entry]);
    SettledLater(s.table.rows, s.history, s.used, [entry]);
  }

  lemma StartIsNew(hands: map<Handle, Hand>, history: seq<Entry>, h: Handle)
    requires HandsDistinct(hands) && StartsDistinct(history) && HeldNotStarted(hands, history)
    requires h in hands && hands[h].phase.Held?
    ensures StartsDistinct(history + [Started(h, hands[h].attempt)])
    ensures HeldNotStarted(hands[h := hands[h].(phase := Calling)], history + [Started(h, hands[h].attempt)])
  {
  }

  lemma ReturnKeepsCalls(max: int, s: Sys, h: Handle, phase: Phase, entry: Entry)
    requires CallsOk(max, s) && h in s.hands && !phase.Held? && !entry.Started?
    ensures CallsOk(max, Move(s, h, phase, entry))
  {
    var s' := Move(s, h, phase, entry);
    StartsOkLater(max, s.table.rows, s.table.rows, s.history, [entry]);
    StartsDistinctLater(s.history, [entry]);
    HeldLater(s.hands, s'.hands, s.history, [entry]);
    MovedHands(s.table.rows, s.hands, s.used, h, phase);
  }

  lemma ReturnKeepsOutcomes(s: Sys, h: Handle, phase: Phase, entry: Entry)
    requires OutcomesOk(s) && h in s.hands && !entry.Settled? && entry.h == h && (phase.Delivered? ==> entry.Succeeded?)
    ensures OutcomesOk(Move(s, h, phase, entry))
  {
    var s' := Move(s, h, phase, entry);
    assert s'.history == s.history + [entry] && s'.history[|s.history|] == entry;
    PublishedOkLater(s.table.rows, s.hands, s'.hands, s.history, [entry]);
    SettledLater(s.table.rows, s.history, s.used, [entry]);
  }

  lemma ReturnKeepsGood(max: int, s: Sys, l: Label)
    requires Good(max, s) && (l.Succeed? || l.Fail?) && Allowed(max, s, l)
    ensures Good(max, Do(max, s, l))
  {
    var phase := if l.Succeed? then Delivered else Missed;
    var entry := if l.Succeed? then Succeeded(l.h) else Failed(l.h);
    ReturnKeepsCalls(max, s, l.h, phase, entry);
    ReturnKeepsOutcomes(s, l.h, phase, entry);
  }

  lemma DropKeepsGood(max: int, s: Sys, h: Handle)
    requires Good(max, s)
    ensures Good(max, LetGo(s, h))
  {
  }

  // ----- Settling -----

  lemma SettleKeepsTable(max: int, t: Table, used: set<nat>, h: Handle, t': Table)
    requires TableOk(max, t, used) && SettlesOne(t, h, t')
    requires h.event in t'.rows && t'.rows[h.event].state.DeadLetter? ==> t'.rows[h.event].attempts >= max
    ensures TableOk(max, t', used)
  {
    forall stream, k | 1 <= k < NextPosition(t'.next, stream) ensures At(t'.rows, stream, k) {
      assert At(t.rows, stream, k);
      var j :| j in t.rows && t.rows[j].stream == stream && t.rows[j].position == k;
      assert t'.rows[j].stream == stream && t'.rows[j].position == k;
    }
  }

  lemma SettleKeepsOutcomes(s: Sys, h: Handle, t': Table)
    requires OutcomesOk(s) && SettlesOne(s.table, h, t') && t' != s.table && h.token in s.used
    requires t'.rows[h.event].state.Published? ==> SucceededBefore(s.history, |s.history|, h.event)
    ensures OutcomesOk(Settle(s, h, t'))
  {
    var s' := Settle(s, h, t');
    PublishedOkLater(s.table.rows, s.hands, s'.hands, s.history, [Settled(h)]);
    forall id | id in t'.rows && t'.rows[id].state.Published? ensures SucceededBefore(s'.history, |s'.history|, id) {
      if id == h.event && !s.table.rows[id].state.Published? {
        SucceededLater(s.history, [Settled(h)], |s.history|, |s'.history|, id);
      }
    }
  }

  lemma SettleKeepsCalls(max: int, s: Sys, h: Handle, t': Table)
    requires CallsOk(max, s) && SettlesOne(s.table, h, t') && t' != s.table
    ensures CallsOk(max, Settle(s, h, t'))
  {
    SettleEvolves(s.table, h, t');
    StartsOkLater(max, s.table.rows, t'.rows, s.history, [Settled(h)]);
    StartsDistinctLater(s.history, [Settled(h)]);
    HeldLater(s.hands, s.hands - {h}, s.history, [Settled(h)]);
    FewerHands(s.table.rows, t'.rows, s.hands, s.used, h);
  }

  lemma SettleKeepsGood(max: int, s: Sys, h: Handle, t': Table)
    requires Good(max, s) && h in s.hands && SettlesOne(s.table, h, t')
    requires t'.rows[h.event].state.Published? ==> SucceededBefore(s.history, |s.history|, h.event)
    requires t'.rows[h.event].state.DeadLetter? ==> t'.rows[h.event].attempts >= max
    ensures Good(max, Settle(s, h, t'))
  {
    if t' == s.table {
      DropKeepsGood(max, s, h);
      assert Settle(s, h, t') == LetGo(s, h);
    } else {
      SettleKeepsTable(max, s.table, s.used, h, t');
      SettleKeepsOutcomes(s, h, t');
      SettleKeepsCalls(max, s, h, t');
    }
  }

  lemma AcknowledgeKeepsGood(max: int, s: Sys, l: Label)
    requires Good(max, s) && l.Acknowledge? && Allowed(max, s, l)
    ensures Good(max, Do(max, s, l))
  {
    SettleKeepsGood(max, s, l.h, MarkedPublished(s.table, l.h.event, l.h.token, l.at));
  }

  lemma RetryKeepsGood(max: int, s: Sys, l: Label)
    requires Good(max, s) && l.Retry? && Allowed(max, s, l)
    ensures Good(max, Do(max, s, l))
  {
    SettleKeepsGood(max, s, l.h, Rescheduled(s.table, l.h.event, l.h.token, l.nextAttemptAt, l.code));
  }

  lemma GiveUpKeepsGood(max: int, s: Sys, l: Label)
    requires Good(max, s) && l.GiveUp? && Allowed(max, s, l)
    ensures Good(max, Do(max, s, l))
  {
    SettleKeepsGood(max, s, l.h, MarkedDeadLetter(s.table, l.h.event, l.h.token, l.code));
  }

  lemma StepKeepsGood(max: int, s: Sys, l: Label)
    requires Good(max, s)
    ensures Good(max, Do(max, s, l))
  {
    if Allowed(max, s, l) {
      match l
      case Append(_, _, _, _) => AppendKeepsGood(max, s, l);
      case Claim(_, _, _, _, _) => ClaimKeepsGood(max, s, l);
      case Drop(h) => DropKeepsGood(max, s, h);
      case Start(_) => StartKeepsGood(max, s, l);
      case Succeed(_) => ReturnKeepsGood(max, s, l);
      case Fail(_) => ReturnKeepsGood(max, s, l);
      case Acknowledge(_, _) => AcknowledgeKeepsGood(max, s, l);
      case Retry(_, _, _) => RetryKeepsGood(max, s, l);
      case GiveUp(_, _) => GiveUpKeepsGood(max, s, l);
    }
  }

  lemma {:induction false} RunsKeepGood(max: int, s: Sys, labels: seq<Label>)
    requires Good(max, s)
    ensures Good(max, DoAll(max, s, labels))
    decreases |labels|
  {
    if labels != [] {
      StepKeepsGood(max, s, labels[0]);
      RunsKeepGood(max, Do(max, s, labels[0]), labels[1..]);
    }
  }
}
