/** The transactional outbox: its rows and the statements that append, claim and settle them.
  *
  * Events and claim tokens are naturals with 0 for the zero UUID; an aggregate (type and id) is one
  * stream. Instants are nanoseconds, 0 the unset time.
  */
module Outbox {
  import opened Wrappers

  type Instant = int

  const MAX_INT32: int := 0x7fff_ffff
  const MAX_CLAIM_BATCH: int := 100

  datatype State =
    | Pending
    | Processing(token: nat, claimedAt: Instant, leaseExpiresAt: Instant)
    | Published(publishedAt: Instant)
    | DeadLetter

  datatype Row = Row(
    stream: nat,
    position: int,
    occurredAt: Instant,
    nextAttemptAt: Instant,
    attempts: int,
    state: State,
    failure: Option<string>)

  datatype Table = Table(rows: map<nat, Row>, next: map<nat, int>)

  datatype StoreError = InvalidEvent | InvalidClaimRequest | InvalidFailureCode | ConstraintViolated

  predicate IsLower(ch: char) {
    'a' <= ch <= 'z'
  }

  predicate ValidFailureCode(code: string) {
    && 1 <= |code| <= 64 && IsLower(code[0])
    && forall i :: 0 <= i < |code| ==> IsLower(code[i]) || '0' <= code[i] <= '9' || code[i] == '_'
  }

  // ----- Append -----

  function NextPosition(next: map<nat, int>, stream: nat): int {
    if stream in next then next[stream] else 1
  }

  function NewRow(t: Table, stream: nat, occurredAt: Instant, nextAttemptAt: Instant): Row {
    Row(stream, NextPosition(t.next, stream), occurredAt, nextAttemptAt, 0, Pending, None)
  }

  function Appended(t: Table, id: nat, stream: nat, occurredAt: Instant, nextAttemptAt: Instant): Table {
    t.(rows := t.rows[id := NewRow(t, stream, occurredAt, nextAttemptAt)],
       next := t.next[stream := NextPosition(t.next, stream) + 1])
  }

  // ----- Claim -----

  predicate Due(row: Row, asOf: Instant) {
    || (row.state.Pending? && row.nextAttemptAt <= asOf)
    || (row.state.Processing? && row.state.leaseExpiresAt <= asOf)
  }

  predicate Precedes(p: Row, row: Row) {
    p.stream == row.stream && p.position < row.position
  }

  predicate Claimable(rows: map<nat, Row>, id: nat, asOf: Instant) {
    && id in rows && Due(rows[id], asOf)
    && forall p :: p in rows && Precedes(rows[p], rows[id]) ==> rows[p].state.Published?
  }

  function ClaimedRow(row: Row, asOf: Instant, token: nat, leaseExpiresAt: Instant): Row {
    row.(state := Processing(token, asOf, leaseExpiresAt), attempts := row.attempts + 1)
  }

  function Claimed(t: Table, ids: set<nat>, asOf: Instant, token: nat, leaseExpiresAt: Instant): Table {
    t.(rows := map id | id in t.rows ::
       if id in ids then ClaimedRow(t.rows[id], asOf, token, leaseExpiresAt) else t.rows[id])
  }

  predicate ValidClaim(asOf: Instant, token: nat, leaseExpiresAt: Instant, limit: int) {
    asOf != 0 && token != 0 && leaseExpiresAt != 0 && asOf < leaseExpiresAt && 1 <= limit <= MAX_CLAIM_BATCH
  }

  /** Claims are handed out by stream, then position. */
  predicate ClaimOrder(a: Row, b: Row) {
    a.stream < b.stream || (a.stream == b.stream && a.position < b.position)
  }

  /** ids are the first `limit` claimable rows that no other statement has locked. */
  ghost predicate IsBatch(rows: map<nat, Row>, locked: set<nat>, asOf: Instant, limit: int, ids: set<nat>) {
    && |ids| <= limit
    && (forall id :: id in ids ==> Claimable(rows, id, asOf) && id !in locked)
    && (forall id :: Claimable(rows, id, asOf) && id !in locked && id !in ids ==>
          |ids| == limit && forall chosen :: chosen in ids ==> !ClaimOrder(rows[id], rows[chosen]))
  }

  /** The row waits and is due, or its lease is over, and everything before it in its stream is published. */
  predicate IsFree(rows: map<nat, Row>, id: nat, asOf: Instant) {
    && id in rows
    && (match rows[id].state
        case Pending => rows[id].nextAttemptAt <= asOf
        case Processing(_, _, leaseExpiresAt) => leaseExpiresAt <= asOf
        case _ => false)
    && forall p :: p in rows && rows[p].stream == rows[id].stream && rows[p].position < rows[id].position ==>
         rows[p].state.Published?
  }

  /** At most `limit` free rows that nobody else has locked; one passed over comes after them in stream and position. */
  ghost predicate FirstFree(rows: map<nat, Row>, locked: set<nat>, asOf: Instant, limit: int, ids: set<nat>) {
    && |ids| <= limit && (forall id :: id in ids ==> IsFree(rows, id, asOf) && id !in locked)
    && forall id :: IsFree(rows, id, asOf) && id !in locked && id !in ids ==>
         && |ids| == limit
         && forall chosen :: chosen in ids ==>
              || rows[chosen].stream < rows[id].stream
              || (rows[chosen].stream == rows[id].stream && rows[chosen].position <= rows[id].position)
  }

  lemma BatchIsFirstFree(rows: map<nat, Row>, locked: set<nat>, asOf: Instant, limit: int, ids: set<nat>)
    requires IsBatch(rows, locked, asOf, limit, ids)
    ensures FirstFree(rows, locked, asOf, limit, ids)
  {
    forall id ensures IsFree(rows, id, asOf) <==> Claimable(rows, id, asOf) {
    }
  }

  // ----- Settling a claim -----

  /** The predicate of every update that settles a claim. */
  predicate Owns(t: Table, id: nat, token: nat) {
    id in t.rows && t.rows[id].state.Processing? && t.rows[id].state.token == token
  }

  predicate IsHeldUnder(state: State, token: nat) {
    state.Processing? && state.token == token
  }

  function SettledRow(row: Row, to: State, nextAttemptAt: Instant, failure: Option<string>): Row {
    row.(state := to, nextAttemptAt := nextAttemptAt, failure := failure)
  }

  function MarkedPublished(t: Table, id: nat, token: nat, at: Instant): Table {
    if Owns(t, id, token) && t.rows[id].occurredAt <= at
    then t.(rows := t.rows[id := SettledRow(t.rows[id], Published(at), t.rows[id].nextAttemptAt, None)])
    else t
  }

  function Rescheduled(t: Table, id: nat, token: nat, nextAttemptAt: Instant, code: string): Table {
    if Owns(t, id, token) then t.(rows := t.rows[id := SettledRow(t.rows[id], Pending, nextAttemptAt, Some(code))])
    else t
  }

  function MarkedDeadLetter(t: Table, id: nat, token: nat, code: string): Table {
    if Owns(t, id, token)
    then t.(rows := t.rows[id := SettledRow(t.rows[id], DeadLetter, t.rows[id].nextAttemptAt, Some(code))])
    else t
  }

  // ----- The tables -----

  class Store {
    var rows: map<nat, Row>
    var next: map<nat, int>

    function Contents(): Table
      reads this
    {
      Table(rows, next)
    }

    constructor ()
      ensures Contents() == Table(map[], map[])
    {
      rows, next := map[], map[];
    }

    method Append(id: nat, stream: nat, occurredAt: Instant, nextAttemptAt: Instant) returns (error: Option<StoreError>)
      modifies this
      ensures error.None? <==> id != 0 && stream != 0 && occurredAt != 0 && nextAttemptAt != 0 && id !in old(rows)
      ensures Contents() == if error.None? then Appended(old(Contents()), id, stream, occurredAt, nextAttemptAt)
              else old(Contents())
      ensures error.None? ==>
                var position := if stream in old(next) then old(next)[stream] else 1;
                && rows == old(rows)[id := Row(stream, position, occurredAt, nextAttemptAt, 0, Pending, None)]
                && next == old(next)[stream := position + 1]
    {
      if id == 0 || stream == 0 || occurredAt == 0 || nextAttemptAt == 0 {
        return Some(InvalidEvent);
      }
      if id in rows {
        return Some(ConstraintViolated);
      }
      next := next[stream := if stream in next then next[stream] + 1 else 2];
      rows := rows[id := Row(stream, next[stream] - 1, occurredAt, nextAttemptAt, 0, Pending, None)];
      error := None;
    }

    /** The one claim statement; `locked` are the rows its SKIP LOCKED passes over. */
    method ClaimDue(asOf: Instant, token: nat, leaseExpiresAt: Instant, limit: int, locked: set<nat>)
      returns (claims: Result<set<nat>, StoreError>)
      modifies this`rows
      ensures claims.Failure? ==> rows == old(rows)
      ensures claims == Failure(InvalidClaimRequest) <==>
                !(asOf != 0 && token != 0 && leaseExpiresAt != 0 && asOf < leaseExpiresAt && 1 <= limit <= 100)
      ensures claims.Success? ==>
                && ValidClaim(asOf, token, leaseExpiresAt, limit)
                && IsBatch(old(rows), locked, asOf, limit, claims.value)
                && (forall id :: id in claims.value ==> old(rows)[id].attempts < MAX_INT32)
                && Contents() == Claimed(old(Contents()), claims.value, asOf, token, leaseExpiresAt)
                && FirstFree(old(rows), locked, asOf, limit, claims.value)
                && rows.Keys == old(rows).Keys
                && (forall id :: id in rows ==>
                      rows[id] == if id in claims.value
                                  then old(rows)[id].(state := Processing(token, asOf, leaseExpiresAt),
                                                      attempts := old(rows)[id].attempts + 1)
                                  else old(rows)[id])
      ensures ValidClaim(asOf, token, leaseExpiresAt, limit)
              && (forall id :: id in old(rows) ==> old(rows)[id].attempts < MAX_INT32)
              ==> claims.Success?
    {
      if !ValidClaim(asOf, token, leaseExpiresAt, limit) {
        return Failure(InvalidClaimRequest);
      }
      var candidates := set id | id in rows && Claimable(rows, id, asOf) && id !in locked;
      var ids: set<nat> := {};
      while |ids| < limit && candidates != {}
        invariant rows == old(rows) && IsSelection(rows, locked, asOf, ids, candidates) && |ids| <= limit
        decreases candidates
      {
        FirstExists(rows, candidates);
        var first :| first in candidates && IsFirst(rows, candidates, first);
        candidates, ids := candidates - {first}, ids + {first};
      }
      if exists id :: id in ids && rows[id].attempts >= MAX_INT32 {
        return Failure(ConstraintViolated);
      }
      rows := map id | id in rows :: if id in ids then ClaimedRow(rows[id], asOf, token, leaseExpiresAt) else rows[id];
      BatchIsFirstFree(old(rows), locked, asOf, limit, ids);
      claims := Success(ids);
    }

    method MarkPublished(id: nat, token: nat, at: Instant) returns (changed: Result<bool, StoreError>)
      modifies this`rows
      ensures changed.Success? ==>
                && (changed.value <==> id in old(rows) && IsHeldUnder(old(rows)[id].state, token))
                && rows == if changed.value
                  then old(rows)[id := old(rows)[id].(state := Published(at), failure := None)]
                           else old(rows)
      ensures Contents() == if changed.Success? then MarkedPublished(old(Contents()), id, token, at)
              else old(Contents())
      ensures changed.Success? ==> (changed.value <==> Owns(old(Contents()), id, token))
      ensures changed.Failure? <==>
                id == 0 || token == 0 || at == 0 || (Owns(old(Contents()), id, token) && at < old(rows)[id].occurredAt)
      ensures changed.Failure? ==>
                changed.error == if id == 0 || token == 0 || at == 0 then InvalidEvent else ConstraintViolated
    {
      if id == 0 || token == 0 || at == 0 {
        return Failure(InvalidEvent);
      }
      if !Owns(Contents(), id, token) {
        return Success(false);
      }
      if at < rows[id].occurredAt {
        return Failure(ConstraintViolated);
      }
      rows := rows[id := rows[id].(state := Published(at), failure := None)];
      changed := Success(true);
    }

    method Reschedule(id: nat, token: nat, nextAttemptAt: Instant, code: string)
      returns (changed: Result<bool, StoreError>)
      modifies this`rows
      ensures changed.Success? ==>
                && (changed.value <==> id in old(rows) && IsHeldUnder(old(rows)[id].state, token))
                && rows == if changed.value
                           then old(rows)[id := old(rows)[id].(state := Pending, nextAttemptAt := nextAttemptAt,
                                                               failure := Some(code))]
                           else old(rows)
      ensures Contents() == if changed.Success? then Rescheduled(old(Contents()), id, token, nextAttemptAt, code)
              else old(Contents())
      ensures changed.Success? ==> (changed.value <==> Owns(old(Contents()), id, token))
      ensures changed.Failure? <==> id == 0 || token == 0 || nextAttemptAt == 0 || !ValidFailureCode(code)
      ensures changed.Failure? ==>
                changed.error ==
                if id == 0 || token == 0 || nextAttemptAt == 0 then InvalidEvent else InvalidFailureCode
    {
      if id == 0 || token == 0 || nextAttemptAt == 0 {
        return Failure(InvalidEvent);
      }
      if !ValidFailureCode(code) {
        return Failure(InvalidFailureCode);
      }
      if !Owns(Contents(), id, token) {
        return Success(false);
      }
      rows := rows[id := rows[id].(state := Pending, nextAttemptAt := nextAttemptAt, failure := Some(code))];
      changed := Success(true);
    }

    method MarkDeadLetter(id: nat, token: nat, code: string) returns (changed: Result<bool, StoreError>)
      modifies this`rows
      ensures changed.Success? ==>
                && (changed.value <==> id in old(rows) && IsHeldUnder(old(rows)[id].state, token))
                && rows == if changed.value
                           then old(rows)[id := old(rows)[id].(state := DeadLetter, failure := Some(code))]
                           else old(rows)
      ensures Contents() == if changed.Success? then MarkedDeadLetter(old(Contents()), id, token, code)
              else old(Contents())
      ensures changed.Success? ==> (changed.value <==> Owns(old(Contents()), id, token))
      ensures changed.Failure? <==> id == 0 || token == 0 || !ValidFailureCode(code)
      ensures changed.Failure? ==> changed.error == if id == 0 || token == 0 then InvalidEvent else InvalidFailureCode
    {
      if id == 0 || token == 0 {
        return Failure(InvalidEvent);
      }
      if !ValidFailureCode(code) {
        return Failure(InvalidFailureCode);
      }
      if !Owns(Contents(), id, token) {
        return Success(false);
      }
      rows := rows[id := rows[id].(state := DeadLetter, failure := Some(code))];
      changed := Success(true);
    }
  }

  ghost predicate IsSelection(
    rows: map<nat, Row>, locked: set<nat>, asOf: Instant, ids: set<nat>, candidates: set<nat>) {
    && (forall id :: id in ids || id in candidates <==> Claimable(rows, id, asOf) && id !in locked)
    && ids !! candidates
    && (forall id, chosen :: id in candidates && chosen in ids ==> !ClaimOrder(rows[id], rows[chosen]))
  }

  predicate IsFirst(rows: map<nat, Row>, candidates: set<nat>, first: nat) {
    && first in candidates && first in rows
    && forall id :: id in candidates && id in rows ==> !ClaimOrder(rows[id], rows[first])
  }

  lemma {:induction false} FirstExists(rows: map<nat, Row>, candidates: set<nat>)
    requires candidates != {} && forall id :: id in candidates ==> id in rows
    ensures exists first :: IsFirst(rows, candidates, first)
    decreases candidates
  {
    var c :| c in candidates;
    var rest := candidates - {c};
    if rest == {} {
      AloneIsFirst(rows, candidates, c);
    } else {
      FirstExists(rows, rest);
      var f :| IsFirst(rows, rest, f);
      FirstOfMore(rows, candidates, c, f);
    }
  }

  lemma AloneIsFirst(rows: map<nat, Row>, candidates: set<nat>, c: nat)
    requires c in candidates && c in rows && candidates - {c} == {}
    ensures IsFirst(rows, candidates, c)
  {
    forall id | id in candidates ensures id == c {
      assert id == c || id in candidates - {c};
    }
  }

  lemma FirstOfMore(rows: map<nat, Row>, candidates: set<nat>, c: nat, f: nat)
    requires c in candidates && c in rows && IsFirst(rows, candidates - {c}, f)
    ensures IsFirst(rows, candidates, if ClaimOrder(rows[c], rows[f]) then c else f)
  {
    var first := if ClaimOrder(rows[c], rows[f]) then c else f;
    forall id | id in candidates && id in rows ensures !ClaimOrder(rows[id], rows[first]) {
      assert id == c || id in candidates - {c};
    }
  }
}
