/** A lease keeps the others away: when an event that was claimed can be claimed again, said on labels and rows. */
module OutboxLeases {
  import opened Wrappers
  import opened Outbox
  import opened OutboxRuns

  /** The label takes the event: one more attempt is counted. */
  predicate Takes(max: int, s: Sys, l: Label, event: nat) {
    var rows, rows' := s.table.rows, Do(max, s, l).table.rows;
    l.Claim? && event in rows && event in rows' && rows'[event].attempts == rows[event].attempts + 1
  }

  /** The label gives the event back. */
  predicate GivesBack(max: int, s: Sys, l: Label, event: nat) {
    var rows, rows' := s.table.rows, Do(max, s, l).table.rows;
    && l.Retry? && event in rows && event in rows'
    && rows[event].state.Processing? && rows'[event].state.Pending?
  }

  /** The state before label i. */
  function Before(max: int, labels: seq<Label>, i: nat): Sys
    requires i <= |labels|
  {
    DoAll(max, EMPTY, labels[..i])
  }

  lemma NextState(max: int, labels: seq<Label>, i: nat)
    requires i < |labels|
    ensures Before(max, labels, i + 1) == Do(max, Before(max, labels, i), labels[i])
  {
    assert labels[..i + 1] == labels[..i] + [labels[i]];
    DoAllConcat(max, EMPTY, labels[..i], [labels[i]]);
    OneStep(max, Before(max, labels, i), labels[i]);
  }

  lemma OneStep(max: int, s: Sys, l: Label)
    ensures DoAll(max, s, [l]) == Do(max, s, l)
  {
    assert [l][1..] == [];
    assert DoAll(max, Do(max, s, l), []) == Do(max, s, l);
  }

  /** The event is not free before t. */
  predicate IsKept(rows: map<nat, Row>, event: nat, t: Instant) {
    event in rows &&
    match rows[event].state
    case Pending => t <= rows[event].nextAttemptAt
    case Processing(_, _, leaseExpiresAt) => t <= leaseExpiresAt
    case _ => true
  }

  lemma TakingTells(max: int, s: Sys, l: Label, event: nat)
    requires Takes(max, s, l, event)
    ensures event in l.ids && Allowed(max, s, l)
    ensures Do(max, s, l).table.rows[event].state == Processing(l.token, l.asOf, l.lease)
  {
  }

  lemma StepKeeps(max: int, s: Sys, l: Label, event: nat, t: Instant)
    requires IsKept(s.table.rows, event, t) && !GivesBack(max, s, l, event)
    ensures IsKept(Do(max, s, l).table.rows, event, t)
    ensures Takes(max, s, l, event) ==> t <= l.asOf
  {
    if Allowed(max, s, l) {
      match l
      case Claim(ids, asOf, token, lease, _) => ClaimKeeps(s.table, ids, asOf, token, lease, event, t);
      case _ =>
    }
  }

  lemma ClaimKeeps(table: Table, ids: set<nat>, asOf: Instant, token: nat, lease: Instant, event: nat, t: Instant)
    requires IsKept(table.rows, event, t) && asOf < lease && forall id :: id in ids ==> Claimable(table.rows, id, asOf)
    ensures IsKept(Claimed(table, ids, asOf, token, lease).rows, event, t)
    ensures event in ids ==> t <= asOf
  {
  }

  lemma {:induction false} KeptUntil(max: int, labels: seq<Label>, i: nat, j: nat, event: nat, t: Instant)
    requires i <= j <= |labels| && IsKept(Before(max, labels, i).table.rows, event, t)
    requires forall m :: i <= m < j ==> !GivesBack(max, Before(max, labels, m), labels[m], event)
    ensures IsKept(Before(max, labels, j).table.rows, event, t)
    decreases j - i
  {
    if i < j {
      KeptUntil(max, labels, i, j - 1, event, t);
      NextState(max, labels, j - 1);
      StepKeeps(max, Before(max, labels, j - 1), labels[j - 1], event, t);
    }
  }

  lemma TakenAfter(max: int, labels: seq<Label>, i: nat, j: nat, event: nat, t: Instant)
    requires i < j < |labels| && IsKept(Before(max, labels, i + 1).table.rows, event, t)
    requires forall m :: i < m < j ==> !GivesBack(max, Before(max, labels, m), labels[m], event)
    requires Takes(max, Before(max, labels, j), labels[j], event)
    ensures t <= labels[j].asOf
  {
    KeptUntil(max, labels, i + 1, j, event, t);
    StepKeeps(max, Before(max, labels, j), labels[j], event, t);
  }

  /** In every run, whoever takes an event again that was not given back in between does so at the end of the first
    * lease or later, however many others took it meanwhile. */
  lemma LeaseExcludes(max: int, labels: seq<Label>, i: nat, j: nat, event: nat)
    requires i < j < |labels|
    requires Takes(max, Before(max, labels, i), labels[i], event)
             && Takes(max, Before(max, labels, j), labels[j], event)
    requires forall m :: i < m < j ==> !GivesBack(max, Before(max, labels, m), labels[m], event)
    ensures labels[i].lease <= labels[j].asOf
  {
    NextState(max, labels, i);
    TakingTells(max, Before(max, labels, i), labels[i], event);
    TakenAfter(max, labels, i, j, event, labels[i].lease);
  }

  /** After an event was last given back it is taken no earlier than the time written then. */
  lemma RetryDelays(max: int, labels: seq<Label>, i: nat, j: nat, event: nat)
    requires i < j < |labels|
    requires GivesBack(max, Before(max, labels, i), labels[i], event)
    requires Takes(max, Before(max, labels, j), labels[j], event)
    requires forall m :: i < m < j ==> !GivesBack(max, Before(max, labels, m), labels[m], event)
    ensures labels[i].nextAttemptAt <= labels[j].asOf
  {
    NextState(max, labels, i);
    TakenAfter(max, labels, i, j, event, labels[i].nextAttemptAt);
  }

  /** Before it is ever given back, an event is taken no earlier than it was appended to be due. */
  lemma AppendDelays(max: int, labels: seq<Label>, i: nat, j: nat, event: nat)
    requires i < j < |labels| && labels[i].Append? && labels[i].id == event
    requires event !in Before(max, labels, i).table.rows && event in Before(max, labels, i + 1).table.rows
    requires Takes(max, Before(max, labels, j), labels[j], event)
    requires forall m :: i < m < j ==> !GivesBack(max, Before(max, labels, m), labels[m], event)
    ensures labels[i].nextAttemptAt <= labels[j].asOf
  {
    NextState(max, labels, i);
    TakenAfter(max, labels, i, j, event, labels[i].nextAttemptAt);
  }

  /** A worker with a new token can take an event exactly if it is waiting and due or its lease is over, all earlier
    * events of its stream are published and its attempts can still be counted. */
  lemma TakesExactly(max: int, s: Sys, event: nat, asOf: Instant, token: nat, lease: Instant, limit: int)
    requires token !in s.used && token != 0 && asOf != 0 && lease != 0 && asOf < lease && 1 <= limit <= 100
    ensures Takes(max, s, Claim({event}, asOf, token, lease, limit), event) <==>
            && event in s.table.rows
            && var row := s.table.rows[event];
               && row.attempts < 2_147_483_647
               && (match row.state
                   case Pending => row.nextAttemptAt <= asOf
                   case Processing(_, _, leaseExpiresAt) => leaseExpiresAt <= asOf
                   case _ => false)
               && forall p ::
                    p in s.table.rows && s.table.rows[p].stream == row.stream
                      && s.table.rows[p].position < row.position ==>
                      s.table.rows[p].state.Published?
  {
    var l := Claim({event}, asOf, token, lease, limit);
    if event in s.table.rows {
      var row := s.table.rows[event];
      assert |{event}| == 1;
      assert Due(row, asOf) <==> (match row.state
                                  case Pending => row.nextAttemptAt <= asOf
                                  case Processing(_, _, leaseExpiresAt) => leaseExpiresAt <= asOf
                                  case _ => false);
    }
  }
}
