/** A worker whose clock never goes back takes only timely steps, and its acknowledgements are never refused
  * for their time.
  */
module DeliveryClocks {
  import opened Wrappers
  import opened Outbox
  import opened OutboxRuns
  import opened OutboxClocks
  import opened Delivery

  ghost predicate Steady(moments: nat -> Moment) {
    forall i: nat, j: nat :: i <= j ==> moments(i).now <= moments(j).now
  }

  // ----- What a steady worker plans -----

  /** Under `token` the step is dated no earlier than the claim, made at asOf. */
  predicate NotBefore(token: nat, asOf: Instant, l: Label) {
    match l
    case Append(_, _, _, _) => false
    case Claim(_, at, other, _, _) => other == token && at == asOf
    case Acknowledge(_, at) => asOf <= at
    case Retry(_, at, _) => asOf <= at
    case _ => true
  }

  ghost predicate AllNotBefore(token: nat, asOf: Instant, labels: seq<Label>) {
    forall l :: l in labels ==> NotBefore(token, asOf, l)
  }

  lemma DeliveryIsNotBefore(
    config: Config, moments: nat -> Moment, c0: nat, c: nat, claim: ClaimedEvent, token: nat)
    requires Steady(moments) && c0 <= c
    ensures AllNotBefore(token, moments(c0).now, DeliverySteps(config, moments, c, claim))
  {
    assert moments(c0).now <= moments(c + 1).now && moments(c0).now <= moments(c + 2).now;
  }

  lemma {:induction false} BatchIsNotBefore(
    config: Config, moments: nat -> Moment, c0: nat, c: nat, claims: seq<ClaimedEvent>, token: nat)
    requires Steady(moments) && c0 <= c
    ensures AllNotBefore(token, moments(c0).now, BatchSteps(config, moments, c, claims))
    decreases |claims|
  {
    if claims != [] {
      DeliveryIsNotBefore(config, moments, c0, c + 1, claims[0], token);
      BatchIsNotBefore(config, moments, c0, AfterClaim(config, moments, c, claims[0]), claims[1..], token);
    }
  }

  lemma PlanIsNotBefore(config: Config, moments: nat -> Moment, cy: Cycle)
    requires Steady(moments)
    ensures AllNotBefore(cy.token, moments(cy.clock).now, Plan(config, moments, cy))
  {
    BatchIsNotBefore(config, moments, cy.clock, cy.clock + 2, cy.claims, cy.token);
  }

  // ----- What that means for the table -----

  /** Every row held under the token was claimed at asOf. */
  ghost predicate ClaimedAt(t: Table, token: nat, asOf: Instant) {
    forall id: nat :: Owns(t, id, token) ==> t.rows[id].state.claimedAt == asOf
  }

  lemma StepKeepsClaimedAt(max: int, s: Sys, l: Label, token: nat, asOf: Instant)
    requires ClaimedAt(s.table, token, asOf) && (Foreign(token, l) || NotBefore(token, asOf, l))
    ensures ClaimedAt(Do(max, s, l).table, token, asOf)
  {
  }

  lemma OwnStepIsTimely(s: Sys, l: Label, token: nat, asOf: Instant, event: nat)
    requires ClaimedAt(s.table, token, asOf) && !Foreign(token, l) && NotBefore(token, asOf, l)
    ensures Timely(event, s, l)
  {
  }

  /** Among the labels of a trace, those of the others are timely. */
  predicate OthersTimely(max: int, token: nat, event: nat, s: Sys, trace: seq<Label>)
    decreases |trace|
  {
    trace == []
    || ((Foreign(token, trace[0]) ==> Timely(event, s, trace[0]))
        && OthersTimely(max, token, event, Do(max, s, trace[0]), trace[1..]))
  }

  lemma {:induction false} RanIsTimely(
    max: int, token: nat, asOf: Instant, event: nat, s: Sys, trace: seq<Label>, own: seq<Label>, s': Sys)
    requires Ran(max, token, s, trace, own, s') && ClaimedAt(s.table, token, asOf) && AllNotBefore(token, asOf, own)
    requires OthersTimely(max, token, event, s, trace)
    ensures TimelyRun(max, event, s, trace) && ClaimedAt(s'.table, token, asOf)
    decreases |trace|
  {
    if trace != [] {
      var l, next := trace[0], Do(max, s, trace[0]);
      assert LeadsTo(max, s, l, next);
      if !Foreign(token, l) {
        assert own[0] == l && l in own;
        OwnStepIsTimely(s, l, token, asOf, event);
      }
      StepKeepsClaimedAt(max, s, l, token, asOf);
      RanIsTimely(max, token, asOf, event, next, trace[1..], if Foreign(token, l) then own else own[1..], s');
    }
  }

  /** However far it came, a cycle of a worker whose clock never goes back is timely for every event, if the
    * steps of the others are. */
  lemma SteadyWorkersAreTimely(config: Config, max: int, moments: nat -> Moment, cy: Cycle, event: nat)
    requires Good(max, cy.start) && Follows(config, max, moments, cy) && Steady(moments)
    requires OthersTimely(max, cy.token, event, cy.start, cy.trace)
    ensures TimelyRun(max, event, cy.start, cy.trace)
    ensures ClaimedAt(cy.end.table, cy.token, moments(cy.clock).now)
  {
    PrefixNotBefore(config, moments, cy);
    RanIsTimely(max, cy.token, moments(cy.clock).now, event, cy.start, cy.trace, cy.own, cy.end);
  }

  lemma PrefixNotBefore(config: Config, moments: nat -> Moment, cy: Cycle)
    requires Steady(moments) && cy.own <= Plan(config, moments, cy)
    ensures AllNotBefore(cy.token, moments(cy.clock).now, cy.own)
  {
    PlanIsNotBefore(config, moments, cy);
    var plan := Plan(config, moments, cy);
    forall l | l in cy.own ensures NotBefore(cy.token, moments(cy.clock).now, l) {
      var i :| 0 <= i < |cy.own| && cy.own[i] == l;
      assert plan[i] == l;
    }
  }

  lemma DatedAfter(max: int, event: nat, before: seq<Label>, trace: seq<Label>)
    requires TimelyRun(max, event, EMPTY, before) && TimelyRun(max, event, DoAll(max, EMPTY, before), trace)
    ensures Dated(DoAll(max, DoAll(max, EMPTY, before), trace).table.rows, event)
  {
    TimelyRunsKeepDated(max, event, EMPTY, before);
    TimelyRunsKeepDated(max, event, DoAll(max, EMPTY, before), trace);
  }

  lemma NextNotBefore(config: Config, moments: nat -> Moment, cy: Cycle, h: Handle, at: Instant)
    requires Steady(moments) && |cy.own| < |Plan(config, moments, cy)|
    requires Plan(config, moments, cy)[|cy.own|] == Acknowledge(h, at)
    ensures moments(cy.clock).now <= at
  {
    PlanIsNotBefore(config, moments, cy);
    assert Acknowledge(h, at) in Plan(config, moments, cy);
  }

  /** After any timely run and amid timely steps of the others, a worker whose clock never goes back is not refused an
    * acknowledgement: the next one it plans is dated no earlier than the event whose row it owns. */
  lemma SteadyWorkerIsNeverRefused(
    config: Config, max: int, moments: nat -> Moment, before: seq<Label>, cy: Cycle, h: Handle, at: Instant)
    requires cy.start == DoAll(max, EMPTY, before) && TimelyRun(max, h.event, EMPTY, before)
    requires Follows(config, max, moments, cy) && Steady(moments)
    requires OthersTimely(max, cy.token, h.event, cy.start, cy.trace)
    requires |cy.own| < |Plan(config, moments, cy)| && Plan(config, moments, cy)[|cy.own|] == Acknowledge(h, at)
    requires h.token == cy.token && Owns(cy.end.table, h.event, h.token)
    ensures cy.end.table.rows[h.event].occurredAt <= at
    ensures MarkedPublished(cy.end.table, h.event, h.token, at).rows[h.event].state == Published(at)
  {
    EmptyIsGood(max);
    RunsKeepGood(max, EMPTY, before);
    SteadyWorkersAreTimely(config, max, moments, cy, h.event);
    RanIsRun(max, cy.token, cy.start, cy.trace, cy.own, cy.end);
    DatedAfter(max, h.event, before, cy.trace);
    NextNotBefore(config, moments, cy, h, at);
  }
}
