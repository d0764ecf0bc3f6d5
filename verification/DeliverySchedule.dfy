/** What a claim cycle does at which moment, claim by claim, and that no call is started after its lease. */
module DeliverySchedule {
  import opened Wrappers
  import opened Outbox
  import opened OutboxRuns
  import opened RetryCap
  import opened Delivery

  /** The claim is reached at moment c, leads to these steps, and the next one is reached at moment c'. */
  predicate IsHandled(
    config: Config, moments: nat -> Moment, c: nat, claim: ClaimedEvent, steps: seq<Label>, c': nat)
  {
    var h, max := Handle(claim.id, claim.token), config.maxInvocations as int;
    if claim.leaseExpiresAt <= moments(c).now then steps == [] && c' == c + 1
    else if claim.attempt > max then steps == [GiveUp(h, "delivery_attempts_exhausted")] && c' == c + 2
    else if moments(c + 1).succeeds then
      steps == [Start(h), Succeed(h), Acknowledge(h, moments(c + 2).now)] && c' == c + 4
    else if claim.leaseExpiresAt <= moments(c + 2).now then steps == [Start(h), Fail(h)] && c' == c + 3
    else if claim.attempt == max then
      steps == [Start(h), Fail(h), GiveUp(h, "delivery_attempts_exhausted")] && c' == c + 4
    else
      && c' == c + 5
      && steps == [Start(h), Fail(h)]
                  + if IsDelay(config, moments(c + 2).jitter, claim.attempt)
                    then [Retry(h, moments(c + 3).now + moments(c + 2).jitter, "delivery_failed")] else []
  }

  /** Between nothing and the base delay, doubled with each attempt up to the greatest delay. */
  predicate IsDelay(config: Config, delay: int, attempt: int) {
    && attempt >= 1 && 0 <= delay <= config.maxDelay as int
    && delay <= config.baseDelay as int * Pow2(attempt - 1)
  }

  lemma DelayMeans(config: Config, delay: int, attempt: int)
    ensures IsDelay(config, delay, attempt) <==> JitterFits(config, delay, attempt)
  {
  }

  /** Claim j is reached at moment times[j] and leads to parts[j]. */
  ghost predicate IsSchedule(
    config: Config, moments: nat -> Moment, c: nat, claims: seq<ClaimedEvent>, times: seq<nat>,
    parts: seq<seq<Label>>)
  {
    && |times| == |claims| + 1 && |parts| == |claims| && times[0] == c
    && forall j :: 0 <= j < |claims| ==> IsPart(config, moments, claims, times, parts, j)
  }

  predicate IsPart(
    config: Config, moments: nat -> Moment, claims: seq<ClaimedEvent>, times: seq<nat>, parts: seq<seq<Label>>, j: nat)
    requires j < |claims| == |parts| == |times| - 1
  {
    IsHandled(config, moments, times[j], claims[j], parts[j], times[j + 1])
  }

  function Joined(parts: seq<seq<Label>>): seq<Label> {
    if parts == [] then [] else parts[0] + Joined(parts[1..])
  }

  lemma StepsAreHandled(config: Config, moments: nat -> Moment, c: nat, claim: ClaimedEvent)
    ensures IsHandled(config, moments, c, claim, ClaimSteps(config, moments, c, claim),
                      AfterClaim(config, moments, c, claim))
  {
    DelayMeans(config, moments(c + 2).jitter, claim.attempt);
  }

  lemma HandledOnce(
    config: Config, moments: nat -> Moment, c: nat, claim: ClaimedEvent, steps: seq<Label>, c': nat)
    requires IsHandled(config, moments, c, claim, steps, c')
    ensures steps == ClaimSteps(config, moments, c, claim) && c' == AfterClaim(config, moments, c, claim)
  {
    StepsAreHandled(config, moments, c, claim);
  }

  /** There is a schedule, and it is the plan. */
  lemma {:induction false} PlanIsScheduled(config: Config, moments: nat -> Moment, c: nat, claims: seq<ClaimedEvent>)
    returns (times: seq<nat>, parts: seq<seq<Label>>)
    ensures IsSchedule(config, moments, c, claims, times, parts)
    decreases |claims|
  {
    if claims == [] {
      times, parts := [c], [];
    } else {
      var next := AfterClaim(config, moments, c, claims[0]);
      var t, p := PlanIsScheduled(config, moments, next, claims[1..]);
      times, parts := [c] + t, [ClaimSteps(config, moments, c, claims[0])] + p;
      StepsAreHandled(config, moments, c, claims[0]);
      forall j | 0 <= j < |claims| ensures IsPart(config, moments, claims, times, parts, j) {
        if j > 0 {
          assert IsPart(config, moments, claims[1..], t, p, j - 1);
          assert claims[1..][j - 1] == claims[j];
        }
      }
    }
  }

  lemma RestIsScheduled(
    config: Config, moments: nat -> Moment, c: nat, claims: seq<ClaimedEvent>, times: seq<nat>,
    parts: seq<seq<Label>>)
    requires claims != [] && IsSchedule(config, moments, c, claims, times, parts)
    ensures parts[0] == ClaimSteps(config, moments, c, claims[0])
    ensures IsSchedule(config, moments, AfterClaim(config, moments, c, claims[0]), claims[1..], times[1..], parts[1..])
  {
    assert IsPart(config, moments, claims, times, parts, 0);
    HandledOnce(config, moments, c, claims[0], parts[0], times[1]);
    forall j | 0 <= j < |claims| - 1 ensures IsPart(config, moments, claims[1..], times[1..], parts[1..], j) {
      assert IsPart(config, moments, claims, times, parts, j + 1);
    }
  }

  lemma {:induction false} ScheduleIsPlan(
    config: Config, moments: nat -> Moment, c: nat, claims: seq<ClaimedEvent>, times: seq<nat>,
    parts: seq<seq<Label>>)
    requires IsSchedule(config, moments, c, claims, times, parts)
    ensures Joined(parts) == BatchSteps(config, moments, c, claims)
    ensures times[|claims|] == AfterBatch(config, moments, c, claims)
    decreases |claims|
  {
    if claims != [] {
      RestIsScheduled(config, moments, c, claims, times, parts);
      ScheduleIsPlan(config, moments, AfterClaim(config, moments, c, claims[0]), claims[1..], times[1..], parts[1..]);
    }
  }

  // ----- Whole cycles -----

  /** When the leases of a cycle end. */
  function LeaseEnd(config: Config, moments: nat -> Moment, cy: Cycle): Instant {
    moments(cy.clock).now + config.lease as int
  }

  lemma PlanMeans(config: Config, moments: nat -> Moment, cy: Cycle, times: seq<nat>, parts: seq<seq<Label>>)
    requires IsSchedule(config, moments, cy.clock + 2, cy.claims, times, parts)
    ensures Plan(config, moments, cy)
            == [Claim(set c | c in cy.claims :: c.id, moments(cy.clock).now, cy.token,
                      LeaseEnd(config, moments, cy), config.batchSize as int)] + Joined(parts)
  {
    ScheduleIsPlan(config, moments, cy.clock + 2, cy.claims, times, parts);
  }

  /** Every cycle, completed or broken, is a claim and then, as far as it came, the schedule of what it claimed. */
  lemma CycleIsScheduled(config: Config, max: int, moments: nat -> Moment, cy: Cycle)
    returns (times: seq<nat>, parts: seq<seq<Label>>)
    requires Follows(config, max, moments, cy)
    ensures IsSchedule(config, moments, cy.clock + 2, cy.claims, times, parts)
    ensures cy.own <= [Claim(set c | c in cy.claims :: c.id, moments(cy.clock).now, cy.token,
                             LeaseEnd(config, moments, cy), config.batchSize as int)] + Joined(parts)
    ensures cy.own != [] ==> forall j :: 0 <= j < |cy.claims| ==>
              cy.claims[j].token == cy.token && cy.claims[j].leaseExpiresAt == LeaseEnd(config, moments, cy)
    ensures cy.own != [] ==> forall j, k :: 0 <= j < k < |cy.claims| ==> cy.claims[j].id != cy.claims[k].id
  {
    times, parts := PlanIsScheduled(config, moments, cy.clock + 2, cy.claims);
    PlanMeans(config, moments, cy, times, parts);
    if cy.own != [] {
      ClaimsAreUniform(config, moments, cy);
    }
  }

  lemma ClaimsAreUniform(config: Config, moments: nat -> Moment, cy: Cycle)
    requires ClaimsWhatIsDue(config, moments, cy)
    ensures forall j :: 0 <= j < |cy.claims| ==>
              cy.claims[j].token == cy.token && cy.claims[j].leaseExpiresAt == LeaseEnd(config, moments, cy)
    ensures forall j, k :: 0 <= j < k < |cy.claims| ==> cy.claims[j].id != cy.claims[k].id
  {
  }

  /** A completed cycle has taken all of it, by the moment the schedule ends. */
  lemma CompletedIsWhole(
    config: Config, max: int, moments: nat -> Moment, cy: Cycle, clock: nat, times: seq<nat>, parts: seq<seq<Label>>)
    requires ValidConfig(config) && Completed(config, max, moments, cy, clock)
    requires IsSchedule(config, moments, cy.clock + 2, cy.claims, times, parts)
    ensures cy.own == [Claim(set c | c in cy.claims :: c.id, moments(cy.clock).now, cy.token,
                             LeaseEnd(config, moments, cy), config.batchSize as int)] + Joined(parts)
    ensures clock == times[|cy.claims|]
  {
    PlanMeans(config, moments, cy, times, parts);
    ClockMeans(config, moments, cy, clock, times, parts);
  }

  lemma ClockMeans(
    config: Config, moments: nat -> Moment, cy: Cycle, clock: nat, times: seq<nat>, parts: seq<seq<Label>>)
    requires ValidConfig(config) && IsSchedule(config, moments, cy.clock + 2, cy.claims, times, parts)
    requires cy.own != []
    requires BatchEnded(config, moments, cy.token, cy.clock + 2, cy.claims, clock, cy.end.table, cy.own[1..], None)
    ensures clock == times[|cy.claims|]
  {
    ScheduleIsPlan(config, moments, cy.clock + 2, cy.claims, times, parts);
  }

  lemma {:induction false} Located(parts: seq<seq<Label>>, i: nat) returns (j: nat, k: nat)
    requires i < |Joined(parts)|
    ensures j < |parts| && k < |parts[j]| && parts[j][k] == Joined(parts)[i]
    ensures k + 1 < |parts[j]| ==> i + 1 < |Joined(parts)| && Joined(parts)[i + 1] == parts[j][k + 1]
  {
    if i < |parts[0]| {
      j, k := 0, i;
    } else {
      j, k := Located(parts[1..], i - |parts[0]|);
      j := j + 1;
    }
  }

  lemma {:induction false} TimesAdvance(
    config: Config, moments: nat -> Moment, c: nat, claims: seq<ClaimedEvent>, times: seq<nat>,
    parts: seq<seq<Label>>, j: nat)
    requires IsSchedule(config, moments, c, claims, times, parts) && j <= |claims|
    ensures c + j <= times[j] <= c + 5 * j
    decreases j
  {
    if j > 0 {
      TimesAdvance(config, moments, c, claims, times, parts, j - 1);
      assert IsPart(config, moments, claims, times, parts, j - 1);
    }
  }

  /** Every step of a cycle after its claim belongs to one claim. */
  lemma OwnIsOfOneClaim(
    config: Config, moments: nat -> Moment, c: nat, claims: seq<ClaimedEvent>, times: seq<nat>,
    parts: seq<seq<Label>>, own: seq<Label>, claim: Label, i: nat) returns (j: nat, k: nat)
    requires IsSchedule(config, moments, c, claims, times, parts) && own <= [claim] + Joined(parts) && 0 < i < |own|
    ensures j < |claims| && IsPart(config, moments, claims, times, parts, j)
    ensures k < |parts[j]| && parts[j][k] == own[i]
    ensures k + 1 < |parts[j]| && i + 1 < |own| ==> own[i + 1] == parts[j][k + 1]
  {
    var whole := Joined(parts);
    assert own[i] == whole[i - 1];
    j, k := Located(parts, i - 1);
    assert i + 1 < |own| ==> own[i + 1] == whole[i];
  }

  /** A call is started only after the clock was read, for that claim, before the end of the lease; the next moment
    * is the end of the call. */
  lemma StartsWithinLease(config: Config, max: int, moments: nat -> Moment, cy: Cycle, i: nat) returns (c: nat)
    requires Follows(config, max, moments, cy) && i < |cy.own| && cy.own[i].Start?
    ensures cy.clock + 2 <= c < cy.clock + 2 + 5 * |cy.claims|
    ensures moments(c).now < moments(cy.clock).now + config.lease as int
    ensures i + 1 < |cy.own| ==>
              cy.own[i + 1] == if moments(c + 1).succeeds then Succeed(cy.own[i].h) else Fail(cy.own[i].h)
  {
    var times, parts := CycleIsScheduled(config, max, moments, cy);
    c := StartOfSchedule(config, moments, cy.clock + 2, cy.claims, times, parts, cy.own, cy.own[0],
                         LeaseEnd(config, moments, cy), i);
  }

  lemma StartOfSchedule(
    config: Config, moments: nat -> Moment, c0: nat, claims: seq<ClaimedEvent>, times: seq<nat>,
    parts: seq<seq<Label>>, own: seq<Label>, claim: Label, lease: Instant, i: nat) returns (c: nat)
    requires IsSchedule(config, moments, c0, claims, times, parts) && own <= [claim] + Joined(parts) && claim.Claim?
    requires forall j :: 0 <= j < |claims| ==> claims[j].leaseExpiresAt == lease
    requires i < |own| && own[i].Start?
    ensures c0 <= c < c0 + 5 * |claims| && moments(c).now < lease
    ensures i + 1 < |own| ==> own[i + 1] == if moments(c + 1).succeeds then Succeed(own[i].h) else Fail(own[i].h)
  {
    var j, k := OwnIsOfOneClaim(config, moments, c0, claims, times, parts, own, claim, i);
    TimesAdvance(config, moments, c0, claims, times, parts, j);
    c := times[j];
  }

  predicate IsAbout(l: Label, id: nat, token: nat) {
    !l.Append? && !l.Claim? && l.h == Handle(id, token)
  }

  /** A claim reached at the end of its lease or later is left alone: no step of the cycle is about it. */
  lemma LateClaimHasNoStep(
    config: Config, max: int, moments: nat -> Moment, cy: Cycle, times: seq<nat>, parts: seq<seq<Label>>, j: nat,
    i: nat)
    requires Follows(config, max, moments, cy) && j < |cy.claims| && i < |cy.own|
    requires IsSchedule(config, moments, cy.clock + 2, cy.claims, times, parts)
    requires moments(times[j]).now >= moments(cy.clock).now + config.lease as int
    ensures !IsAbout(cy.own[i], cy.claims[j].id, cy.claims[j].token)
  {
    var t, p := CycleIsScheduled(config, max, moments, cy);
    ScheduleIsPlan(config, moments, cy.clock + 2, cy.claims, times, parts);
    ScheduleIsPlan(config, moments, cy.clock + 2, cy.claims, t, p);
    NoStepAbout(config, moments, cy.clock + 2, cy.claims, times, parts, cy.own, cy.own[0],
                LeaseEnd(config, moments, cy),
                j, i);
  }

  lemma NoStepAbout(
    config: Config, moments: nat -> Moment, c0: nat, claims: seq<ClaimedEvent>, times: seq<nat>,
    parts: seq<seq<Label>>, own: seq<Label>, claim: Label, lease: Instant, j: nat, i: nat)
    requires IsSchedule(config, moments, c0, claims, times, parts) && own <= [claim] + Joined(parts) && claim.Claim?
    requires j < |claims| && i < |own| && claims[j].leaseExpiresAt == lease <= moments(times[j]).now
    requires forall a, b :: 0 <= a < b < |claims| ==> claims[a].id != claims[b].id
    ensures !IsAbout(own[i], claims[j].id, claims[j].token)
  {
    if i > 0 {
      var a, k := OwnIsOfOneClaim(config, moments, c0, claims, times, parts, own, claim, i);
      assert IsPart(config, moments, claims, times, parts, j);
    }
  }

  /** Of what a completed cycle claimed it still owns at most events whose lease it saw run out, before the call or
    * after a failed one. */
  lemma StillOwnedIsLate(
    config: Config, max: int, moments: nat -> Moment, cy: Cycle, clock: nat, times: seq<nat>, parts: seq<seq<Label>>,
    id: nat) returns (j: nat)
    requires ValidConfig(config) && Completed(config, max, moments, cy, clock)
    requires IsSchedule(config, moments, cy.clock + 2, cy.claims, times, parts)
    requires exists c :: c in cy.claims && c.id == id
    requires id in cy.end.table.rows && IsHeldUnder(cy.end.table.rows[id].state, cy.token)
    ensures j < |cy.claims| && cy.claims[j].id == id && SawLeaseEnd(moments, times[j], cy.claims[j])
  {
    j := LateAt(config, moments, cy.clock + 2, cy.claims, times, parts, id);
  }

  predicate SawLeaseEnd(moments: nat -> Moment, c: nat, claim: ClaimedEvent) {
    || claim.leaseExpiresAt <= moments(c).now
    || (!moments(c + 1).succeeds && claim.leaseExpiresAt <= moments(c + 2).now)
  }

  lemma {:induction false} LateAt(
    config: Config, moments: nat -> Moment, c: nat, claims: seq<ClaimedEvent>, times: seq<nat>,
    parts: seq<seq<Label>>, id: nat) returns (j: nat)
    requires IsSchedule(config, moments, c, claims, times, parts) && id in LateClaims(config, moments, c, claims)
    ensures j < |claims| && claims[j].id == id && SawLeaseEnd(moments, times[j], claims[j])
    decreases |claims|
  {
    if claims[0].id == id && (ComesLate(moments, c, claims[0]) || FailsLate(config, moments, c + 1, claims[0])) {
      j := 0;
    } else {
      RestIsScheduled(config, moments, c, claims, times, parts);
      j := LateAt(config, moments, times[1], claims[1..], times[1..], parts[1..], id);
      j := j + 1;
    }
  }
}
