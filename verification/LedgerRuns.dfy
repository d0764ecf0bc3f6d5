/** Whole runs of commands and archivals on one book: safety, idempotency and retention. */
module LedgerRuns {
  import opened Wrappers
  import opened Facts
  import opened Balances
  import opened Corrections
  import opened Commands
  import opened PartialReplay
  import opened LedgerBook
  import LedgerLaws
  import Replay

  datatype Step = Run(req: Request, env: Readings) | ArchiveBy(owner: nat)

  ghost function After(b: Book, step: Step): Book {
    match step
    case Run(req, env) => Execute(b, req, env).0
    case ArchiveBy(owner) => Archive(b, owner)
  }

  ghost function AfterAll(b: Book, steps: seq<Step>): Book
    decreases |steps|
  {
    if steps == [] then b else AfterAll(After(b, steps[0]), steps[1..])
  }

  ghost predicate FreshStep(b: Book, step: Step) {
    step.Run? ==> FreshIds(b.facts, b.corrections, step.env)
  }

  ghost predicate FreshSteps(b: Book, steps: seq<Step>)
    decreases |steps|
  {
    steps != [] ==> FreshStep(b, steps[0]) && FreshSteps(After(b, steps[0]), steps[1..])
  }

  // ----- Safety of every run -----

  lemma StepKeepsInv(b: Book, step: Step)
    requires Inv(b) && FreshStep(b, step)
    ensures Inv(After(b, step))
  {
    if step.Run? { ExecuteKeepsInv(b, step.req, step.env); }
  }

  /** Every reachable ledger replays cleanly in full, is numbered 1..n without gaps and matches its outbox. */
  lemma {:induction false} RunsKeepInv(b: Book, steps: seq<Step>)
    requires Inv(b) && FreshSteps(b, steps)
    ensures Inv(AfterAll(b, steps))
    decreases |steps|
  {
    if steps != [] {
      StepKeepsInv(b, steps[0]);
      RunsKeepInv(After(b, steps[0]), steps[1..]);
    }
  }

  /** History is only ever extended, and not at all once the portfolio is archived. */
  ghost predicate Extends(b: Book, b': Book) {
    && b'.id == b.id && b'.owner == b.owner
    && b.facts <= b'.facts && b.corrections <= b'.corrections && b.events <= b'.events
    && (b.archived ==> b'.archived && b'.facts == b.facts && b'.corrections == b.corrections && b'.events == b.events
                       && b'.nextSequence == b.nextSequence && b'.keys == b.keys)
  }

  lemma StepExtends(b: Book, step: Step)
    ensures Extends(b, After(b, step))
  {
  }

  lemma {:induction false} RunsExtend(b: Book, steps: seq<Step>)
    ensures Extends(b, AfterAll(b, steps))
    decreases |steps|
  {
    if steps != [] {
      StepExtends(b, steps[0]);
      RunsExtend(After(b, steps[0]), steps[1..]);
    }
  }

  /** A rejected or answered command writes nothing: no fact, no sequence, no key and no event. */
  lemma OnlyAcceptedCommandsWrite(b: Book, req: Request, env: Readings)
    ensures var (b', outcome) := Execute(b, req, env);
            && (outcome.Rejected? || outcome.Answered? ==> b' == b)
            && (b' == b || outcome.Recorded? || outcome.Corrected?)
  {
  }

  predicate Accepted(outcome: Outcome) {
    outcome.Recorded? || outcome.Corrected?
  }

  /** An accepted command is the write of a draft that the full replay accepts. */
  lemma AcceptedIsWrite(b: Book, req: Request, env: Readings) returns (n: CommandInput, d: Draft)
    requires Sequenced(b.id, b.facts, b.nextSequence) && Accepted(Execute(b, req, env).1)
    ensures Prepare(b.id, b.owner, req, env.now) == Result<CommandInput, Rejection>.Success(n)
    ensures IsDraft(b, req, env, d) && UnexpiredKey(b.keys, KeyOf(req), env.lookupAt).None? && !b.archived
    ensures FullCheck(b.facts, d.candidates).Accepted?
    ensures Execute(b, req, env) == (Write(b, KeyOf(req), DigestOf(req, n), env, d), d.outcome)
  {
    n := Prepare(b.id, b.owner, req, env.now).value;
    var command := ResolveCommand(n, env.lookup, env.now).value;
    d := DraftOf(b.facts, b.corrections, req, env, b.nextSequence, command).value;
    DraftShape(b, req, env, command);
  }

  ghost predicate IsQuantityRejection(outcome: Outcome) {
    outcome == Rejected(InsufficientOrderedQuantity) || outcome == Rejected(InvalidBackdatedLedger)
  }

  lemma QuantityRejectionIsCheck(b: Book, req: Request, env: Readings) returns (d: Draft)
    requires Sequenced(b.id, b.facts, b.nextSequence) && IsQuantityRejection(Execute(b, req, env).1)
    ensures IsDraft(b, req, env, d) && !FullCheck(b.facts, d.candidates).Accepted?
    ensures Execute(b, req, env).1 == Rejected(CheckRejection(FullCheck(b.facts, d.candidates)))
  {
    var n := Prepare(b.id, b.owner, req, env.now).value;
    var command := ResolveCommand(n, env.lookup, env.now).value;
    d := DraftOf(b.facts, b.corrections, req, env, b.nextSequence, command).value;
    DraftShape(b, req, env, command);
  }

  /** A quantity rejection names the culprit: "insufficient" when the command's own fact is the first to
    * overdraw its stream, "backdated" when an existing fact is, at or after a fact of the command. */
  lemma RejectionTellsBlame(b: Book, req: Request, env: Readings) returns (d: Draft, f: Fact)
    requires Inv(b) && IsQuantityRejection(Execute(b, req, env).1)
    ensures IsDraft(b, req, env, d) && FirstNegative(b.facts + d.candidates, f)
    ensures Execute(b, req, env).1 == Rejected(InsufficientOrderedQuantity) <==> f in d.candidates
    ensures Execute(b, req, env).1 == Rejected(InvalidBackdatedLedger) <==>
              f !in d.candidates && Replay.AtOrAfterCandidate(d.candidates, f)
  {
    d := QuantityRejectionIsCheck(b, req, env);
    f := BlameOfCheck(b.facts, d.candidates);
  }

  lemma BlameOfCheck(facts: seq<Fact>, candidates: seq<Fact>) returns (f: Fact)
    requires Sound(facts)
    requires FullCheck(facts, candidates).QuantityInsufficient? || FullCheck(facts, candidates).LedgerBackdated?
    ensures FirstNegative(facts + candidates, f)
    ensures FullCheck(facts, candidates).QuantityInsufficient? <==> f in candidates
    ensures FullCheck(facts, candidates).LedgerBackdated? <==>
              f !in candidates && Replay.AtOrAfterCandidate(candidates, f)
  {
    var all := facts + candidates;
    f := LedgerLaws.FirstNegativeExists(all);
    LedgerLaws.BlameIsAssigned(facts, candidates, f);
    forall g | FirstNegative(all, g) ensures g == f { FirstNegativeIsUnique(all, f, g); }
  }

  /** An accepted command was validated against exactly the facts with smaller sequences. */
  lemma ValidatedAgainstPredecessors(b: Book, req: Request, env: Readings)
    requires Inv(b) && FreshIds(b.facts, b.corrections, env) && Accepted(Execute(b, req, env).1)
    ensures var b' := Execute(b, req, env).0;
            && b.facts < b'.facts && |b'.facts| == |b.facts| + (if req.correction then 2 else 1)
            && Sound(b'.facts)
            && (forall f :: f in b'.facts ==> (f.sequence < b.nextSequence <==> f in b.facts))
            && |b'.events| == |b.events| + 1
  {
    var n, d := AcceptedIsWrite(b, req, env);
    PredecessorsOfWrite(b, req, KeyOf(req), DigestOf(req, n), env, d);
  }

  lemma PredecessorsOfWrite(b: Book, req: Request, k: KeyId, digest: Digest, env: Readings, d: Draft)
    requires Sequenced(b.id, b.facts, b.nextSequence) && IsDraft(b, req, env, d) && Sound(b.facts + d.candidates)
    ensures var b' := Write(b, k, digest, env, d);
            && b.facts < b'.facts && |b'.facts| == |b.facts| + (if req.correction then 2 else 1)
            && Sound(b'.facts)
            && (forall f :: f in b'.facts ==> (f.sequence < b.nextSequence <==> f in b.facts))
            && |b'.events| == |b.events| + 1
  {
    var b' := Write(b, k, digest, env, d);
    assert |d.candidates| == (if req.correction then 2 else 1);
    assert forall c :: c in d.candidates ==> c.sequence >= b.nextSequence;
    assert b'.facts == b.facts + d.candidates;
  }

  // ----- Idempotency -----

  /** What a matching retry must be told about an accepted command. */
  function RetryAnswer(outcome: Outcome): Outcome
    requires Accepted(outcome)
  {
    match outcome
    case Recorded(f) => Answered(f, None)
    case Corrected(facts) => Answered(facts.replacement, Some(facts))
  }

  /** No lookup of key k in these steps happens at or after the instant `until`. */
  ghost predicate QuietUntil(steps: seq<Step>, k: KeyId, until: Instant) {
    forall i :: 0 <= i < |steps| && steps[i].Run? && KeyOf(steps[i].req) == k ==> steps[i].env.lookupAt < until
  }

  lemma StepKeepsKey(b: Book, step: Step, k: KeyId)
    requires k in b.keys
    requires step.Run? && KeyOf(step.req) == k ==> step.env.lookupAt < b.keys[k].expiresAt
    ensures var b' := After(b, step); k in b'.keys && b'.keys[k] == b.keys[k]
  {
  }

  lemma {:induction false} RunsKeepKey(b: Book, steps: seq<Step>, k: KeyId)
    requires k in b.keys && QuietUntil(steps, k, b.keys[k].expiresAt)
    ensures var b' := AfterAll(b, steps); k in b'.keys && b'.keys[k] == b.keys[k]
    decreases |steps|
  {
    if steps != [] {
      StepKeepsKey(b, steps[0], k);
      RunsKeepKey(After(b, steps[0]), steps[1..], k);
    }
  }

  lemma FindInPrefix(facts: seq<Fact>, f: Fact)
    requires UniqueIds(facts) && f in facts
    ensures FindFact(facts, f.id) == Some(f)
  {
  }

  lemma FindCorrectionIn(corrections: seq<Correction>, c: Correction)
    requires OnePerOriginal(corrections) && c in corrections
    ensures FindCorrection(corrections, c.id) == Some(c)
  {
  }

  /** The row an accepted command leaves behind leads back to its own outcome. */
  ghost predicate RowAnswers(b: Book, k: KeyId, digest: Digest, completedAt: Instant, outcome: Outcome)
    requires Accepted(outcome)
  {
    && k in b.keys && b.keys[k].expiresAt == completedAt + RETENTION && b.keys[k].digest == digest
    && match outcome
       case Recorded(f) => f in b.facts && b.keys[k].primary == f.id && b.keys[k].correction == 0
       case Corrected(c) =>
         && c.replacement in b.facts && c.reversal in b.facts && c.relationship in b.corrections
         && b.keys[k].primary == c.replacement.id && b.keys[k].correction == c.relationship.id
         && c.relationship.reversal == c.reversal.id && c.relationship.replacement == c.replacement.id
         && c.relationship.id != 0
  }

  lemma AcceptedLeavesRow(b: Book, req: Request, env: Readings)
    requires Inv(b) && FreshIds(b.facts, b.corrections, env) && Accepted(Execute(b, req, env).1)
    ensures Prepare(b.id, b.owner, req, env.now).Success?
    ensures var n := Prepare(b.id, b.owner, req, env.now).value;
            RowAnswers(Execute(b, req, env).0, KeyOf(req), DigestOf(req, n), env.completedAt, Execute(b, req, env).1)
    ensures Inv(Execute(b, req, env).0)
    ensures Execute(b, req, env).0.keys[KeyOf(req)].createdAt == env.completedAt
    ensures UnexpiredKey(b.keys, KeyOf(req), env.lookupAt).None?
  {
    var n, d := AcceptedIsWrite(b, req, env);
    WriteLeavesRow(b, req, KeyOf(req), DigestOf(req, n), env, d);
    ExecuteKeepsInv(b, req, env);
  }

  lemma WriteLeavesRow(b: Book, req: Request, k: KeyId, digest: Digest, env: Readings, d: Draft)
    requires IsDraft(b, req, env, d)
    ensures Accepted(d.outcome) && RowAnswers(Write(b, k, digest, env, d), k, digest, env.completedAt, d.outcome)
  {
    var b' := Write(b, k, digest, env, d);
    if req.correction {
      var o, r, p, c :| IsCorrectionDraft(b, req, env, d, o, r, p, c);
      assert b'.facts[|b.facts|] == r && b'.facts[|b.facts| + 1] == p && b'.corrections[|b.corrections|] == c;
    } else {
      var f :| IsCreationDraft(b, env, d, f);
      assert b'.facts[|b.facts|] == f;
    }
  }

  lemma RowGivesAnswer(b: Book, k: KeyId, digest: Digest, completedAt: Instant, outcome: Outcome)
    requires UniqueIds(b.facts) && CorrectionsMatch(b.facts, b.corrections) && Accepted(outcome)
    requires RowAnswers(b, k, digest, completedAt, outcome)
    ensures Answer(b.facts, b.corrections, digest, b.keys[k]) == RetryAnswer(outcome)
  {
    match outcome
    case Recorded(f) =>
      FindInPrefix(b.facts, f);
    case Corrected(c) =>
      FindInPrefix(b.facts, c.replacement);
      FindInPrefix(b.facts, c.reversal);
      FindCorrectionIn(b.corrections, c.relationship);
  }

  lemma RowAnswersLater(b: Book, steps: seq<Step>, k: KeyId, digest: Digest, completedAt: Instant, outcome: Outcome)
    requires Accepted(outcome) && RowAnswers(b, k, digest, completedAt, outcome)
    requires QuietUntil(steps, k, completedAt + RETENTION)
    ensures RowAnswers(AfterAll(b, steps), k, digest, completedAt, outcome)
  {
    RunsExtend(b, steps);
    RunsKeepKey(b, steps, k);
    var b' := AfterAll(b, steps);
    forall f | f in b.facts ensures f in b'.facts {
      var i :| 0 <= i < |b.facts| && b.facts[i] == f;
      assert b'.facts[i] == f;
    }
    forall c | c in b.corrections ensures c in b'.corrections {
      var i :| 0 <= i < |b.corrections| && b.corrections[i] == c;
      assert b'.corrections[i] == c;
    }
  }

  /** A matching retry within the retention period gets the original answer and writes nothing,
    * whatever other commands, later corrections or archivals came between. */
  lemma RetryAnswersTheSame(b: Book, req: Request, env: Readings, b1: Book, outcome: Outcome,
                            steps: seq<Step>, b2: Book, retry: Request, env': Readings)
    requires Inv(b) && FreshIds(b.facts, b.corrections, env)
    requires Execute(b, req, env) == (b1, outcome) && Accepted(outcome)
    requires FreshSteps(b1, steps) && QuietUntil(steps, KeyOf(req), env.completedAt + RETENTION)
             && b2 == AfterAll(b1, steps)
    requires KeyOf(retry) == KeyOf(req) && env'.lookupAt < env.completedAt + RETENTION
    requires SameCommand(b, req, env, retry, env')
    ensures Execute(b2, retry, env') == (b2, RetryAnswer(outcome))
  {
    AcceptedLeavesRow(b, req, env);
    StepExtends(b, Run(req, env));
    RetryAfterRow(b1, KeyOf(req), DigestOf(req, Prepare(b.id, b.owner, req, env.now).value), env.completedAt, outcome,
                  steps, retry, env');
  }

  /** Both requests are acceptable to the same owner and have the same fingerprint. */
  ghost predicate SameCommand(b: Book, req: Request, env: Readings, retry: Request, env': Readings) {
    var n, n' := Prepare(b.id, b.owner, req, env.now), Prepare(b.id, b.owner, retry, env'.now);
    n.Success? && n'.Success? && DigestOf(req, n.value) == DigestOf(retry, n'.value)
  }

  lemma RetryAfterRow(
    b: Book, k: KeyId, digest: Digest, completedAt: Instant, outcome: Outcome, steps: seq<Step>, retry: Request,
    env': Readings)
    requires Inv(b) && Accepted(outcome) && RowAnswers(b, k, digest, completedAt, outcome)
    requires FreshSteps(b, steps) && QuietUntil(steps, k, completedAt + RETENTION)
    requires KeyOf(retry) == k && env'.lookupAt < completedAt + RETENTION
    requires Prepare(b.id, b.owner, retry, env'.now).Success?
    requires DigestOf(retry, Prepare(b.id, b.owner, retry, env'.now).value) == digest
    ensures Execute(AfterAll(b, steps), retry, env') == (AfterAll(b, steps), RetryAnswer(outcome))
  {
    var b' := AfterAll(b, steps);
    RunsKeepInv(b, steps);
    RunsExtend(b, steps);
    RowAnswersLater(b, steps, k, digest, completedAt, outcome);
    RetryOfRow(b', k, digest, completedAt, outcome, retry, env');
  }

  lemma RetryOfRow(
    b: Book, k: KeyId, digest: Digest, completedAt: Instant, outcome: Outcome, retry: Request, env': Readings)
    requires Inv(b) && Accepted(outcome) && RowAnswers(b, k, digest, completedAt, outcome)
    requires KeyOf(retry) == k && env'.lookupAt < completedAt + RETENTION
    requires Prepare(b.id, b.owner, retry, env'.now).Success?
    requires DigestOf(retry, Prepare(b.id, b.owner, retry, env'.now).value) == digest
    ensures Execute(b, retry, env') == (b, RetryAnswer(outcome))
  {
    RowGivesAnswer(b, k, digest, completedAt, outcome);
  }

  /** Within the retention period any other command under the key of an accepted one is refused as a conflict and writes
    * nothing, whatever came between. */
  lemma ReusedKeyConflicts(b: Book, req: Request, env: Readings, b1: Book, outcome: Outcome,
                           steps: seq<Step>, b2: Book, other: Request, env': Readings)
    requires Inv(b) && FreshIds(b.facts, b.corrections, env)
    requires Execute(b, req, env) == (b1, outcome) && Accepted(outcome)
    requires FreshSteps(b1, steps) && QuietUntil(steps, KeyOf(req), env.completedAt + RETENTION)
             && b2 == AfterAll(b1, steps)
    requires KeyOf(other) == KeyOf(req) && env'.lookupAt < env.completedAt + RETENTION
    requires Prepare(b.id, b.owner, other, env'.now).Success? && !SameCommand(b, req, env, other, env')
    ensures Execute(b2, other, env') == (b2, Rejected(IdempotencyConflict))
  {
    AcceptedLeavesRow(b, req, env);
    StepExtends(b, Run(req, env));
    RunsExtend(b1, steps);
    RowAnswersLater(b1, steps, KeyOf(req), DigestOf(req, Prepare(b.id, b.owner, req, env.now).value), env.completedAt,
                    outcome);
  }

  /** Within one command the clock does not run backwards. */
  ghost predicate ForwardClock(steps: seq<Step>) {
    forall i :: 0 <= i < |steps| && steps[i].Run? ==> steps[i].env.lookupAt <= steps[i].env.completedAt
  }

  lemma StepKeepsKeyAge(b: Book, step: Step, k: KeyId, since: Instant)
    requires Inv(b) && FreshStep(b, step)
    requires k in b.keys && since <= b.keys[k].createdAt
    requires step.Run? ==> step.env.lookupAt <= step.env.completedAt
    ensures var b' := After(b, step); k in b'.keys && since <= b'.keys[k].createdAt
    ensures step.Run? && KeyOf(step.req) == k && Accepted(Execute(b, step.req, step.env).1) ==>
              step.env.lookupAt >= since + RETENTION
  {
    assert KeyMatches(b.facts, b.corrections, k, b.keys[k]);
    if step.Run? {
      OnlyAcceptedCommandsWrite(b, step.req, step.env);
      if Accepted(Execute(b, step.req, step.env).1) {
        var n, d := AcceptedIsWrite(b, step.req, step.env);
        WriteAfterExpiry(b, KeyOf(step.req), DigestOf(step.req, n), step.env, d, k, since);
      }
    }
  }

  lemma WriteAfterExpiry(b: Book, written: KeyId, digest: Digest, env: Readings, d: Draft, k: KeyId, since: Instant)
    requires k in b.keys && since <= b.keys[k].createdAt && b.keys[k].expiresAt == b.keys[k].createdAt + RETENTION
    requires UnexpiredKey(b.keys, written, env.lookupAt).None? && env.lookupAt <= env.completedAt
    ensures var b' := Write(b, written, digest, env, d); k in b'.keys && since <= b'.keys[k].createdAt
    ensures written == k ==> env.lookupAt >= since + RETENTION
  {
  }

  lemma {:induction false} RunsKeepKeyAge(b: Book, steps: seq<Step>, k: KeyId, since: Instant)
    requires Inv(b) && FreshSteps(b, steps) && ForwardClock(steps)
    requires k in b.keys && since <= b.keys[k].createdAt
    ensures var b' := AfterAll(b, steps); k in b'.keys && since <= b'.keys[k].createdAt
    decreases |steps|
  {
    if steps != [] {
      StepKeepsKeyAge(b, steps[0], k, since);
      StepKeepsInv(b, steps[0]);
      RunsKeepKeyAge(After(b, steps[0]), steps[1..], k, since);
    }
  }

  /** Two commands that write under one key are at least 8760 hours apart. */
  lemma WritesUnderOneKeyAreApart(b: Book, req: Request, env: Readings, steps: seq<Step>, req': Request, env': Readings)
    requires Inv(b) && FreshIds(b.facts, b.corrections, env) && Accepted(Execute(b, req, env).1)
    requires var b1 := Execute(b, req, env).0;
             FreshSteps(b1, steps) && FreshIds(AfterAll(b1, steps).facts, AfterAll(b1, steps).corrections, env')
    requires ForwardClock(steps) && env'.lookupAt <= env'.completedAt && KeyOf(req') == KeyOf(req)
    requires Accepted(Execute(AfterAll(Execute(b, req, env).0, steps), req', env').1)
    ensures env'.lookupAt >= env.completedAt + RETENTION
  {
    var b1 := Execute(b, req, env).0;
    AcceptedLeavesRow(b, req, env);
    RunsKeepInv(b1, steps);
    RunsKeepKeyAge(b1, steps, KeyOf(req), env.completedAt);
    StepKeepsKeyAge(AfterAll(b1, steps), Run(req', env'), KeyOf(req), env.completedAt);
  }
}
