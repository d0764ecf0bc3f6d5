/** Concurrent Create, Correct and archive transactions on one portfolio, statement by statement.
  *
  * Every statement reads committed rows only (READ COMMITTED). Row and advisory locks are held to the
  * end of the transaction, in the order: portfolio share lock, idempotency key, sequence row, outbox
  * stream row. Uncommitted writes stay in the transaction until it commits.
  */
module Interleaving {
  import opened Wrappers
  import opened Facts
  import opened Balances
  import opened Corrections
  import opened Commands
  import opened PartialReplay
  import opened LedgerBook
  import opened LedgerRuns

  datatype Phase =
    | Begun
    | Owning(archived: bool)
    | KeyHeld(archived: bool, n: CommandInput)
    | Answering(n: CommandInput, row: KeyRow)
    | Resolved(n: CommandInput, command: Command)
    | Allocated(n: CommandInput, command: Command, first: int)
    | TargetRead(n: CommandInput, command: Command, first: int, target: Option<Fact>)
    | Reading(n: CommandInput, command: Command, first: int, draft: Draft, read: nat, existing: seq<Fact>)
    | Checked(n: CommandInput, command: Command, first: int, draft: Draft)
    | Announcing(n: CommandInput, command: Command, first: int, draft: Draft, position: int)
    | Finished(outcome: Outcome)
    | Aborted

  datatype ArchivePhase = Waiting | Holding | Ended

  datatype Tx =
    | CommandTx(req: Request, env: Readings, phase: Phase)
    | ArchiveTx(actor: nat, archivePhase: ArchivePhase)

  datatype Sys = Sys(
    db: Book,
    txs: map<nat, Tx>,
    shared: set<nat>,
    exclusive: Option<nat>,
    keyLocks: map<KeyId, nat>,
    sequenceLock: Option<nat>,
    streamLock: Option<nat>,
    log: seq<Step>)

  function Unlock(holder: Option<nat>, t: nat): Option<nat> {
    if holder == Some(t) then None else holder
  }

  /** The end of a transaction gives up all its locks. */
  function Release(s: Sys, t: nat): Sys {
    s.(shared := s.shared - {t},
       exclusive := Unlock(s.exclusive, t),
       keyLocks := map k | k in s.keyLocks && s.keyLocks[k] != t :: s.keyLocks[k],
       sequenceLock := Unlock(s.sequenceLock, t),
       streamLock := Unlock(s.streamLock, t))
  }

  predicate InPhase(s: Sys, t: nat) {
    t in s.txs && s.txs[t].CommandTx?
  }

  function Enter(s: Sys, t: nat, phase: Phase): Sys
    requires InPhase(s, t)
  {
    s.(txs := s.txs[t := s.txs[t].(phase := phase)])
  }

  function Finish(s: Sys, t: nat, outcome: Outcome): Sys
    requires InPhase(s, t)
  {
    Release(Enter(s, t, Finished(outcome)), t)
  }

  function PreparedFor(s: Sys, tx: Tx): Result<CommandInput, Rejection>
    requires tx.CommandTx?
  {
    Prepare(s.db.id, s.db.owner, tx.req, tx.env.now)
  }

  // ----- The statements of a command transaction -----

  ghost predicate StepOwn(s: Sys, t: nat, s': Sys) {
    && InPhase(s, t) && s.txs[t].phase.Begun? && s.exclusive.None?
    && s.txs[t].req.portfolio == s.db.id && s.txs[t].req.principal == s.db.owner
    && s' == Enter(s, t, Owning(s.db.archived)).(shared := s.shared + {t})
  }

  ghost predicate StepReject(s: Sys, t: nat, s': Sys) {
    && InPhase(s, t) && (s.txs[t].phase.Begun? || s.txs[t].phase.Owning?)
    && PreparedFor(s, s.txs[t]).Failure?
    && s' == Finish(s, t, Rejected(PreparedFor(s, s.txs[t]).error))
  }

  ghost predicate StepLockKey(s: Sys, t: nat, s': Sys) {
    && InPhase(s, t) && s.txs[t].phase.Owning?
    && PreparedFor(s, s.txs[t]).Success? && KeyOf(s.txs[t].req) !in s.keyLocks
    && s' == Enter(s, t, KeyHeld(s.txs[t].phase.archived, PreparedFor(s, s.txs[t]).value))
             .(keyLocks := s.keyLocks[KeyOf(s.txs[t].req) := t])
  }

  ghost predicate StepLookup(s: Sys, t: nat, s': Sys) {
    && InPhase(s, t) && s.txs[t].phase.KeyHeld?
    && var CommandTx(req, env, KeyHeld(archived, n)) := s.txs[t];
       var row := UnexpiredKey(s.db.keys, KeyOf(req), env.lookupAt);
       var command := ResolveCommand(n, env.lookup, env.now);
       s' == if row.Some? then Enter(s, t, Answering(n, row.value))
             else if archived then Finish(s, t, Rejected(PortfolioArchived))
             else if command.Failure? then Finish(s, t, Rejected(command.error))
             else Enter(s, t, Resolved(n, command.value))
  }

  ghost predicate StepAnswer(s: Sys, t: nat, s': Sys) {
    && InPhase(s, t) && s.txs[t].phase.Answering?
    && var CommandTx(req, _, Answering(n, row)) := s.txs[t];
       s' == Finish(s, t, Answer(s.db.facts, s.db.corrections, DigestOf(req, n), row))
  }

  ghost predicate StepAllocate(s: Sys, t: nat, s': Sys) {
    && InPhase(s, t) && s.txs[t].phase.Resolved? && s.sequenceLock.None?
    && var Resolved(n, command) := s.txs[t].phase;
       s' == Enter(s, t, Allocated(n, command, s.db.nextSequence)).(sequenceLock := Some(t))
  }

  ghost predicate StepReadTarget(s: Sys, t: nat, s': Sys) {
    && InPhase(s, t) && s.txs[t].phase.Allocated? && s.txs[t].req.correction
    && var Allocated(n, command, first) := s.txs[t].phase;
       s' == Enter(s, t, TargetRead(n, command, first, FindFact(s.db.facts, s.txs[t].req.target)))
  }

  /** The last read before the draft, then the draft itself with newly drawn ids. */
  ghost predicate StepDraft(s: Sys, t: nat, s': Sys) {
    && InPhase(s, t) && FreshIds(s.db.facts, s.db.corrections, s.txs[t].env)
    && var CommandTx(req, env, phase) := s.txs[t];
       && (if req.correction then phase.TargetRead? else phase.Allocated?)
       && var draft := if req.correction
                       then DraftCorrect(phase.target, DirectCorrection(s.db.corrections, req.target), req, env,
                                         phase.first, phase.command)
                       else DraftCreate(req, env, phase.first, phase.command);
          s' == if draft.Failure? then Finish(s, t, Rejected(draft.error))
                else Enter(s, t, Reading(phase.n, phase.command, phase.first, draft.value, 0, []))
  }

  /** One pass of validateReplay's loop: the rows of the next candidate's asset, unless already read. */
  function WithRows(s: Sys, draft: Draft, read: nat, existing: seq<Fact>): seq<Fact>
    requires read < |draft.candidates|
  {
    var c := draft.candidates[read];
    if c.asset.Some? && !(exists d ::
                          d in draft.candidates[..read] && d.asset.Some? && d.asset.value.id == c.asset.value.id)
    then existing + AssetRows(s.db.facts, s.db.id, c.asset.value.id)
    else existing
  }

  ghost predicate StepReadStream(s: Sys, t: nat, s': Sys) {
    && InPhase(s, t) && s.txs[t].phase.Reading? && s.txs[t].phase.read < |s.txs[t].phase.draft.candidates|
    && var Reading(n, command, first, draft, read, existing) := s.txs[t].phase;
       s' == Enter(s, t, Reading(n, command, first, draft, read + 1, WithRows(s, draft, read, existing)))
  }

  function WithOriginals(existing: seq<Fact>, originals: seq<Fact>): seq<Fact>
    decreases |originals|
  {
    if originals == [] then existing
    else if exists f :: f in existing && f.id == originals[0].id then WithOriginals(existing, originals[1..])
    else WithOriginals(existing + [originals[0]], originals[1..])
  }

  ghost predicate StepCheck(s: Sys, t: nat, s': Sys) {
    && InPhase(s, t) && s.txs[t].phase.Reading? && s.txs[t].phase.read == |s.txs[t].phase.draft.candidates|
    && var Reading(n, command, first, draft, _, existing) := s.txs[t].phase;
       var check := FullCheck(WithOriginals(existing, draft.originals), draft.candidates);
       s' == if check.Accepted? then Enter(s, t, Checked(n, command, first, draft))
             else Finish(s, t, Rejected(CheckRejection(check)))
  }

  ghost predicate StepAnnounce(s: Sys, t: nat, s': Sys) {
    && InPhase(s, t) && s.txs[t].phase.Checked? && s.streamLock.None?
    && var Checked(n, command, first, draft) := s.txs[t].phase;
       s' == Enter(s, t, Announcing(n, command, first, draft, s.db.nextPosition)).(streamLock := Some(t))
  }

  /** The private writes of the transaction, made visible at once. */
  function Publish(
    db: Book, req: Request, env: Readings, n: CommandInput, first: int, draft: Draft, position: int): Book {
    db.(facts := db.facts + draft.candidates,
        corrections := db.corrections + (if draft.relationship.Some? then [draft.relationship.value] else []),
        nextSequence := first + |draft.candidates|,
        keys := WithoutExpiredKey(db.keys, KeyOf(req),
                                  env.lookupAt)[KeyOf(req) := KeyRowOf(DigestOf(req, n), draft, env.completedAt)],
        nextPosition := position + 1,
        events := db.events + [EventOf(draft, env, position)])
  }

  ghost predicate StepCommit(s: Sys, t: nat, s': Sys) {
    && InPhase(s, t) && s.txs[t].phase.Announcing?
    && var CommandTx(req, env, Announcing(n, _, first, draft, position)) := s.txs[t];
       s' == Finish(s, t, draft.outcome).(db := Publish(s.db, req, env, n, first, draft, position),
                                          log := s.log + [Run(req, env)])
  }

  /** Cancellation, a lost connection or a crash: possible at any point before the end. */
  ghost predicate StepAbort(s: Sys, t: nat, s': Sys) {
    && InPhase(s, t) && !s.txs[t].phase.Finished?
    && s' == Release(Enter(s, t, Aborted), t)
  }

  // ----- Archiving and beginning -----

  predicate InArchive(s: Sys, t: nat, phase: ArchivePhase) {
    t in s.txs && s.txs[t].ArchiveTx? && s.txs[t].archivePhase == phase
  }

  function EnterArchive(s: Sys, t: nat, phase: ArchivePhase): Sys
    requires t in s.txs && s.txs[t].ArchiveTx?
  {
    s.(txs := s.txs[t := s.txs[t].(archivePhase := phase)])
  }

  ghost predicate StepArchive(s: Sys, t: nat, s': Sys) {
    StepArchiveLock(s, t, s') || StepArchiveMiss(s, t, s') || StepArchiveCommit(s, t, s') || StepArchiveAbort(s, t, s')
  }

  ghost predicate StepArchiveLock(s: Sys, t: nat, s': Sys) {
    && InArchive(s, t, Waiting) && s.txs[t].actor == s.db.owner && !s.db.archived
    && s.shared == {} && s.exclusive.None?
    && s' == EnterArchive(s, t, Holding).(exclusive := Some(t))
  }

  ghost predicate StepArchiveMiss(s: Sys, t: nat, s': Sys) {
    && InArchive(s, t, Waiting) && (s.txs[t].actor != s.db.owner || s.db.archived)
    && s' == EnterArchive(s, t, Ended)
  }

  ghost predicate StepArchiveCommit(s: Sys, t: nat, s': Sys) {
    && InArchive(s, t, Holding)
    && s' == Release(EnterArchive(s, t, Ended), t)
             .(db := s.db.(archived := true), log := s.log + [ArchiveBy(s.txs[t].actor)])
  }

  ghost predicate StepArchiveAbort(s: Sys, t: nat, s': Sys) {
    InArchive(s, t, Holding) && s' == Release(EnterArchive(s, t, Ended), t)
  }

  ghost predicate StepBegin(s: Sys, t: nat, s': Sys) {
    && t !in s.txs
    && exists tx: Tx ::
         && (if tx.CommandTx? then tx.phase.Begun? else tx.archivePhase.Waiting?)
         && s' == s.(txs := s.txs[t := tx])
  }

  ghost predicate CommandStep(s: Sys, t: nat, s': Sys) {
    || StepOwn(s, t, s') || StepReject(s, t, s') || StepLockKey(s, t, s') || StepLookup(s, t, s')
      || StepAnswer(s, t, s')
    || StepAllocate(s, t, s') || StepReadTarget(s, t, s') || StepDraft(s, t, s') || StepReadStream(s, t, s')
    || StepCheck(s, t, s') || StepAnnounce(s, t, s') || StepCommit(s, t, s')
  }

  ghost predicate Next(s: Sys, t: nat, s': Sys) {
    CommandStep(s, t, s') || StepAbort(s, t, s') || StepArchive(s, t, s') || StepBegin(s, t, s')
  }

  // ----- What each transaction may still rely on -----

  ghost predicate HoldsShare(s: Sys, t: nat, phase: Phase) {
    !phase.Begun? && !phase.Finished? && !phase.Aborted? ==> t in s.shared
  }

  predicate PastKey(phase: Phase) {
    phase.KeyHeld? || phase.Answering? || phase.Resolved? || PastAllocation(phase)
  }

  predicate PastAllocation(phase: Phase) {
    phase.Allocated? || phase.TargetRead? || phase.Reading? || phase.Checked? || phase.Announcing?
  }

  predicate PastDraft(phase: Phase) {
    phase.Reading? || phase.Checked? || phase.Announcing?
  }

  ghost predicate LocksHeld(s: Sys, t: nat, req: Request, phase: Phase) {
    && HoldsShare(s, t, phase)
    && (PastKey(phase) ==> KeyOf(req) in s.keyLocks && s.keyLocks[KeyOf(req)] == t)
    && (PastAllocation(phase) ==> s.sequenceLock == Some(t))
    && (phase.Announcing? ==> s.streamLock == Some(t))
  }

  ghost predicate KeyReadsValid(db: Book, req: Request, env: Readings, phase: Phase) {
    && (phase.Owning? ==> phase.archived == db.archived)
    && (PastKey(phase) ==> Prepare(db.id, db.owner, req, env.now) == Result<CommandInput, Rejection>.Success(phase.n))
    && (phase.KeyHeld? ==> phase.archived == db.archived)
    && (phase.Answering? ==> UnexpiredKey(db.keys, KeyOf(req), env.lookupAt) == Some(phase.row))
    && (phase.Resolved? || PastAllocation(phase) ==>
          && UnexpiredKey(db.keys, KeyOf(req), env.lookupAt).None? && !db.archived
          && ResolveCommand(phase.n, env.lookup, env.now) == Result<Command, Rejection>.Success(phase.command))
  }

  ghost predicate LedgerReadsValid(db: Book, req: Request, env: Readings, phase: Phase) {
    && (PastAllocation(phase) ==> phase.first == db.nextSequence)
    && (phase.TargetRead? ==> req.correction && phase.target == FindFact(db.facts, req.target))
    && (PastDraft(phase) ==>
          && FreshIds(db.facts, db.corrections, env)
          && DraftOf(db.facts, db.corrections, req, env, db.nextSequence, phase.command)
             == Result<Draft, Rejection>.Success(phase.draft))
    && (phase.Reading? ==>
          && phase.read <= |phase.draft.candidates| && NoDuplicates(phase.existing)
          && forall f :: f in phase.existing <==> f in db.facts && Touched(phase.draft.candidates[..phase.read], f))
    && (phase.Checked? || phase.Announcing? ==> FullCheck(db.facts, phase.draft.candidates).Accepted?)
    && (phase.Announcing? ==> phase.position == db.nextPosition)
  }

  ghost predicate TxOk(s: Sys, t: nat)
    requires t in s.txs
  {
    match s.txs[t]
    case CommandTx(req, env, phase) =>
      LocksHeld(s, t, req, phase) && KeyReadsValid(s.db, req, env, phase) && LedgerReadsValid(s.db, req, env, phase)
    case ArchiveTx(actor, phase) =>
      phase.Holding? ==> s.exclusive == Some(t) && actor == s.db.owner && !s.db.archived
  }

  ghost predicate Good(s: Sys) {
    && Inv(s.db)
    && (s.exclusive.Some? ==> s.shared == {})
    && (forall t :: t in s.txs ==> TxOk(s, t))
  }

  // ----- Frames: what one transaction's step leaves to the others -----

  /** The locks of every transaction but t survive. */
  ghost predicate KeepsLocksOfOthers(s: Sys, s': Sys, t: nat) {
    && (forall u :: u != t && u in s.shared ==> u in s'.shared)
    && (forall k :: k in s.keyLocks && s.keyLocks[k] != t ==> k in s'.keyLocks && s'.keyLocks[k] == s.keyLocks[k])
    && (s.sequenceLock.Some? && s.sequenceLock != Some(t) ==> s'.sequenceLock == s.sequenceLock)
    && (s.streamLock.Some? && s.streamLock != Some(t) ==> s'.streamLock == s.streamLock)
    && (s.exclusive.Some? && s.exclusive != Some(t) ==> s'.exclusive == s.exclusive)
  }

  ghost predicate SameOthers(s: Sys, s': Sys, t: nat) {
    && t in s'.txs && s'.txs.Keys == s.txs.Keys + {t}
    && forall u :: u in s.txs && u != t ==> s'.txs[u] == s.txs[u]
  }

  lemma OthersUnaffected(s: Sys, s': Sys, t: nat)
    requires Good(s) && s'.db == s.db && SameOthers(s, s', t) && KeepsLocksOfOthers(s, s', t)
    ensures forall u :: u in s'.txs && u != t ==> TxOk(s', u)
  {
    forall u | u in s'.txs && u != t ensures TxOk(s', u) {
      assert u in s.txs && TxOk(s, u);
    }
  }

  lemma ReleaseKeepsOthers(s: Sys, s1: Sys, t: nat)
    requires KeepsLocksOfOthers(s, s1, t)
    ensures KeepsLocksOfOthers(s, Release(s1, t), t)
  {
  }

  lemma FinishedIsOk(s: Sys, s1: Sys, t: nat)
    requires Good(s) && s1.db == s.db && SameOthers(s, s1, t) && KeepsLocksOfOthers(s, s1, t)
    requires s1.shared <= s.shared + {t} && (s1.exclusive.Some? ==> s.exclusive == s1.exclusive)
    requires match s1.txs[t]
             case CommandTx(_, _, phase) => phase.Finished? || phase.Aborted?
             case ArchiveTx(_, phase) => !phase.Holding?
    ensures Good(Release(s1, t))
  {
    ReleaseKeepsOthers(s, s1, t);
    OthersUnaffected(s, Release(s1, t), t);
  }

  // ----- The invariant, step by step -----

  lemma OwnKeepsGood(s: Sys, t: nat, s': Sys)
    requires Good(s) && StepOwn(s, t, s')
    ensures Good(s')
  {
    OthersUnaffected(s, s', t);
  }

  lemma LockKeyKeepsGood(s: Sys, t: nat, s': Sys)
    requires Good(s) && StepLockKey(s, t, s')
    ensures Good(s')
  {
    assert TxOk(s, t);
    OthersUnaffected(s, s', t);
  }

  lemma FinishKeepsGood(s: Sys, t: nat, outcome: Outcome)
    requires Good(s) && InPhase(s, t)
    ensures Good(Finish(s, t, outcome))
  {
    FinishedIsOk(s, Enter(s, t, Finished(outcome)), t);
  }

  /** A statement that takes no lock keeps the invariant if the transaction's own part still holds. */
  lemma EnterKeepsGood(s: Sys, t: nat, phase: Phase)
    requires Good(s) && InPhase(s, t) && TxOk(Enter(s, t, phase), t)
    ensures Good(Enter(s, t, phase))
  {
    OthersUnaffected(s, Enter(s, t, phase), t);
  }

  lemma LookupIsValid(db: Book, req: Request, env: Readings, phase: Phase, next: Phase)
    requires phase.KeyHeld? && KeyReadsValid(db, req, env, phase)
    requires var row := UnexpiredKey(db.keys, KeyOf(req), env.lookupAt);
             var command := ResolveCommand(phase.n, env.lookup, env.now);
             if row.Some? then next == Answering(phase.n, row.value)
             else !phase.archived && command.Success? && next == Resolved(phase.n, command.value)
    ensures KeyReadsValid(db, req, env, next) && LedgerReadsValid(db, req, env, next)
  {
  }

  lemma LookupKeepsGood(s: Sys, t: nat, s': Sys)
    requires Good(s) && StepLookup(s, t, s')
    ensures Good(s')
  {
    assert TxOk(s, t);
    var next := s'.txs[t].phase;
    if next.Finished? {
      FinishKeepsGood(s, t, next.outcome);
    } else {
      LookupIsValid(s.db, s.txs[t].req, s.txs[t].env, s.txs[t].phase, next);
      EnterKeepsGood(s, t, next);
    }
  }

  lemma AllocateKeepsGood(s: Sys, t: nat, s': Sys)
    requires Good(s) && StepAllocate(s, t, s')
    ensures Good(s')
  {
    assert TxOk(s, t);
    OthersUnaffected(s, s', t);
  }

  lemma ReadTargetKeepsGood(s: Sys, t: nat, s': Sys)
    requires Good(s) && StepReadTarget(s, t, s')
    ensures Good(s')
  {
    assert TxOk(s, t);
    EnterKeepsGood(s, t, s'.txs[t].phase);
  }

  lemma DraftKeepsGood(s: Sys, t: nat, s': Sys)
    requires Good(s) && StepDraft(s, t, s')
    ensures Good(s')
  {
    assert TxOk(s, t);
    var phase := s'.txs[t].phase;
    if phase.Finished? {
      FinishKeepsGood(s, t, phase.outcome);
    } else {
      EnterKeepsGood(s, t, phase);
    }
  }

  lemma RowsMore(db: Book, candidates: seq<Fact>, read: nat, existing: seq<Fact>, rows: seq<Fact>)
    requires NoDuplicates(db.facts) && Sequenced(db.id, db.facts, db.nextSequence) && read < |candidates|
    requires NoDuplicates(existing) && forall f :: f in existing <==> f in db.facts && Touched(candidates[..read], f)
    requires var c := candidates[read];
             var untouched := c.asset.Some?
                && !(exists d :: d in candidates[..read] && d.asset.Some? && d.asset.value.id == c.asset.value.id);
             rows == if untouched then existing + AssetRows(db.facts, db.id, c.asset.value.id) else existing
    ensures NoDuplicates(rows) && forall f :: f in rows <==> f in db.facts && Touched(candidates[..read + 1], f)
  {
    var c := candidates[read];
    assert candidates[..read + 1] == candidates[..read] + [c];
    if c.asset.Some? && !(exists d ::
                          d in candidates[..read] && d.asset.Some? && d.asset.value.id == c.asset.value.id) {
      var more := AssetRows(db.facts, db.id, c.asset.value.id);
      AssetRowsDistinct(db.facts, db.id, c.asset.value.id);
      DistinctConcat(existing, more);
      assert forall f :: f in db.facts ==> f.portfolio == db.id;
    }
  }

  lemma ReadStreamKeepsGood(s: Sys, t: nat, s': Sys)
    requires Good(s) && StepReadStream(s, t, s')
    ensures Good(s')
  {
    assert TxOk(s, t);
    var CommandTx(req, env, phase) := s.txs[t];
    var rows := WithRows(s, phase.draft, phase.read, phase.existing);
    RowsMore(s.db, phase.draft.candidates, phase.read, phase.existing, rows);
    ReadMore(s.db, req, env, phase, rows);
    EnterKeepsGood(s, t, phase.(read := phase.read + 1, existing := rows));
  }

  lemma ReadMore(db: Book, req: Request, env: Readings, phase: Phase, rows: seq<Fact>)
    requires phase.Reading? && phase.read < |phase.draft.candidates|
    requires KeyReadsValid(db, req, env, phase) && LedgerReadsValid(db, req, env, phase)
    requires NoDuplicates(rows) && forall f :: f in rows <==>
               f in db.facts && Touched(phase.draft.candidates[..phase.read + 1], f)
    ensures var phase' := phase.(read := phase.read + 1, existing := rows);
            KeyReadsValid(db, req, env, phase') && LedgerReadsValid(db, req, env, phase')
  {
  }

  lemma {:induction false} OriginalsAdded(ledger: seq<Fact>, existing: seq<Fact>, originals: seq<Fact>)
    requires UniqueIds(ledger) && NoDuplicates(existing)
    requires (forall f :: f in existing ==> f in ledger) && (forall o :: o in originals ==> o in ledger)
    ensures var r := WithOriginals(existing, originals);
            NoDuplicates(r) && forall f :: f in r <==> f in existing || f in originals
    decreases |originals|
  {
    if originals != [] {
      var o := originals[0];
      if exists f :: f in existing && f.id == o.id {
        OriginalsAdded(ledger, existing, originals[1..]);
        assert o in existing;
      } else {
        DistinctConcat(existing, [o]);
        OriginalsAdded(ledger, existing + [o], originals[1..]);
      }
    }
  }

  /** What the transaction computes from its own reads is what the committed ledger says. */
  lemma CheckIsFullCheck(db: Book, req: Request, env: Readings, command: Command, draft: Draft, existing: seq<Fact>)
    requires Inv(db) && FreshIds(db.facts, db.corrections, env) && req.portfolio == db.id
    requires DraftOf(db.facts, db.corrections, req, env, db.nextSequence, command)
             == Result<Draft, Rejection>.Success(draft)
    requires NoDuplicates(existing) && forall f :: f in existing <==> f in db.facts && Touched(draft.candidates, f)
    ensures FullCheck(WithOriginals(existing, draft.originals), draft.candidates)
            == FullCheck(db.facts, draft.candidates)
  {
    DraftShape(db, req, env, command);
    DraftIsAdmissible(db, req, env, draft);
    OriginalsAdded(db.facts, existing, draft.originals);
    PartialReplayAgrees(db.id, db.facts, draft.candidates, draft.originals, WithOriginals(existing, draft.originals));
  }

  lemma PreparedOwns(db: Book, req: Request, now: Instant)
    requires Prepare(db.id, db.owner, req, now).Success?
    ensures req.portfolio == db.id && req.principal == db.owner
  {
  }

  lemma CheckedByReads(s: Sys, t: nat)
    requires Good(s) && InPhase(s, t) && s.txs[t].phase.Reading?
    requires s.txs[t].phase.read == |s.txs[t].phase.draft.candidates|
    ensures var draft, existing := s.txs[t].phase.draft, s.txs[t].phase.existing;
            FullCheck(WithOriginals(existing, draft.originals), draft.candidates)
              == FullCheck(s.db.facts, draft.candidates)
  {
    assert TxOk(s, t);
    var CommandTx(req, env, Reading(n, command, first, draft, read, existing)) := s.txs[t];
    PreparedOwns(s.db, req, env.now);
    assert draft.candidates[..read] == draft.candidates;
    CheckIsFullCheck(s.db, req, env, command, draft, existing);
  }

  lemma EnterCheckedKeepsGood(s: Sys, t: nat)
    requires Good(s) && InPhase(s, t) && s.txs[t].phase.Reading?
    requires FullCheck(s.db.facts, s.txs[t].phase.draft.candidates).Accepted?
    ensures var p := s.txs[t].phase; Good(Enter(s, t, Checked(p.n, p.command, p.first, p.draft)))
  {
    assert TxOk(s, t);
    var p := s.txs[t].phase;
    EnterKeepsGood(s, t, Checked(p.n, p.command, p.first, p.draft));
  }

  lemma CheckKeepsGood(s: Sys, t: nat, s': Sys)
    requires Good(s) && StepCheck(s, t, s')
    ensures Good(s')
  {
    CheckedByReads(s, t);
    var p := s.txs[t].phase;
    var check := FullCheck(WithOriginals(p.existing, p.draft.originals), p.draft.candidates);
    if check.Accepted? {
      EnterCheckedKeepsGood(s, t);
    } else {
      FinishKeepsGood(s, t, Rejected(CheckRejection(check)));
    }
  }

  lemma AnnounceKeepsGood(s: Sys, t: nat, s': Sys)
    requires Good(s) && StepAnnounce(s, t, s')
    ensures Good(s')
  {
    assert TxOk(s, t);
    OthersUnaffected(s, s', t);
  }

  lemma EndKeepsGood(s: Sys, t: nat, s': Sys)
    requires Good(s) && (StepReject(s, t, s') || StepAnswer(s, t, s') || StepAbort(s, t, s'))
    ensures Good(s')
  {
    if StepAbort(s, t, s') {
      FinishedIsOk(s, Enter(s, t, Aborted), t);
    } else {
      FinishKeepsGood(s, t, s'.txs[t].phase.outcome);
    }
  }

  /** A commit publishes exactly what running the command alone on the committed book would. */
  lemma CommitIsExecute(db: Book, req: Request, env: Readings, phase: Phase)
    requires phase.Announcing? && KeyReadsValid(db, req, env, phase) && LedgerReadsValid(db, req, env, phase)
    ensures Execute(db, req, env)
            == (Publish(db, req, env, phase.n, phase.first, phase.draft, phase.position), phase.draft.outcome)
  {
    ExecuteSettles(db, req, env, phase.n, phase.command, phase.draft);
  }

  /** What the transaction has read is what running the whole command reads. */
  lemma ExecuteSettles(db: Book, req: Request, env: Readings, n: CommandInput, command: Command, draft: Draft)
    requires Prepare(db.id, db.owner, req, env.now) == Result<CommandInput, Rejection>.Success(n)
    requires UnexpiredKey(db.keys, KeyOf(req), env.lookupAt).None? && !db.archived
    requires ResolveCommand(n, env.lookup, env.now) == Result<Command, Rejection>.Success(command)
    requires DraftOf(db.facts, db.corrections, req, env, db.nextSequence, command)
             == Result<Draft, Rejection>.Success(draft)
    ensures Execute(db, req, env) == Settle(db, KeyOf(req), DigestOf(req, n), env, draft)
  {
  }

  /** Transactions that hold another key and no sequence lock see nothing of a commit they rely on. */
  lemma CommitKeepsReads(db: Book, db': Book, req: Request, env: Readings, phase: Phase)
    requires KeyReadsValid(db, req, env, phase) && !PastAllocation(phase)
    requires db'.id == db.id && db'.owner == db.owner && db'.archived == db.archived
    requires PastKey(phase) ==>
               UnexpiredKey(db'.keys, KeyOf(req), env.lookupAt) == UnexpiredKey(db.keys, KeyOf(req), env.lookupAt)
    requires !phase.Finished?
    ensures KeyReadsValid(db', req, env, phase) && LedgerReadsValid(db', req, env, phase)
  {
  }

  lemma CommitKeepsOthers(s: Sys, t: nat, s': Sys, u: nat)
    requires Good(s) && StepCommit(s, t, s') && u in s'.txs && u != t
    ensures TxOk(s', u)
  {
    assert TxOk(s, t) && TxOk(s, u);
    if s.txs[u].CommandTx? && !s.txs[u].phase.Finished? {
      var CommandTx(req, env, phase) := s.txs[u];
      assert !PastAllocation(phase);
      CommitKeepsReads(s.db, s'.db, req, env, phase);
    }
  }

  lemma CommitKeepsGood(s: Sys, t: nat, s': Sys)
    requires Good(s) && StepCommit(s, t, s')
    ensures Good(s')
    ensures Execute(s.db, s.txs[t].req, s.txs[t].env) == (s'.db, s'.txs[t].phase.outcome)
    ensures FreshIds(s.db.facts, s.db.corrections, s.txs[t].env)
  {
    CommitKeepsOwn(s, t, s');
    forall u | u in s'.txs && u != t ensures TxOk(s', u) {
      CommitKeepsOthers(s, t, s', u);
    }
  }

  lemma CommitKeepsOwn(s: Sys, t: nat, s': Sys)
    requires Good(s) && StepCommit(s, t, s')
    ensures InPhase(s', t) && TxOk(s', t) && Inv(s'.db) && (s'.exclusive.Some? ==> s'.shared == {})
    ensures Execute(s.db, s.txs[t].req, s.txs[t].env) == (s'.db, s'.txs[t].phase.outcome)
    ensures FreshIds(s.db.facts, s.db.corrections, s.txs[t].env)
  {
    CommitIsSerial(s, t, s');
    ExecuteKeepsInv(s.db, s.txs[t].req, s.txs[t].env);
  }

  lemma CommitIsSerial(s: Sys, t: nat, s': Sys)
    requires Good(s) && StepCommit(s, t, s')
    ensures InPhase(s', t) && TxOk(s', t)
    ensures Execute(s.db, s.txs[t].req, s.txs[t].env) == (s'.db, s'.txs[t].phase.outcome)
    ensures FreshIds(s.db.facts, s.db.corrections, s.txs[t].env)
  {
    assert TxOk(s, t);
    var CommandTx(req, env, phase) := s.txs[t];
    CommitIsExecute(s.db, req, env, phase);
  }

  lemma ArchivingKeepsGood(s: Sys, t: nat, s': Sys)
    requires Good(s) && StepArchiveCommit(s, t, s')
    ensures Good(s')
  {
    assert TxOk(s, t);
    forall u | u in s'.txs ensures TxOk(s', u) {
      assert u != t ==> TxOk(s, u);
    }
  }

  lemma ArchiveKeepsGood(s: Sys, t: nat, s': Sys)
    requires Good(s) && StepArchive(s, t, s')
    ensures Good(s')
  {
    assert TxOk(s, t);
    if StepArchiveCommit(s, t, s') {
      ArchivingKeepsGood(s, t, s');
    } else if StepArchiveLock(s, t, s') {
      OthersUnaffected(s, s', t);
    } else {
      FinishedIsOk(s, EnterArchive(s, t, Ended), t);
      if StepArchiveMiss(s, t, s') { OthersUnaffected(s, s', t); }
    }
  }

  lemma BeginKeepsGood(s: Sys, t: nat, s': Sys)
    requires Good(s) && StepBegin(s, t, s')
    ensures Good(s')
  {
    OthersUnaffected(s, s', t);
  }

  lemma NextKeepsGood(s: Sys, t: nat, s': Sys)
    requires Good(s) && Next(s, t, s')
    ensures Good(s')
  {
    if StepBegin(s, t, s') { BeginKeepsGood(s, t, s'); }
    else if StepArchive(s, t, s') { ArchiveKeepsGood(s, t, s'); }
    else if StepOwn(s, t, s') { OwnKeepsGood(s, t, s'); }
    else if StepLockKey(s, t, s') { LockKeyKeepsGood(s, t, s'); }
    else if StepLookup(s, t, s') { LookupKeepsGood(s, t, s'); }
    else if StepAllocate(s, t, s') { AllocateKeepsGood(s, t, s'); }
    else if StepReadTarget(s, t, s') { ReadTargetKeepsGood(s, t, s'); }
    else if StepDraft(s, t, s') { DraftKeepsGood(s, t, s'); }
    else if StepReadStream(s, t, s') { ReadStreamKeepsGood(s, t, s'); }
    else if StepCheck(s, t, s') { CheckKeepsGood(s, t, s'); }
    else if StepAnnounce(s, t, s') { AnnounceKeepsGood(s, t, s'); }
    else if StepCommit(s, t, s') { CommitKeepsGood(s, t, s'); }
    else { EndKeepsGood(s, t, s'); }
  }
}
