/** Every interleaving is one of the serial runs of module LedgerRuns, and none can deadlock. */
module Serializability {
  import opened Wrappers
  import opened Facts
  import opened Balances
  import opened Commands
  import opened PartialReplay
  import opened LedgerBook
  import opened LedgerRuns
  import opened Interleaving

  // ----- Atomicity -----

  predicate Ended(tx: Tx) {
    match tx
    case CommandTx(_, _, phase) => phase.Finished? || phase.Aborted?
    case ArchiveTx(_, phase) => phase.Ended?
  }

  predicate EndsWith(s': Sys, t: nat, outcome: Outcome) {
    InPhase(s', t) && s'.txs[t].phase == Finished(outcome)
  }

  lemma RejectIsExecute(s: Sys, t: nat, s': Sys, outcome: Outcome)
    requires StepReject(s, t, s') && EndsWith(s', t, outcome)
    ensures Execute(s.db, s.txs[t].req, s.txs[t].env) == (s'.db, outcome)
  {
  }

  lemma LookupIsExecute(s: Sys, t: nat, s': Sys, outcome: Outcome)
    requires t in s.txs && TxOk(s, t) && EndsWith(s', t, outcome)
    requires StepLookup(s, t, s') || StepAnswer(s, t, s')
    ensures Execute(s.db, s.txs[t].req, s.txs[t].env) == (s'.db, outcome)
  {
  }

  lemma FailedDraftIsExecute(s: Sys, t: nat, s': Sys, outcome: Outcome)
    requires t in s.txs && TxOk(s, t) && EndsWith(s', t, outcome) && StepDraft(s, t, s')
    ensures Execute(s.db, s.txs[t].req, s.txs[t].env) == (s'.db, outcome)
  {
  }

  lemma FailedCheckIsExecute(s: Sys, t: nat, s': Sys, outcome: Outcome)
    requires Good(s) && StepCheck(s, t, s') && EndsWith(s', t, outcome)
    ensures Execute(s.db, s.txs[t].req, s.txs[t].env) == (s'.db, outcome)
  {
    assert TxOk(s, t);
    CheckedByReads(s, t);
    RejectedCheckIsExecute(s, t);
  }

  lemma RejectedCheckIsExecute(s: Sys, t: nat)
    requires t in s.txs && TxOk(s, t) && InPhase(s, t) && s.txs[t].phase.Reading?
    ensures var check := FullCheck(s.db.facts, s.txs[t].phase.draft.candidates);
            !check.Accepted? ==> Execute(s.db, s.txs[t].req, s.txs[t].env) == (s.db, Rejected(CheckRejection(check)))
  {
  }

  /** The statements that can end a command. */
  lemma EndingStatements(s: Sys, t: nat, s': Sys, outcome: Outcome)
    requires CommandStep(s, t, s') && EndsWith(s', t, outcome)
    ensures StepReject(s, t, s') || StepLookup(s, t, s') || StepAnswer(s, t, s') || StepDraft(s, t, s')
            || StepCheck(s, t, s') || StepCommit(s, t, s')
  {
  }

  /** The statement that ends a command gives the outcome of running the whole command at that moment. */
  lemma CommandsAreAtomic(s: Sys, t: nat, s': Sys, outcome: Outcome)
    requires Good(s) && InPhase(s, t) && CommandStep(s, t, s') && EndsWith(s', t, outcome)
    ensures Execute(s.db, s.txs[t].req, s.txs[t].env) == (s'.db, outcome)
  {
    EndingStatements(s, t, s', outcome);
    assert TxOk(s, t);
    if StepReject(s, t, s') { RejectIsExecute(s, t, s', outcome); }
    else if StepDraft(s, t, s') { FailedDraftIsExecute(s, t, s', outcome); }
    else if StepCheck(s, t, s') { FailedCheckIsExecute(s, t, s', outcome); }
    else if StepCommit(s, t, s') { CommitKeepsGood(s, t, s'); }
    else { LookupIsExecute(s, t, s', outcome); }
  }

  lemma LockingLeavesRows(s: Sys, t: nat, s': Sys)
    requires StepOwn(s, t, s') || StepLockKey(s, t, s') || StepAllocate(s, t, s') || StepAnnounce(s, t, s')
             || StepBegin(s, t, s')
    ensures s'.db == s.db && s'.log == s.log
  {
  }

  lemma ReadingLeavesRows(s: Sys, t: nat, s': Sys)
    requires StepLookup(s, t, s') || StepReadTarget(s, t, s') || StepDraft(s, t, s') || StepReadStream(s, t, s')
             || StepCheck(s, t, s')
    ensures s'.db == s.db && s'.log == s.log
  {
  }

  lemma EndingLeavesRows(s: Sys, t: nat, s': Sys)
    requires StepReject(s, t, s') || StepAnswer(s, t, s') || StepAbort(s, t, s')
             || StepArchiveLock(s, t, s') || StepArchiveMiss(s, t, s') || StepArchiveAbort(s, t, s')
    ensures s'.db == s.db && s'.log == s.log
  {
  }

  lemma ArchivingIsAtomic(s: Sys, t: nat, s': Sys)
    requires Good(s) && StepArchiveCommit(s, t, s')
    ensures s.txs[t].ArchiveTx? && s'.log == s.log + [ArchiveBy(s.txs[t].actor)]
    ensures s'.db == Archive(s.db, s.txs[t].actor) != s.db
  {
    assert TxOk(s, t);
  }

  /** Any other statement, an abort included, leaves the committed rows alone; archiving is atomic too. */
  lemma OnlyCommitsChangeRows(s: Sys, t: nat, s': Sys)
    requires Good(s) && Next(s, t, s')
    ensures (s'.db == s.db && s'.log == s.log)
            || (StepCommit(s, t, s') && s'.log == s.log + [Run(s.txs[t].req, s.txs[t].env)])
            || (StepArchiveCommit(s, t, s') && s'.log == s.log + [ArchiveBy(s.txs[t].actor)]
                && s'.db == Archive(s.db, s.txs[t].actor) != s.db)
  {
    if StepCommit(s, t, s') {
    } else if StepArchiveCommit(s, t, s') {
      ArchivingIsAtomic(s, t, s');
    } else if StepOwn(s, t, s') || StepLockKey(s, t, s') || StepAllocate(s, t, s') || StepAnnounce(s, t, s')
      || StepBegin(s, t, s') {
      LockingLeavesRows(s, t, s');
    } else if StepLookup(s, t, s') || StepReadTarget(s, t, s') || StepDraft(s, t, s') || StepReadStream(s, t, s')
      || StepCheck(s, t, s') {
      ReadingLeavesRows(s, t, s');
    } else {
      EndingLeavesRows(s, t, s');
    }
  }

  // ----- Behaviours -----

  function Initial(b: Book): Sys {
    Sys(b, map[], {}, None, map[], None, None, [])
  }

  ghost predicate Moves(s: Sys, s': Sys) {
    exists t :: Next(s, t, s')
  }

  ghost predicate MovesAt(ss: seq<Sys>, i: nat) {
    i + 1 < |ss| && Moves(ss[i], ss[i + 1])
  }

  /** A finite prefix of an execution: any transactions, in any interleaving. */
  ghost predicate Behaviour(b: Book, ss: seq<Sys>) {
    && |ss| > 0 && ss[0] == Initial(b)
    && forall i :: 0 <= i < |ss| - 1 ==> MovesAt(ss, i)
  }

  lemma LastMove(b: Book, ss: seq<Sys>)
    requires Behaviour(b, ss) && |ss| > 1
    ensures Behaviour(b, ss[..|ss| - 1]) && Moves(ss[|ss| - 2], ss[|ss| - 1])
  {
    var front := ss[..|ss| - 1];
    forall i | 0 <= i < |front| - 1 ensures MovesAt(front, i) {
      assert MovesAt(ss, i);
    }
    assert MovesAt(ss, |ss| - 2);
  }

  lemma {:induction false} AfterOneMore(b: Book, steps: seq<Step>, step: Step)
    ensures AfterAll(b, steps + [step]) == After(AfterAll(b, steps), step)
    ensures FreshSteps(b, steps + [step]) <==> FreshSteps(b, steps) && FreshStep(AfterAll(b, steps), step)
    decreases |steps|
  {
    var all := steps + [step];
    if steps == [] {
      assert all[1..] == [];
    } else {
      assert all[1..] == steps[1..] + [step] && all[0] == steps[0];
      AfterOneMore(After(b, steps[0]), steps[1..], step);
    }
  }

  lemma CommittedStep(b: Book, s: Sys, t: nat, s': Sys)
    requires Good(s) && Next(s, t, s')
    requires s.db == AfterAll(b, s.log) && FreshSteps(b, s.log)
    ensures s'.db == AfterAll(b, s'.log) && FreshSteps(b, s'.log)
  {
    OnlyCommitsChangeRows(s, t, s');
    if StepCommit(s, t, s') {
      CommitKeepsGood(s, t, s');
      AfterOneMore(b, s.log, Run(s.txs[t].req, s.txs[t].env));
    } else if StepArchiveCommit(s, t, s') {
      AfterOneMore(b, s.log, ArchiveBy(s.txs[t].actor));
    }
  }

  ghost predicate SerialSoFar(b: Book, s: Sys) {
    Good(s) && Tidy(s) && s.db == AfterAll(b, s.log) && FreshSteps(b, s.log)
  }

  lemma MoveKeepsSerial(b: Book, s: Sys, s': Sys)
    requires SerialSoFar(b, s) && Moves(s, s')
    ensures SerialSoFar(b, s')
  {
    var t :| Next(s, t, s');
    NextKeepsGood(s, t, s');
    NextKeepsTidy(s, t, s');
    CommittedStep(b, s, t, s');
  }

  lemma {:induction false} BehavioursAreSerial(b: Book, ss: seq<Sys>)
    requires Inv(b) && Behaviour(b, ss)
    ensures SerialSoFar(b, ss[|ss| - 1])
    decreases |ss|
  {
    if |ss| > 1 {
      LastMove(b, ss);
      BehavioursAreSerial(b, ss[..|ss| - 1]);
      MoveKeepsSerial(b, ss[|ss| - 2], ss[|ss| - 1]);
    }
  }

  /** For every interleaving, the committed rows are those of running the committed commands one at a
    * time, in commit order; every guarantee about serial runs therefore holds. */
  lemma EveryInterleavingIsSerial(b: Book, ss: seq<Sys>)
    requires Inv(b) && Behaviour(b, ss)
    ensures var last := ss[|ss| - 1];
            && FreshSteps(b, last.log) && last.db == AfterAll(b, last.log)
            && Inv(last.db) && Extends(b, last.db)
  {
    BehavioursAreSerial(b, ss);
    RunsExtend(b, ss[|ss| - 1].log);
  }

  lemma ArchivedRowsStay(s: Sys, t: nat, s': Sys)
    requires Good(s) && Next(s, t, s') && s.db.archived
    ensures s'.db == s.db
  {
    OnlyCommitsChangeRows(s, t, s');
    if StepCommit(s, t, s') {
      CommitsWhileActive(s, t, s');
    }
  }

  lemma CommitsWhileActive(s: Sys, t: nat, s': Sys)
    requires Good(s) && StepCommit(s, t, s')
    ensures !s.db.archived
  {
    assert TxOk(s, t);
  }

  lemma ArchivedMoveStays(s: Sys, s': Sys)
    requires Good(s) && Moves(s, s') && s.db.archived
    ensures s'.db == s.db
  {
    var t :| Next(s, t, s');
    ArchivedRowsStay(s, t, s');
  }

  lemma GoodAt(b: Book, ss: seq<Sys>, i: nat)
    requires Inv(b) && Behaviour(b, ss) && i < |ss|
    ensures Good(ss[i])
  {
    PrefixBehaves(b, ss, i + 1);
    BehavioursAreSerial(b, ss[..i + 1]);
  }

  lemma PrefixBehaves(b: Book, ss: seq<Sys>, n: nat)
    requires Behaviour(b, ss) && 0 < n <= |ss|
    ensures Behaviour(b, ss[..n])
  {
    forall i | 0 <= i < n - 1 ensures MovesAt(ss[..n], i) {
      assert MovesAt(ss, i);
    }
  }

  /** Once an archival has committed no statement of any interleaving changes a row any more. */
  lemma {:induction false} NothingCommitsAfterArchive(b: Book, ss: seq<Sys>, i: nat, j: nat)
    requires Inv(b) && Behaviour(b, ss) && i <= j < |ss| && ss[i].db.archived
    ensures ss[j].db == ss[i].db
    decreases j
  {
    if i < j {
      NothingCommitsAfterArchive(b, ss, i, j - 1);
      GoodAt(b, ss, j - 1);
      assert MovesAt(ss, j - 1);
      ArchivedMoveStays(ss[j - 1], ss[j]);
    }
  }

  // ----- Every answer is a serial answer -----

  /** The outcome is that of running the command after the first k committed ones; if it was accepted it is the next
    * of them. */
  ghost predicate AnsweredAfter(b: Book, log: seq<Step>, k: nat, req: Request, env: Readings, outcome: Outcome) {
    && k <= |log| && Execute(AfterAll(b, log[..k]), req, env).1 == outcome
    && (LedgerRuns.Accepted(outcome) ==> k < |log| && log[k] == Run(req, env))
  }

  ghost predicate AnsweredSerially(b: Book, log: seq<Step>, tx: Tx) {
    tx.CommandTx? && tx.phase.Finished? ==> exists k :: AnsweredAfter(b, log, k, tx.req, tx.env, tx.phase.outcome)
  }

  ghost predicate AllAnsweredSerially(b: Book, s: Sys) {
    forall t {:trigger AnsweredSerially(b, s.log, s.txs[t])} :: t in s.txs ==> AnsweredSerially(b, s.log, s.txs[t])
  }

  lemma AnswersLast(b: Book, log: seq<Step>, more: seq<Step>, tx: Tx)
    requires AnsweredSerially(b, log, tx)
    ensures AnsweredSerially(b, log + more, tx)
  {
    if tx.CommandTx? && tx.phase.Finished? {
      var k: nat :| AnsweredAfter(b, log, k, tx.req, tx.env, tx.phase.outcome);
      assert (log + more)[..k] == log[..k];
      assert AnsweredAfter(b, log + more, k, tx.req, tx.env, tx.phase.outcome);
    }
  }

  /** A statement changes only its own transaction, and never what the transaction was asked. */
  ghost predicate MovesOnly(s: Sys, t: nat, s': Sys) {
    && t in s'.txs && s'.txs == s.txs[t := s'.txs[t]]
    && (InPhase(s', t) && s'.txs[t].phase.Finished? ==>
          InPhase(s, t) && CommandStep(s, t, s') && s'.txs[t].req == s.txs[t].req && s'.txs[t].env == s.txs[t].env)
  }

  lemma LockingMovesOnly(s: Sys, t: nat, s': Sys)
    requires StepOwn(s, t, s') || StepLockKey(s, t, s') || StepAllocate(s, t, s') || StepAnnounce(s, t, s')
             || StepBegin(s, t, s')
    ensures MovesOnly(s, t, s')
  {
  }

  lemma ReadingMovesOnly(s: Sys, t: nat, s': Sys)
    requires StepLookup(s, t, s') || StepReadTarget(s, t, s') || StepDraft(s, t, s') || StepReadStream(s, t, s')
             || StepCheck(s, t, s')
    ensures MovesOnly(s, t, s')
  {
  }

  lemma EndingMovesOnly(s: Sys, t: nat, s': Sys)
    requires StepReject(s, t, s') || StepAnswer(s, t, s') || StepCommit(s, t, s') || StepAbort(s, t, s')
             || StepArchive(s, t, s')
    ensures MovesOnly(s, t, s')
  {
  }

  lemma NextMovesOnly(s: Sys, t: nat, s': Sys)
    requires Next(s, t, s')
    ensures MovesOnly(s, t, s')
  {
    if StepOwn(s, t, s') || StepLockKey(s, t, s') || StepAllocate(s, t, s') || StepAnnounce(s, t, s')
      || StepBegin(s, t, s') {
      LockingMovesOnly(s, t, s');
    } else if StepLookup(s, t, s') || StepReadTarget(s, t, s') || StepDraft(s, t, s') || StepReadStream(s, t, s')
      || StepCheck(s, t, s') {
      ReadingMovesOnly(s, t, s');
    } else {
      EndingMovesOnly(s, t, s');
    }
  }

  lemma AcceptedAddsFacts(b: Book, req: Request, env: Readings)
    requires Sequenced(b.id, b.facts, b.nextSequence) && LedgerRuns.Accepted(Execute(b, req, env).1)
    ensures Execute(b, req, env).0 != b
  {
    var n, d := AcceptedIsWrite(b, req, env);
    assert |d.candidates| > 0;
    assert |Write(b, KeyOf(req), DigestOf(req, n), env, d).facts| > |b.facts|;
  }

  lemma EndingIsAnswered(b: Book, s: Sys, t: nat, s': Sys)
    requires Good(s) && s.db == AfterAll(b, s.log) && Next(s, t, s')
    requires InPhase(s, t) && CommandStep(s, t, s') && InPhase(s', t) && s'.txs[t].phase.Finished?
    requires s'.txs[t].req == s.txs[t].req && s'.txs[t].env == s.txs[t].env
    ensures AnsweredSerially(b, s'.log, s'.txs[t])
  {
    var req, env, outcome := s.txs[t].req, s.txs[t].env, s'.txs[t].phase.outcome;
    CommandsAreAtomic(s, t, s', outcome);
    OnlyCommitsChangeRows(s, t, s');
    if LedgerRuns.Accepted(outcome) { AcceptedAddsFacts(s.db, req, env); }
    CommandIsNoArchive(s, t, s');
    assert s'.log[..|s.log|] == s.log;
    assert AnsweredAfter(b, s'.log, |s.log|, req, env, outcome);
  }

  lemma CommandIsNoArchive(s: Sys, t: nat, s': Sys)
    requires InPhase(s, t)
    ensures !StepArchiveCommit(s, t, s')
  {
  }

  lemma MoveKeepsAnswers(b: Book, s: Sys, s': Sys)
    requires SerialSoFar(b, s) && AllAnsweredSerially(b, s) && Moves(s, s')
    ensures AllAnsweredSerially(b, s')
  {
    var t :| Next(s, t, s');
    NextMovesOnly(s, t, s');
    var more := LogGrows(s, t, s');
    forall u | u in s'.txs ensures AnsweredSerially(b, s'.log, s'.txs[u]) {
      if u != t {
        assert AnsweredSerially(b, s.log, s.txs[u]);
        AnswersLast(b, s.log, more, s.txs[u]);
      } else if InPhase(s', t) && s'.txs[t].phase.Finished? {
        EndingIsAnswered(b, s, t, s');
      }
    }
  }

  lemma LogGrows(s: Sys, t: nat, s': Sys) returns (more: seq<Step>)
    requires Good(s) && Next(s, t, s')
    ensures s'.log == s.log + more
  {
    OnlyCommitsChangeRows(s, t, s');
    more := s'.log[|s.log|..];
  }

  lemma {:induction false} AnswersAreSerial(b: Book, ss: seq<Sys>)
    requires Inv(b) && Behaviour(b, ss)
    ensures AllAnsweredSerially(b, ss[|ss| - 1])
    decreases |ss|
  {
    if |ss| > 1 {
      var front, s, s' := ss[..|ss| - 1], ss[|ss| - 2], ss[|ss| - 1];
      LastMove(b, ss);
      BehavioursAreSerial(b, front);
      AnswersAreSerial(b, front);
      assert front[|front| - 1] == s;
      MoveKeepsAnswers(b, s, s');
    }
  }

  /** In every interleaving a finished command was answered as the serial run of the committed commands
    * answers it at some point of the run; an accepted one is itself the next command of that run. */
  lemma EveryAnswerIsSerial(b: Book, ss: seq<Sys>, t: nat) returns (k: nat)
    requires Inv(b) && Behaviour(b, ss) && InPhase(ss[|ss| - 1], t) && ss[|ss| - 1].txs[t].phase.Finished?
    ensures var last := ss[|ss| - 1];
            AnsweredAfter(b, last.log, k, last.txs[t].req, last.txs[t].env, last.txs[t].phase.outcome)
  {
    AnswersAreSerial(b, ss);
    var last := ss[|ss| - 1];
    assert AnsweredSerially(b, last.log, last.txs[t]);
    k :| AnsweredAfter(b, last.log, k, last.txs[t].req, last.txs[t].env, last.txs[t].phase.outcome);
  }

  // ----- No deadlock -----

  predicate Unended(s: Sys, t: nat) {
    t in s.txs && !Ended(s.txs[t])
  }

  /** Every lock is held by a running transaction that has reached it. */
  ghost predicate Tidy(s: Sys) {
    && (forall u :: u in s.shared ==> InPhase(s, u) && Unended(s, u) && !s.txs[u].phase.Begun?)
    && (forall k :: k in s.keyLocks ==>
        InPhase(s, s.keyLocks[k]) && PastKey(s.txs[s.keyLocks[k]].phase) && KeyOf(s.txs[s.keyLocks[k]].req) == k)
    && (s.sequenceLock.Some? ==> InPhase(s, s.sequenceLock.value) && PastAllocation(s.txs[s.sequenceLock.value].phase))
    && (s.streamLock.Some? ==> InPhase(s, s.streamLock.value) && s.txs[s.streamLock.value].phase.Announcing?)
    && (s.exclusive.Some? ==> InArchive(s, s.exclusive.value, Holding))
  }

  lemma EndingKeepsTidy(s: Sys, t: nat, tx: Tx)
    requires Tidy(s) && t in s.txs && Ended(tx)
    ensures Tidy(Release(s.(txs := s.txs[t := tx]), t))
  {
  }

  predicate Later(phase: Phase, phase': Phase) {
    && !phase'.Begun? && !phase'.Finished? && !phase'.Aborted?
    && (PastKey(phase) ==> PastKey(phase'))
    && (PastAllocation(phase) ==> PastAllocation(phase'))
    && (phase.Announcing? ==> phase'.Announcing?)
  }

  lemma AdvancingKeepsTidy(s: Sys, t: nat, phase: Phase)
    requires Tidy(s) && InPhase(s, t) && Later(s.txs[t].phase, phase)
    ensures Tidy(Enter(s, t, phase))
  {
  }

  lemma LockingKeepsTidy(s: Sys, t: nat, s': Sys)
    requires Tidy(s) && (StepOwn(s, t, s') || StepLockKey(s, t, s') || StepAllocate(s, t, s') || StepAnnounce(s, t, s'))
    ensures Tidy(s')
  {
    if StepOwn(s, t, s') {
      OwningKeepsTidy(s, t, s');
    } else if StepLockKey(s, t, s') {
      KeyingKeepsTidy(s, t, s');
    } else {
      CountingKeepsTidy(s, t, s');
    }
  }

  lemma OwningKeepsTidy(s: Sys, t: nat, s': Sys)
    requires Tidy(s) && StepOwn(s, t, s')
    ensures Tidy(s')
  {
    AdvancingKeepsTidy(s, t, s'.txs[t].phase);
  }

  lemma KeyingKeepsTidy(s: Sys, t: nat, s': Sys)
    requires Tidy(s) && StepLockKey(s, t, s')
    ensures Tidy(s')
  {
    AdvancingKeepsTidy(s, t, s'.txs[t].phase);
  }

  lemma CountingKeepsTidy(s: Sys, t: nat, s': Sys)
    requires Tidy(s) && (StepAllocate(s, t, s') || StepAnnounce(s, t, s'))
    ensures Tidy(s')
  {
    AdvancingKeepsTidy(s, t, s'.txs[t].phase);
  }

  /** t moved on without taking a lock, or ended and gave its locks up. */
  ghost predicate Steady(s: Sys, t: nat, s': Sys) {
    && InPhase(s, t) && InPhase(s', t)
    && var phase := s'.txs[t].phase;
       if phase.Finished? || phase.Aborted? then s' == Release(Enter(s, t, phase), t).(db := s'.db, log := s'.log)
       else s' == Enter(s, t, phase) && Later(s.txs[t].phase, phase)
  }

  lemma LookupIsSteady(s: Sys, t: nat, s': Sys)
    requires StepLookup(s, t, s') || StepReadTarget(s, t, s') || StepReadStream(s, t, s')
    ensures Steady(s, t, s')
  {
  }

  lemma DraftIsSteady(s: Sys, t: nat, s': Sys)
    requires StepDraft(s, t, s')
    ensures Steady(s, t, s')
  {
  }

  lemma CheckIsSteady(s: Sys, t: nat, s': Sys)
    requires StepCheck(s, t, s')
    ensures Steady(s, t, s')
  {
  }

  lemma EndIsSteady(s: Sys, t: nat, s': Sys)
    requires StepReject(s, t, s') || StepAnswer(s, t, s') || StepCommit(s, t, s') || StepAbort(s, t, s')
    ensures Steady(s, t, s')
  {
  }

  lemma SteadyKeepsTidy(s: Sys, t: nat, s': Sys)
    requires Tidy(s) && Steady(s, t, s')
    ensures Tidy(s')
  {
    var phase := s'.txs[t].phase;
    if phase.Finished? || phase.Aborted? {
      EndingKeepsTidy(s, t, s'.txs[t]);
    } else {
      AdvancingKeepsTidy(s, t, phase);
    }
  }

  lemma ArchivingKeepsTidy(s: Sys, t: nat, s': Sys)
    requires Tidy(s) && StepArchive(s, t, s')
    ensures Tidy(s')
  {
    if StepArchiveLock(s, t, s') {
      ArchiveLockKeepsTidy(s, t, s');
    } else {
      ArchiveEndKeepsTidy(s, t, s');
    }
  }

  lemma ArchiveLockKeepsTidy(s: Sys, t: nat, s': Sys)
    requires Tidy(s) && StepArchiveLock(s, t, s')
    ensures Tidy(s')
  {
  }

  lemma ArchiveEndKeepsTidy(s: Sys, t: nat, s': Sys)
    requires Tidy(s) && (StepArchiveMiss(s, t, s') || StepArchiveCommit(s, t, s') || StepArchiveAbort(s, t, s'))
    ensures Tidy(s')
  {
    var ended := s.txs[t].(archivePhase := ArchivePhase.Ended);
    EndingKeepsTidy(s, t, ended);
  }

  lemma NextKeepsTidy(s: Sys, t: nat, s': Sys)
    requires Tidy(s) && Next(s, t, s')
    ensures Tidy(s')
  {
    if StepBegin(s, t, s') {
    } else if StepArchive(s, t, s') {
      ArchivingKeepsTidy(s, t, s');
    } else if StepOwn(s, t, s') || StepLockKey(s, t, s') || StepAllocate(s, t, s') || StepAnnounce(s, t, s') {
      LockingKeepsTidy(s, t, s');
    } else {
      if StepDraft(s, t, s') { DraftIsSteady(s, t, s'); }
      else if StepCheck(s, t, s') { CheckIsSteady(s, t, s'); }
      else if StepLookup(s, t, s') || StepReadTarget(s, t, s') || StepReadStream(s, t, s') { LookupIsSteady(s, t, s'); }
      else { EndIsSteady(s, t, s'); }
      SteadyKeepsTidy(s, t, s');
    }
  }

  /** The next statement of the command draws its new ids. */
  predicate AboutToDraft(tx: Tx) {
    tx.CommandTx? && if tx.req.correction then tx.phase.TargetRead? else tx.phase.Allocated?
  }

  lemma LedgerStatementsProceed(s: Sys, t: nat) returns (s': Sys)
    requires InPhase(s, t) && PastAllocation(s.txs[t].phase) && TxOk(s, t)
    requires AboutToDraft(s.txs[t]) ==> FreshIds(s.db.facts, s.db.corrections, s.txs[t].env)
    requires s.txs[t].phase.TargetRead? ==> s.txs[t].req.correction
    requires s.streamLock.None? || s.txs[t].phase.Announcing?
    ensures CommandStep(s, t, s')
  {
    var CommandTx(req, env, phase) := s.txs[t];
    match phase {
      case Allocated(n, command, first) =>
        if req.correction {
          s' := Enter(s, t, TargetRead(n, command, first, FindFact(s.db.facts, req.target)));
          assert StepReadTarget(s, t, s');
        } else {
          s' := DraftProceeds(s, t, DraftCreate(req, env, first, command));
        }
      case TargetRead(n, command, first, target) =>
        s' := DraftProceeds(s, t,
                            DraftCorrect(target, DirectCorrection(s.db.corrections, req.target), req, env, first,
                                         command));
      case Reading(_, _, _, _, _, _) =>
        s' := ReadingProceeds(s, t);
      case Checked(n, command, first, draft) =>
        s' := Enter(s, t, Announcing(n, command, first, draft, s.db.nextPosition)).(streamLock := Some(t));
        assert StepAnnounce(s, t, s');
      case Announcing(n, _, first, draft, position) =>
        s' := Finish(s, t, draft.outcome).(db := Publish(s.db, req, env, n, first, draft, position),
                                           log := s.log + [Run(req, env)]);
        assert StepCommit(s, t, s');
    }
  }

  lemma ReadingProceeds(s: Sys, t: nat) returns (s': Sys)
    requires InPhase(s, t) && s.txs[t].phase.Reading? && TxOk(s, t)
    ensures CommandStep(s, t, s')
  {
    var Reading(n, command, first, draft, read, existing) := s.txs[t].phase;
    if read < |draft.candidates| {
      s' := Enter(s, t, Reading(n, command, first, draft, read + 1, WithRows(s, draft, read, existing)));
      assert StepReadStream(s, t, s');
    } else {
      var check := FullCheck(WithOriginals(existing, draft.originals), draft.candidates);
      s' := if check.Accepted? then Enter(s, t, Checked(n, command, first, draft))
            else Finish(s, t, Rejected(CheckRejection(check)));
      assert StepCheck(s, t, s');
    }
  }

  lemma DraftProceeds(s: Sys, t: nat, draft: Result<Draft, Rejection>) returns (s': Sys)
    requires InPhase(s, t) && FreshIds(s.db.facts, s.db.corrections, s.txs[t].env)
    requires var CommandTx(req, env, phase) := s.txs[t];
             if req.correction then
               phase.TargetRead? && draft
                 == DraftCorrect(phase.target, DirectCorrection(s.db.corrections, req.target), req, env, phase.first,
                                 phase.command)
             else
               phase.Allocated? && draft == DraftCreate(req, env, phase.first, phase.command)
    ensures StepDraft(s, t, s')
  {
    var phase := s.txs[t].phase;
    s' := if draft.Failure? then Finish(s, t, Rejected(draft.error))
          else Enter(s, t, Reading(phase.n, phase.command, phase.first, draft.value, 0, []));
  }

  lemma KeyStatementsProceed(s: Sys, t: nat) returns (s': Sys)
    requires InPhase(s, t) && s.sequenceLock.None?
    requires s.txs[t].phase.KeyHeld? || s.txs[t].phase.Answering? || s.txs[t].phase.Resolved?
    ensures CommandStep(s, t, s')
  {
    var CommandTx(req, env, phase) := s.txs[t];
    match phase {
      case KeyHeld(archived, n) =>
        var row := UnexpiredKey(s.db.keys, KeyOf(req), env.lookupAt);
        var command := ResolveCommand(n, env.lookup, env.now);
        s' := if row.Some? then Enter(s, t, Answering(n, row.value))
              else if archived then Finish(s, t, Rejected(PortfolioArchived))
              else if command.Failure? then Finish(s, t, Rejected(command.error))
              else Enter(s, t, Resolved(n, command.value));
        assert StepLookup(s, t, s');
      case Answering(n, row) =>
        s' := Finish(s, t, Answer(s.db.facts, s.db.corrections, DigestOf(req, n), row));
        assert StepAnswer(s, t, s');
      case Resolved(n, command) =>
        s' := Enter(s, t, Allocated(n, command, s.db.nextSequence)).(sequenceLock := Some(t));
        assert StepAllocate(s, t, s');
    }
  }

  lemma OwningProceeds(s: Sys, t: nat) returns (s': Sys)
    requires InPhase(s, t) && s.txs[t].phase.Owning? && KeyOf(s.txs[t].req) !in s.keyLocks
    ensures StepReject(s, t, s') || StepLockKey(s, t, s')
  {
    var prepared := PreparedFor(s, s.txs[t]);
    if prepared.Failure? {
      s' := Finish(s, t, Rejected(prepared.error));
    } else {
      s' := Enter(s, t, KeyHeld(s.txs[t].phase.archived, prepared.value)).(keyLocks :=
        s.keyLocks[KeyOf(s.txs[t].req) := t]);
    }
  }

  ghost predicate ArchiveProceeds(s: Sys, t: nat, s': Sys) {
    StepArchiveLock(s, t, s') || StepArchiveMiss(s, t, s') || StepArchiveCommit(s, t, s')
  }

  lemma FirstStatementProceeds(s: Sys, t: nat) returns (s': Sys)
    requires t in s.txs && s.exclusive.None? && s.shared == {}
    requires s.txs[t].CommandTx? ==> s.txs[t].phase.Begun?
    requires s.txs[t].ArchiveTx? ==> s.txs[t].archivePhase.Waiting?
    ensures StepOwn(s, t, s') || StepReject(s, t, s') || ArchiveProceeds(s, t, s')
  {
    if InPhase(s, t) {
      if s.txs[t].req.portfolio == s.db.id && s.txs[t].req.principal == s.db.owner {
        s' := Enter(s, t, Owning(s.db.archived)).(shared := s.shared + {t});
      } else {
        s' := Finish(s, t, Rejected(PreparedFor(s, s.txs[t]).error));
      }
    } else if s.txs[t].actor == s.db.owner && !s.db.archived {
      s' := EnterArchive(s, t, Holding).(exclusive := Some(t));
    } else {
      s' := EnterArchive(s, t, ArchivePhase.Ended);
    }
  }

  /** The ids a transaction is about to draw are new. */
  ghost predicate DrawsFreshIds(s: Sys) {
    forall u :: u in s.txs && AboutToDraft(s.txs[u]) ==> FreshIds(s.db.facts, s.db.corrections, s.txs[u].env)
  }

  /** In every state of every behaviour with an unended transaction, the fixed lock order leaves some
    * unended transaction a statement of its own to take. */
  lemma NoDeadlock(b: Book, ss: seq<Sys>, running: nat) returns (t: nat, s': Sys)
    requires Inv(b) && Behaviour(b, ss) && Unended(ss[|ss| - 1], running) && DrawsFreshIds(ss[|ss| - 1])
    ensures Unended(ss[|ss| - 1], t)
    ensures CommandStep(ss[|ss| - 1], t, s') || ArchiveProceeds(ss[|ss| - 1], t, s')
  {
    BehavioursAreSerial(b, ss);
    t, s' := SomeoneProceeds(ss[|ss| - 1], running);
  }

  lemma AllocatorProceeds(s: Sys) returns (t: nat, s': Sys)
    requires Good(s) && Tidy(s) && (s.streamLock.Some? || s.sequenceLock.Some?) && DrawsFreshIds(s)
    ensures Unended(s, t) && CommandStep(s, t, s')
  {
    t := if s.streamLock.Some? then s.streamLock.value else s.sequenceLock.value;
    assert TxOk(s, t);
    s' := LedgerStatementsProceed(s, t);
  }

  lemma SomeoneProceeds(s: Sys, running: nat) returns (t: nat, s': Sys)
    requires Good(s) && Tidy(s) && Unended(s, running) && DrawsFreshIds(s)
    ensures Unended(s, t) && (CommandStep(s, t, s') || ArchiveProceeds(s, t, s'))
  {
    if s.streamLock.Some? || s.sequenceLock.Some? {
      t, s' := AllocatorProceeds(s);
    } else if k :| k in s.keyLocks {
      t := s.keyLocks[k];
      s' := KeyStatementsProceed(s, t);
    } else if u :| u in s.shared {
      t := u;
      assert TxOk(s, t);
      s' := OwningProceeds(s, t);
    } else if s.exclusive.Some? {
      t := s.exclusive.value;
      s' := HoldingProceeds(s, t);
    } else {
      t := running;
      assert TxOk(s, t);
      s' := FirstStatementProceeds(s, t);
    }
  }

  lemma HoldingProceeds(s: Sys, t: nat) returns (s': Sys)
    requires InArchive(s, t, Holding)
    ensures StepArchiveCommit(s, t, s')
  {
    s' := Release(EnterArchive(s, t, ArchivePhase.Ended), t).(db := s.db.(archived := true),
                                                              log := s.log + [ArchiveBy(s.txs[t].actor)]);
  }
}
