/** The command service over its database rows: statements one by one, rolled back on any rejection. */
module LedgerStore {
  import opened Wrappers
  import opened Facts
  import opened Balances
  import opened Corrections
  import opened Commands
  import opened PartialReplay
  import opened LedgerBook
  import opened LedgerRuns

  lemma DraftIsReplayable(b: Book, req: Request, env: Readings, command: Command)
    requires Inv(b) && FreshIds(b.facts, b.corrections, env) && req.portfolio == b.id
    requires DraftOf(b.facts, b.corrections, req, env, b.nextSequence, command).Success?
    ensures var d := DraftOf(b.facts, b.corrections, req, env, b.nextSequence, command).value;
            && Sound(b.facts) && Admissible(b.id, b.facts, d.candidates, d.originals) && NoDuplicates(d.originals)
            && |d.candidates| == (if req.correction then 2 else 1) && (d.relationship.Some? <==> req.correction)
  {
    DraftShape(b, req, env, command);
    DraftIsAdmissible(b, req, env, DraftOf(b.facts, b.corrections, req, env, b.nextSequence, command).value);
  }

  class Store {
    var id: nat
    var owner: nat
    var archived: bool
    var facts: seq<Fact>
    var corrections: seq<Correction>
    var nextSequence: int
    var keys: map<KeyId, KeyRow>
    var nextPosition: int
    var events: seq<Event>

    function Contents(): Book
      reads this
    {
      Book(id, owner, archived, facts, corrections, nextSequence, keys, nextPosition, events)
    }

    constructor (id: nat, owner: nat)
      requires id != 0
      ensures Contents() == EmptyBook(id, owner) && Inv(Contents())
    {
      this.id, this.owner, archived := id, owner, false;
      facts, corrections, nextSequence := [], [], 1;
      keys, nextPosition, events := map[], 1, [];
      new;
      EmptyBookHolds(id, owner);
    }

    // ----- Statements -----

    /** The unexpired row of a key; an expired one is deleted on the way. */
    method Idempotency(k: KeyId, asOf: Instant) returns (row: Option<KeyRow>)
      modifies this`keys
      ensures row == UnexpiredKey(old(keys), k, asOf)
      ensures keys == WithoutExpiredKey(old(keys), k, asOf)
      ensures row.Some? <==> k in old(keys) && asOf < old(keys)[k].expiresAt
      ensures row.Some? ==> row.value == old(keys)[k] && keys == old(keys)
      ensures row.None? ==> keys == old(keys) - {k}
    {
      row := UnexpiredKey(keys, k, asOf);
      if row.None? {
        keys := WithoutExpiredKey(keys, k, asOf);
      }
    }

    /** One statement hands out the next one or two sequences. */
    method Allocate(correction: bool) returns (first: int, second: int)
      modifies this`nextSequence
      ensures first == old(nextSequence) && (correction ==> second == first + 1)
      ensures nextSequence == old(nextSequence) + (if correction then 2 else 1)
    {
      nextSequence := nextSequence + (if correction then 2 else 1);
      if correction {
        first, second := nextSequence - 2, nextSequence - 1;
      } else {
        first, second := nextSequence - 1, 0;
      }
    }

    method Insert(fact: Fact)
      modifies this`facts
      ensures facts == old(facts) + [fact]
    {
      facts := facts + [fact];
    }

    method InsertCorrection(c: Correction)
      modifies this`corrections
      ensures corrections == old(corrections) + [c]
    {
      corrections := corrections + [c];
    }

    method AppendEvent(draft: Draft, env: Readings)
      modifies this`nextPosition, this`events
      ensures events == old(events) + [EventOf(draft, env, old(nextPosition))]
      ensures nextPosition == old(nextPosition) + 1
    {
      nextPosition := nextPosition + 1;
      events := events + [EventOf(draft, env, nextPosition - 1)];
    }

    method Complete(k: KeyId, digest: Digest, draft: Draft, completedAt: Instant)
      modifies this`keys
      ensures keys == old(keys)[k := KeyRowOf(digest, draft, completedAt)]
    {
      keys := keys[k := KeyRowOf(digest, draft, completedAt)];
    }

    method Rollback(saved: Book)
      modifies this
      ensures Contents() == saved
    {
      id, owner, archived := saved.id, saved.owner, saved.archived;
      facts, corrections, nextSequence := saved.facts, saved.corrections, saved.nextSequence;
      keys, nextPosition, events := saved.keys, saved.nextPosition, saved.events;
    }

    // ----- The command -----

    /** Inserts a validated draft, announces it and completes the key. */
    method WriteDraft(k: KeyId, digest: Digest, env: Readings, draft: Draft)
      requires draft.relationship.Some? ==> |draft.candidates| == 2
      modifies this`facts, this`corrections, this`keys, this`nextPosition, this`events
      ensures facts == old(facts) + draft.candidates
      ensures corrections == old(corrections) + (if draft.relationship.Some? then [draft.relationship.value] else [])
      ensures keys == old(keys)[k := KeyRowOf(digest, draft, env.completedAt)]
      ensures events == old(events) + [EventOf(draft, env, old(nextPosition))] && nextPosition == old(nextPosition) + 1
    {
      if draft.relationship.Some? {
        InsertCorrection(draft.relationship.value);
      }
      for i := 0 to |draft.candidates|
        invariant facts == old(facts) + draft.candidates[..i]
        invariant corrections == old(corrections)
                  + (if draft.relationship.Some? then [draft.relationship.value] else [])
        invariant keys == old(keys) && events == old(events) && nextPosition == old(nextPosition)
      {
        Insert(draft.candidates[i]);
        assert draft.candidates[..i + 1] == draft.candidates[..i] + [draft.candidates[i]];
      }
      assert draft.candidates[..|draft.candidates|] == draft.candidates;
      AppendEvent(draft, env);
      Complete(k, digest, draft, env.completedAt);
    }

    /** From the allocated sequence to the completed key. */
    method Record(req: Request, env: Readings, k: KeyId, digest: Digest, command: Command, ghost before: Book)
      returns (outcome: Outcome)
      requires Inv(before) && FreshIds(before.facts, before.corrections, env) && req.portfolio == before.id
      requires k == KeyOf(req)
      requires Contents() == before.(keys := WithoutExpiredKey(before.keys, k, env.lookupAt))
      modifies this
      ensures var draft := DraftOf(before.facts, before.corrections, req, env, before.nextSequence, command);
              if draft.Failure? then outcome == Rejected(draft.error)
              else
                var (after, settled) := Settle(before, k, digest, env, draft.value);
                outcome == settled && (!outcome.Rejected? ==> Contents() == after)
    {
      var first, _ := Allocate(req.correction);
      var draft := DraftOf(facts, corrections, req, env, first, command);
      if draft.Failure? {
        return Rejected(draft.error);
      }
      DraftIsReplayable(before, req, env, command);
      outcome := WriteIfSound(k, digest, env, draft.value, before);
    }

    /** The replay, then the inserts. */
    method WriteIfSound(k: KeyId, digest: Digest, env: Readings, draft: Draft, ghost before: Book)
      returns (outcome: Outcome)
      requires Sound(facts) && Admissible(id, facts, draft.candidates, draft.originals)
      requires NoDuplicates(draft.originals)
      requires draft.relationship.Some? <==> |draft.candidates| == 2
      requires |draft.candidates| == 1 || |draft.candidates| == 2
      requires Contents() == before.(keys := WithoutExpiredKey(before.keys, k, env.lookupAt),
                                     nextSequence := before.nextSequence + |draft.candidates|)
      modifies this
      ensures var (after, settled) := Settle(before, k, digest, env, draft);
              outcome == settled && (FullCheck(before.facts, draft.candidates).Accepted? ==> Contents() == after)
    {
      var check := ValidateReplay(id, facts, draft.candidates, draft.originals);
      if !check.Accepted? {
        return Rejected(CheckRejection(check));
      }
      WriteDraft(k, digest, env, draft);
      outcome := draft.outcome;
    }

    method Perform(req: Request, env: Readings) returns (outcome: Outcome)
      requires Inv(Contents()) && FreshIds(facts, corrections, env)
      modifies this
      ensures outcome == LedgerBook.Execute(old(Contents()), req, env).1
      ensures !outcome.Rejected? ==> Contents() == LedgerBook.Execute(old(Contents()), req, env).0
    {
      ghost var before := Contents();
      var prepared := Prepare(id, owner, req, env.now);
      if prepared.Failure? {
        return Rejected(prepared.error);
      }
      var k, digest := KeyOf(req), DigestOf(req, prepared.value);
      var previous := Idempotency(k, env.lookupAt);
      if previous.Some? {
        return Answer(facts, corrections, digest, previous.value);
      }
      if archived {
        return Rejected(PortfolioArchived);
      }
      var command := ResolveCommand(prepared.value, env.lookup, env.now);
      if command.Failure? {
        return Rejected(command.error);
      }
      outcome := Record(req, env, k, digest, command.value, before);
    }

    /** Create and Correct: the whole command inside one database transaction. */
    method Execute(req: Request, env: Readings) returns (outcome: Outcome)
      requires Inv(Contents()) && FreshIds(facts, corrections, env)
      modifies this
      ensures (Contents(), outcome) == LedgerBook.Execute(old(Contents()), req, env)
      ensures Inv(Contents())
      ensures outcome.Rejected? || outcome.Answered? ==> Contents() == old(Contents())
    {
      var saved := Contents();
      ExecuteKeepsInv(saved, req, env);
      OnlyAcceptedCommandsWrite(saved, req, env);
      outcome := Perform(req, env);
      if outcome.Rejected? {
        Rollback(saved);
      }
    }

    method ArchiveOwned(actor: nat) returns (changed: bool)
      requires Inv(Contents())
      modifies this`archived
      ensures Contents() == Archive(old(Contents()), actor) && Inv(Contents())
      ensures archived <==> old(archived) || old(owner) == actor
      ensures changed <==> old(owner) == actor && !old(archived)
    {
      changed := owner == actor && !archived;
      if changed {
        archived := true;
      }
    }
  }
}
