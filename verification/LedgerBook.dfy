/** One portfolio's rows and what a command does to them, taken as one step.
  *
  * A Book holds the portfolio row, the facts in insertion order, the corrections, the sequence
  * counter, the idempotency keys and the outbox stream of the portfolio.
  */
module LedgerBook {
  import opened Wrappers
  import opened Facts
  import opened Balances
  import opened Corrections
  import opened Commands
  import opened PartialReplay
  import LedgerLaws

  const RETENTION: int := 8760 * 3600 * 1_000_000_000

  datatype KeyId = KeyId(scope: Scope, key: string)

  datatype KeyRow = KeyRow(digest: Digest, primary: nat, correction: nat, createdAt: Instant, expiresAt: Instant)

  datatype EventType = TransactionRecorded | TransactionCorrected

  datatype Event = Event(id: nat, eventType: EventType, references: seq<nat>, position: int, occurredAt: Instant)

  datatype Book = Book(
    id: nat,
    owner: nat,
    archived: bool,
    facts: seq<Fact>,
    corrections: seq<Correction>,
    nextSequence: int,
    keys: map<KeyId, KeyRow>,
    nextPosition: int,
    events: seq<Event>)

  /** What one execution reads from its surroundings: clock readings, new ids and the asset row. */
  datatype Readings = Readings(
    now: Instant,
    lookupAt: Instant,
    createdAt: Instant,
    eventAt: Instant,
    completedAt: Instant,
    firstId: nat,
    secondId: nat,
    correctionId: nat,
    eventId: nat,
    lookup: AssetLookup)

  datatype Outcome =
    | Rejected(reason: Rejection)
    | Recorded(fact: Fact)
    | Corrected(facts: CorrectionFacts)
    | Answered(fact: Fact, correction: Option<CorrectionFacts>)

  // ----- Row lookups -----

  function FindFact(facts: seq<Fact>, id: nat): (r: Option<Fact>)
    ensures r.Some? ==> r.value in facts && r.value.id == id
    ensures r.None? ==> forall f :: f in facts ==> f.id != id
  {
    if facts == [] then None
    else if facts[0].id == id then Some(facts[0])
    else FindFact(facts[1..], id)
  }

  function FindCorrection(corrections: seq<Correction>, id: nat): (r: Option<Correction>)
    ensures r.Some? ==> r.value in corrections && r.value.id == id
    ensures r.None? ==> forall c :: c in corrections ==> c.id != id
  {
    if corrections == [] then None
    else if corrections[0].id == id then Some(corrections[0])
    else FindCorrection(corrections[1..], id)
  }

  function DirectCorrection(corrections: seq<Correction>, original: nat): (r: Option<Correction>)
    ensures r.Some? ==> r.value in corrections && r.value.original == original
    ensures r.None? ==> forall c :: c in corrections ==> c.original != original
  {
    if corrections == [] then None
    else if corrections[0].original == original then Some(corrections[0])
    else DirectCorrection(corrections[1..], original)
  }

  function UnexpiredKey(keys: map<KeyId, KeyRow>, k: KeyId, asOf: Instant): Option<KeyRow> {
    if k in keys && keys[k].expiresAt > asOf then Some(keys[k]) else None
  }

  function WithoutExpiredKey(keys: map<KeyId, KeyRow>, k: KeyId, asOf: Instant): map<KeyId, KeyRow> {
    if k in keys && keys[k].expiresAt <= asOf then keys - {k} else keys
  }

  // ----- The phases of a command -----

  /** Everything checked before the idempotency key is locked. */
  function Prepare(id: nat, owner: nat, req: Request, now: Instant): Result<CommandInput, Rejection> {
    if req.principal == 0 then Failure(Unauthenticated)
    else if !ValidCorrelation(req.correlation) then Failure(InvalidInput)
    else if req.portfolio == 0 || req.portfolio != id || owner != req.principal then Failure(PortfolioNotFound)
    else if req.correction && req.target == 0 then Failure(TransactionNotFound)
    else if !ValidKey(req.key) then Failure(InvalidIdempotencyKey)
    else Normalize(req.input, now)
  }

  function KeyOf(req: Request): KeyId {
    KeyId(ScopeOf(req), req.key)
  }

  function StoredCorrection(facts: seq<Fact>, corrections: seq<Correction>, id: nat): Option<CorrectionFacts> {
    var c := FindCorrection(corrections, id);
    if c.None? then None
    else
      var reversal := FindFact(facts, c.value.reversal);
      var replacement := FindFact(facts, c.value.replacement);
      if reversal.None? || replacement.None? then None
      else Some(CorrectionFacts(reversal.value, replacement.value, c.value))
  }

  /** The answer to a command whose key is already taken. */
  function Answer(facts: seq<Fact>, corrections: seq<Correction>, digest: Digest, row: KeyRow): Outcome {
    if row.digest != digest then Rejected(IdempotencyConflict)
    else
      var primary := FindFact(facts, row.primary);
      if primary.None? then Rejected(TransactionNotFound)
      else if row.correction == 0 then Answered(primary.value, None)
      else
        var correction := StoredCorrection(facts, corrections, row.correction);
        if correction.None? then Rejected(TransactionNotFound)
        else Answered(primary.value, correction)
  }

  datatype Draft = Draft(
    candidates: seq<Fact>,
    originals: seq<Fact>,
    relationship: Option<Correction>,
    eventType: EventType,
    references: seq<nat>,
    primary: nat,
    correction: nat,
    outcome: Outcome)

  function DraftCreate(req: Request, env: Readings, first: int, command: Command): Result<Draft, Rejection> {
    var fact := NewFactFromCommand(env.firstId, req.portfolio, req.principal, first, env.createdAt, command);
    if fact.Failure? then Failure(BadFact(fact.error))
    else Success(Draft([fact.value], [], None, TransactionRecorded, [env.firstId], env.firstId, 0,
                       Recorded(fact.value)))
  }

  function CorrectionInputOf(
    req: Request, env: Readings, first: int, command: Command, original: Fact): CorrectionInput {
    CorrectionInput(original, false, command, env.correctionId, env.firstId, env.secondId, req.principal, first,
                    first + 1, env.createdAt)
  }

  function DraftCorrect(
    target: Option<Fact>, direct: Option<Correction>, req: Request, env: Readings, first: int, command: Command)
    : Result<Draft, Rejection>
  {
    if target.None? then Failure(TransactionNotFound)
    else
      var original := target.value;
      var invalid := ValidateCorrectionTarget(original, direct.Some?);
      if invalid.Some? then Failure(BadCorrection(invalid.value))
      else
        var built := BuildCorrection(CorrectionInputOf(req, env, first, command, original));
        if built.Failure? then Failure(BadCorrection(built.error))
        else
          var f := built.value;
          Success(Draft([f.reversal, f.replacement], [original], Some(f.relationship), TransactionCorrected,
                        [original.id, env.firstId, env.secondId, env.correctionId],
                        f.replacement.id, env.correctionId, Corrected(f)))
  }

  function DraftOf(
    facts: seq<Fact>, corrections: seq<Correction>, req: Request, env: Readings, first: int, command: Command)
    : Result<Draft, Rejection>
  {
    if req.correction then
      DraftCorrect(FindFact(facts, req.target), DirectCorrection(corrections, req.target), req, env, first, command)
    else DraftCreate(req, env, first, command)
  }

  function CheckRejection(check: Check): Rejection
    requires !check.Accepted?
  {
    match check
    case LedgerInvalid => InvalidLedger
    case QuantityInsufficient => InsufficientOrderedQuantity
    case LedgerBackdated => InvalidBackdatedLedger
  }

  function EventOf(draft: Draft, env: Readings, position: int): Event {
    Event(env.eventId, draft.eventType, draft.references, position, env.eventAt)
  }

  function KeyRowOf(digest: Digest, draft: Draft, completedAt: Instant): KeyRow {
    KeyRow(digest, draft.primary, draft.correction, completedAt, completedAt + RETENTION)
  }

  /** The book after all writes of an accepted command. */
  function Write(b: Book, k: KeyId, digest: Digest, env: Readings, draft: Draft): Book {
    b.(facts := b.facts + draft.candidates,
       corrections := b.corrections + (if draft.relationship.Some? then [draft.relationship.value] else []),
       nextSequence := b.nextSequence + |draft.candidates|,
       keys := WithoutExpiredKey(b.keys, k, env.lookupAt)[k := KeyRowOf(digest, draft, env.completedAt)],
       nextPosition := b.nextPosition + 1,
       events := b.events + [EventOf(draft, env, b.nextPosition)])
  }

  /** What validation of a draft against the whole ledger leads to. */
  ghost function Settle(b: Book, k: KeyId, digest: Digest, env: Readings, draft: Draft): (Book, Outcome) {
    var check := FullCheck(b.facts, draft.candidates);
    if check.Accepted? then (Write(b, k, digest, env, draft), draft.outcome)
    else (b, Rejected(CheckRejection(check)))
  }

  /** One command as one step; the replay is the replay of the whole ledger. */
  ghost function Execute(b: Book, req: Request, env: Readings): (Book, Outcome) {
    var prepared := Prepare(b.id, b.owner, req, env.now);
    if prepared.Failure? then (b, Rejected(prepared.error))
    else
      var k, digest := KeyOf(req), DigestOf(req, prepared.value);
      var previous := UnexpiredKey(b.keys, k, env.lookupAt);
      if previous.Some? then (b, Answer(b.facts, b.corrections, digest, previous.value))
      else if b.archived then (b, Rejected(PortfolioArchived))
      else
        var command := ResolveCommand(prepared.value, env.lookup, env.now);
        if command.Failure? then (b, Rejected(command.error))
        else
          var draft := DraftOf(b.facts, b.corrections, req, env, b.nextSequence, command.value);
          if draft.Failure? then (b, Rejected(draft.error))
          else Settle(b, k, digest, env, draft.value)
  }

  /** The archive statement changes an active portfolio of its owner only. */
  function Archive(b: Book, owner: nat): Book {
    if b.owner == owner && !b.archived then b.(archived := true) else b
  }

  // ----- The invariant of every reachable book -----

  predicate LinkHolds(facts: seq<Fact>, c: Correction) {
    exists o, r, p :: o in facts && r in facts && p in facts && Links(c, o, r, p)
  }

  predicate Links(c: Correction, o: Fact, r: Fact, p: Fact) {
    && o.id == c.original && r.id == c.reversal && p.id == c.replacement
    && !o.kind.Reversal? && r.kind.Reversal? && !p.kind.Reversal?
    && r.reversalOf == o.id && p.correctionOf == o.id
    && r.originatingCorrection == c.id && p.originatingCorrection == c.id
    && o.sequence < r.sequence && r.sequence + 1 == p.sequence
  }

  ghost predicate AllLinked(facts: seq<Fact>, corrections: seq<Correction>) {
    forall c :: c in corrections ==> c.id != 0 && LinkHolds(facts, c)
  }

  predicate Explained(corrections: seq<Correction>, f: Fact) {
    && (f.kind.Reversal? ==> exists c :: c in corrections && c.original == f.reversalOf && c.reversal == f.id)
    && (f.correctionOf != 0 ==> exists c :: c in corrections && c.original == f.correctionOf && c.replacement == f.id)
  }

  ghost predicate AllExplained(facts: seq<Fact>, corrections: seq<Correction>) {
    forall f :: f in facts ==> Explained(corrections, f)
  }

  ghost predicate OnePerOriginal(corrections: seq<Correction>) {
    forall c, d :: c in corrections && d in corrections && (c.original == d.original || c.id == d.id) ==> c == d
  }

  /** Correction rows and the links inside facts tell the same story, once per original. */
  ghost predicate CorrectionsMatch(facts: seq<Fact>, corrections: seq<Correction>) {
    AllLinked(facts, corrections) && AllExplained(facts, corrections) && OnePerOriginal(corrections)
  }

  ghost predicate Sequenced(id: nat, facts: seq<Fact>, nextSequence: int) {
    && nextSequence == |facts| + 1
    && (forall i :: 0 <= i < |facts| ==> facts[i].sequence == i + 1 && facts[i].portfolio == id)
  }

  /** A key row leads to a stored answer and lives exactly for the retention period. */
  ghost predicate KeysMatch(facts: seq<Fact>, corrections: seq<Correction>, keys: map<KeyId, KeyRow>) {
    forall k :: k in keys ==> KeyMatches(facts, corrections, k, keys[k])
  }

  ghost predicate KeyMatches(facts: seq<Fact>, corrections: seq<Correction>, k: KeyId, row: KeyRow) {
    && row.expiresAt == row.createdAt + RETENTION
    && row.digest.scope == k.scope
    && (exists f :: f in facts && f.id == row.primary)
    && (k.scope.CreateScope? <==> row.correction == 0)
    && (row.correction != 0 ==> exists c :: c in corrections && c.id == row.correction && c.replacement == row.primary)
  }

  /** The ids an event announces as newly written. */
  function Announced(e: Event): seq<nat> {
    match e.eventType
    case TransactionRecorded => if |e.references| == 1 then e.references else []
    case TransactionCorrected => if |e.references| == 4 then e.references[1..3] else []
  }

  function AllAnnounced(events: seq<Event>): seq<nat> {
    if events == [] then [] else AllAnnounced(events[..|events| - 1]) + Announced(events[|events| - 1])
  }

  function Ids(facts: seq<Fact>): (ids: seq<nat>)
    ensures |ids| == |facts| && forall i :: 0 <= i < |facts| ==> ids[i] == facts[i].id
  {
    seq(|facts|, i requires 0 <= i < |facts| => facts[i].id)
  }

  /** Read in position order, the outbox lists exactly the facts in sequence order. */
  ghost predicate EventsMatch(facts: seq<Fact>, events: seq<Event>, nextPosition: int) {
    && nextPosition == |events| + 1
    && (forall i :: 0 <= i < |events| ==> events[i].position == i + 1)
    && AllAnnounced(events) == Ids(facts)
  }

  ghost predicate Inv(b: Book) {
    && b.id != 0
    && Sound(b.facts)
    && Sequenced(b.id, b.facts, b.nextSequence)
    && CorrectionsMatch(b.facts, b.corrections)
    && KeysMatch(b.facts, b.corrections, b.keys)
    && EventsMatch(b.facts, b.events, b.nextPosition)
  }

  /** New ids are new; they are drawn at random. */
  ghost predicate FreshIds(facts: seq<Fact>, corrections: seq<Correction>, env: Readings) {
    && env.firstId != 0 && env.secondId != 0 && env.correctionId != 0 && env.firstId != env.secondId
    && (forall f :: f in facts ==> f.id != env.firstId && f.id != env.secondId)
    && (forall c :: c in corrections ==> c.id != env.correctionId)
  }

  function EmptyBook(id: nat, owner: nat): Book {
    Book(id, owner, false, [], [], 1, map[], 1, [])
  }

  lemma EmptyBookHolds(id: nat, owner: nat)
    requires id != 0
    ensures Inv(EmptyBook(id, owner))
  {
    assert Ids([]) == [];
  }

  // ----- Every command keeps the invariant -----

  /** What a draft of either kind looks like. */
  ghost predicate IsDraft(b: Book, req: Request, env: Readings, d: Draft) {
    if req.correction then
      exists o, r, p, c :: IsCorrectionDraft(b, req, env, d, o, r, p, c)
    else
      exists f :: IsCreationDraft(b, env, d, f)
  }

  ghost predicate IsCreationDraft(b: Book, env: Readings, d: Draft, f: Fact) {
    && d == Draft([f], [], None, TransactionRecorded, [env.firstId], env.firstId, 0, Recorded(f))
    && f.sequence == b.nextSequence && f.portfolio == b.id && f.id == env.firstId
    && !f.kind.Reversal? && f.correctionOf == 0
  }

  ghost predicate IsCorrectionDraft(
    b: Book, req: Request, env: Readings, d: Draft, o: Fact, r: Fact, p: Fact, c: Correction) {
    && d == Draft([r, p], [o], Some(c), TransactionCorrected, [o.id, env.firstId, env.secondId, env.correctionId],
                  env.secondId, env.correctionId, Corrected(CorrectionFacts(r, p, c)))
    && r.sequence == b.nextSequence && p.sequence == b.nextSequence + 1 && r.portfolio == p.portfolio == b.id
    && o in b.facts && o.id == req.target && DirectCorrection(b.corrections, o.id).None?
    && r.id == env.firstId && p.id == env.secondId && c.id == env.correctionId && c.id != 0
    && Links(c, o, r, p) && IsOriginalOf(o, r) && r.correctionOf == 0
  }

  lemma DraftShape(b: Book, req: Request, env: Readings, command: Command)
    requires Sequenced(b.id, b.facts, b.nextSequence) && req.portfolio == b.id
    requires DraftOf(b.facts, b.corrections, req, env, b.nextSequence, command).Success?
    ensures IsDraft(b, req, env, DraftOf(b.facts, b.corrections, req, env, b.nextSequence, command).value)
  {
    var d := DraftOf(b.facts, b.corrections, req, env, b.nextSequence, command).value;
    if req.correction {
      var o := FindFact(b.facts, req.target).value;
      var f := BuildCorrection(CorrectionInputOf(req, env, b.nextSequence, command, o)).value;
      assert IsCorrectionDraft(b, req, env, d, o, f.reversal, f.replacement, f.relationship);
    } else {
      assert IsCreationDraft(b, env, d, d.candidates[0]);
    }
  }

  lemma NotYetReversed(facts: seq<Fact>, corrections: seq<Correction>, o: Fact)
    requires CorrectionsMatch(facts, corrections) && DirectCorrection(corrections, o.id).None?
    ensures !LedgerLaws.IsReversed(facts, o)
  {
  }

  lemma DraftIsAdmissible(b: Book, req: Request, env: Readings, d: Draft)
    requires Sequenced(b.id, b.facts, b.nextSequence) && CorrectionsMatch(b.facts, b.corrections)
    requires UniqueIds(b.facts) && FreshIds(b.facts, b.corrections, env) && IsDraft(b, req, env, d)
    ensures Admissible(b.id, b.facts, d.candidates, d.originals) && NoDuplicates(d.originals)
  {
    if req.correction {
      var o, r, p, c :| IsCorrectionDraft(b, req, env, d, o, r, p, c);
      NotYetReversed(b.facts, b.corrections, o);
      assert r in d.candidates;
    }
  }

  lemma AllLinkedMore(facts: seq<Fact>, corrections: seq<Correction>, o: Fact, r: Fact, p: Fact, c: Correction)
    requires AllLinked(facts, corrections) && o in facts && Links(c, o, r, p) && c.id != 0
    ensures AllLinked(facts + [r, p], corrections + [c])
  {
    var facts' := facts + [r, p];
    assert facts'[|facts|] == r && facts'[|facts| + 1] == p;
    assert o in facts' && r in facts' && p in facts';
    forall d | d in corrections + [c] ensures d.id != 0 && LinkHolds(facts', d) {
      if d in corrections { LinkHoldsMore(facts, facts', d); }
    }
  }

  lemma LinkHoldsMore(facts: seq<Fact>, facts': seq<Fact>, d: Correction)
    requires LinkHolds(facts, d) && forall f :: f in facts ==> f in facts'
    ensures LinkHolds(facts', d)
  {
    var o, r, p :| o in facts && r in facts && p in facts && Links(d, o, r, p);
    assert o in facts' && r in facts' && p in facts';
  }

  lemma AllExplainedMore(
    facts: seq<Fact>, corrections: seq<Correction>, added: seq<Fact>, corrections': seq<Correction>)
    requires AllExplained(facts, corrections) && corrections <= corrections'
    requires forall f :: f in added ==> Explained(corrections', f)
    ensures AllExplained(facts + added, corrections')
  {
    assert forall c :: c in corrections ==> c in corrections';
    forall f | f in facts ensures Explained(corrections', f) {
      assert Explained(corrections, f);
    }
  }

  lemma OnePerOriginalMore(corrections: seq<Correction>, c: Correction)
    requires OnePerOriginal(corrections) && DirectCorrection(corrections, c.original).None?
    requires forall d :: d in corrections ==> d.id != c.id
    ensures OnePerOriginal(corrections + [c])
  {
    assert forall d :: d in corrections + [c] ==> d in corrections || d == c;
  }

  lemma CorrectionsMatchMore(facts: seq<Fact>, corrections: seq<Correction>, o: Fact, r: Fact, p: Fact, c: Correction)
    requires CorrectionsMatch(facts, corrections)
    requires o in facts && Links(c, o, r, p) && c.id != 0 && DirectCorrection(corrections, o.id).None?
    requires (forall d :: d in corrections ==> d.id != c.id) && r.correctionOf == 0
    ensures CorrectionsMatch(facts + [r, p], corrections + [c])
  {
    AllLinkedMore(facts, corrections, o, r, p, c);
    assert c in corrections + [c];
    OnePerOriginalMore(corrections, c);
    assert Explained(corrections + [c], r) && Explained(corrections + [c], p);
    AllExplainedMore(facts, corrections, [r, p], corrections + [c]);
  }

  lemma CorrectionsMatchAfterCreate(facts: seq<Fact>, corrections: seq<Correction>, f: Fact)
    requires CorrectionsMatch(facts, corrections) && !f.kind.Reversal? && f.correctionOf == 0
    ensures CorrectionsMatch(facts + [f], corrections)
  {
    forall d | d in corrections ensures LinkHolds(facts + [f], d) {
      LinkHoldsMore(facts, facts + [f], d);
    }
    AllExplainedMore(facts, corrections, [f], corrections);
  }

  lemma KeyMatchesMore(
    facts: seq<Fact>, corrections: seq<Correction>, facts': seq<Fact>, corrections': seq<Correction>, k: KeyId,
    row: KeyRow)
    requires facts <= facts' && corrections <= corrections' && KeyMatches(facts, corrections, k, row)
    ensures KeyMatches(facts', corrections', k, row)
  {
    var f :| f in facts && f.id == row.primary;
    assert f in facts';
    if row.correction != 0 {
      var c :| c in corrections && c.id == row.correction && c.replacement == row.primary;
      assert c in corrections';
    }
  }

  lemma KeysMatchMore(facts: seq<Fact>, corrections: seq<Correction>, keys: map<KeyId, KeyRow>,
                      facts': seq<Fact>, corrections': seq<Correction>, k: KeyId, asOf: Instant, row: KeyRow)
    requires KeysMatch(facts, corrections, keys) && facts <= facts' && corrections <= corrections'
    requires KeyMatches(facts', corrections', k, row)
    ensures KeysMatch(facts', corrections', WithoutExpiredKey(keys, k, asOf)[k := row])
  {
    var keys' := WithoutExpiredKey(keys, k, asOf)[k := row];
    forall j | j in keys' ensures KeyMatches(facts', corrections', j, keys'[j]) {
      if j != k {
        KeyMatchesMore(facts, corrections, facts', corrections', j, keys[j]);
      }
    }
  }

  lemma EventsMatchMore(facts: seq<Fact>, events: seq<Event>, position: int, added: seq<Fact>, e: Event)
    requires EventsMatch(facts, events, position) && e.position == position && Announced(e) == Ids(added)
    ensures EventsMatch(facts + added, events + [e], position + 1)
  {
    var events' := events + [e];
    assert events'[..|events'| - 1] == events;
    assert Ids(facts + added) == Ids(facts) + Ids(added);
  }

  lemma SequencedMore(id: nat, facts: seq<Fact>, next: int, added: seq<Fact>)
    requires Sequenced(id, facts, next)
    requires forall i :: 0 <= i < |added| ==> added[i].sequence == next + i && added[i].portfolio == id
    ensures Sequenced(id, facts + added, next + |added|)
  {
  }

  lemma CreationKeyMatches(
    facts: seq<Fact>, corrections: seq<Correction>, k: KeyId, digest: Digest, d: Draft, at: Instant, f: Fact)
    requires f in facts && f.id == d.primary && d.correction == 0 && k.scope.CreateScope? && digest.scope == k.scope
    ensures KeyMatches(facts, corrections, k, KeyRowOf(digest, d, at))
  {
  }

  lemma WriteCreationKeepsLogs(b: Book, k: KeyId, digest: Digest, env: Readings, d: Draft, f: Fact)
    requires KeysMatch(b.facts, b.corrections, b.keys) && EventsMatch(b.facts, b.events, b.nextPosition)
    requires IsCreationDraft(b, env, d, f) && k.scope.CreateScope? && digest.scope == k.scope
    ensures var b' := Write(b, k, digest, env, d);
            KeysMatch(b'.facts, b'.corrections, b'.keys) && EventsMatch(b'.facts, b'.events, b'.nextPosition)
  {
    var b' := Write(b, k, digest, env, d);
    assert b'.facts[|b.facts|] == f && b'.corrections == b.corrections;
    CreationKeyMatches(b'.facts, b'.corrections, k, digest, d, env.completedAt, f);
    KeysMatchMore(b.facts, b.corrections, b.keys, b'.facts, b'.corrections, k, env.lookupAt,
                  KeyRowOf(digest, d, env.completedAt));
    assert Ids([f]) == [env.firstId];
    EventsMatchMore(b.facts, b.events, b.nextPosition, [f], EventOf(d, env, b.nextPosition));
  }

  lemma WriteCreationKeepsTables(b: Book, k: KeyId, digest: Digest, env: Readings, d: Draft, f: Fact)
    requires Sequenced(b.id, b.facts, b.nextSequence) && CorrectionsMatch(b.facts, b.corrections)
    requires IsCreationDraft(b, env, d, f)
    ensures var b' := Write(b, k, digest, env, d);
            Sequenced(b'.id, b'.facts, b'.nextSequence) && CorrectionsMatch(b'.facts, b'.corrections)
  {
    SequencedMore(b.id, b.facts, b.nextSequence, [f]);
    CorrectionsMatchAfterCreate(b.facts, b.corrections, f);
    assert Write(b, k, digest, env, d).corrections == b.corrections;
  }

  lemma WriteCreationKeepsInv(b: Book, k: KeyId, digest: Digest, env: Readings, d: Draft, f: Fact)
    requires Inv(b) && IsCreationDraft(b, env, d, f) && Sound(b.facts + d.candidates)
    requires k.scope.CreateScope? && digest.scope == k.scope
    ensures Inv(Write(b, k, digest, env, d))
  {
    WriteCreationKeepsTables(b, k, digest, env, d, f);
    WriteCreationKeepsLogs(b, k, digest, env, d, f);
  }

  lemma CorrectionKeyMatches(
    facts: seq<Fact>, corrections: seq<Correction>, k: KeyId, digest: Digest, d: Draft, at: Instant, p: Fact,
    c: Correction)
    requires p in facts && c in corrections && p.id == d.primary && c.id == d.correction && c.replacement == p.id
             && c.id != 0
    requires k.scope.CorrectScope? && digest.scope == k.scope
    ensures KeyMatches(facts, corrections, k, KeyRowOf(digest, d, at))
  {
  }

  lemma WriteCorrectionKeepsLogs(
    b: Book, req: Request, k: KeyId, digest: Digest, env: Readings, d: Draft, o: Fact, r: Fact, p: Fact, c: Correction)
    requires KeysMatch(b.facts, b.corrections, b.keys) && EventsMatch(b.facts, b.events, b.nextPosition)
    requires IsCorrectionDraft(b, req, env, d, o, r, p, c) && k.scope.CorrectScope? && digest.scope == k.scope
    ensures var b' := Write(b, k, digest, env, d);
            KeysMatch(b'.facts, b'.corrections, b'.keys) && EventsMatch(b'.facts, b'.events, b'.nextPosition)
  {
    var b' := Write(b, k, digest, env, d);
    assert b'.facts[|b.facts| + 1] == p && b'.corrections[|b.corrections|] == c;
    CorrectionKeyMatches(b'.facts, b'.corrections, k, digest, d, env.completedAt, p, c);
    KeysMatchMore(b.facts, b.corrections, b.keys, b'.facts, b'.corrections, k, env.lookupAt,
                  KeyRowOf(digest, d, env.completedAt));
    assert Ids([r, p]) == [env.firstId, env.secondId] == d.references[1..3];
    EventsMatchMore(b.facts, b.events, b.nextPosition, [r, p], EventOf(d, env, b.nextPosition));
  }

  lemma WriteCorrectionKeepsTables(
    b: Book, req: Request, k: KeyId, digest: Digest, env: Readings, d: Draft, o: Fact, r: Fact, p: Fact, c: Correction)
    requires Sequenced(b.id, b.facts, b.nextSequence) && CorrectionsMatch(b.facts, b.corrections)
    requires IsCorrectionDraft(b, req, env, d, o, r, p, c) && FreshIds(b.facts, b.corrections, env)
    ensures var b' := Write(b, k, digest, env, d);
            Sequenced(b'.id, b'.facts, b'.nextSequence) && CorrectionsMatch(b'.facts, b'.corrections)
  {
    SequencedMore(b.id, b.facts, b.nextSequence, [r, p]);
    CorrectionsMatchMore(b.facts, b.corrections, o, r, p, c);
  }

  lemma WriteCorrectionKeepsInv(
    b: Book, req: Request, k: KeyId, digest: Digest, env: Readings, d: Draft, o: Fact, r: Fact, p: Fact, c: Correction)
    requires Inv(b) && IsCorrectionDraft(b, req, env, d, o, r, p, c) && Sound(b.facts + d.candidates)
    requires FreshIds(b.facts, b.corrections, env) && k.scope.CorrectScope? && digest.scope == k.scope
    ensures Inv(Write(b, k, digest, env, d))
  {
    WriteCorrectionKeepsTables(b, req, k, digest, env, d, o, r, p, c);
    WriteCorrectionKeepsLogs(b, req, k, digest, env, d, o, r, p, c);
  }

  lemma SettleKeepsInv(b: Book, req: Request, digest: Digest, env: Readings, d: Draft)
    requires Inv(b) && FreshIds(b.facts, b.corrections, env) && IsDraft(b, req, env, d) && digest.scope == ScopeOf(req)
    ensures Inv(Settle(b, KeyOf(req), digest, env, d).0)
  {
    if FullCheck(b.facts, d.candidates).Accepted? {
      WriteKeepsInv(b, req, KeyOf(req), digest, env, d);
    }
  }

  lemma WriteKeepsInv(b: Book, req: Request, k: KeyId, digest: Digest, env: Readings, d: Draft)
    requires Inv(b) && FreshIds(b.facts, b.corrections, env) && IsDraft(b, req, env, d)
    requires digest.scope == k.scope == ScopeOf(req) && Sound(b.facts + d.candidates)
    ensures Inv(Write(b, k, digest, env, d))
  {
    if req.correction {
      var o, r, p, c :| IsCorrectionDraft(b, req, env, d, o, r, p, c);
      WriteCorrectionKeepsInv(b, req, k, digest, env, d, o, r, p, c);
    } else {
      var f :| IsCreationDraft(b, env, d, f);
      WriteCreationKeepsInv(b, k, digest, env, d, f);
    }
  }

  /** A command that is not settled changes nothing. */
  lemma ExecutedOrSettled(b: Book, req: Request, env: Readings) returns (digest: Digest, d: Draft, settled: bool)
    requires Sequenced(b.id, b.facts, b.nextSequence)
    ensures if settled then
              && IsDraft(b, req, env, d) && digest.scope == ScopeOf(req)
              && Execute(b, req, env) == Settle(b, KeyOf(req), digest, env, d)
            else Execute(b, req, env).0 == b
  {
    var none := Draft([], [], None, TransactionRecorded, [], 0, 0, Rejected(InvalidInput));
    digest, d, settled := Digest(ScopeOf(req), 0, req.input), none, false;
    var prepared := Prepare(b.id, b.owner, req, env.now);
    if prepared.Success? && UnexpiredKey(b.keys, KeyOf(req), env.lookupAt).None? && !b.archived {
      var command := ResolveCommand(prepared.value, env.lookup, env.now);
      if command.Success? {
        var draft := DraftOf(b.facts, b.corrections, req, env, b.nextSequence, command.value);
        if draft.Success? {
          DraftShape(b, req, env, command.value);
          digest, d, settled := DigestOf(req, prepared.value), draft.value, true;
        }
      }
    }
  }

  /** The main invariant: every command, whatever its outcome, keeps the book consistent. */
  lemma ExecuteKeepsInv(b: Book, req: Request, env: Readings)
    requires Inv(b) && FreshIds(b.facts, b.corrections, env)
    ensures Inv(Execute(b, req, env).0)
  {
    var digest, d, settled := ExecutedOrSettled(b, req, env);
    if settled {
      SettleKeepsInv(b, req, digest, env, d);
    }
  }
}
