/** What a command records and when it is accepted, field by field and rule by rule. */
module LedgerRecords {
  import opened Wrappers
  import opened Facts
  import opened Balances
  import opened Corrections
  import opened Commands
  import opened PartialReplay
  import opened LedgerBook
  import LedgerTotals

  // ----- The rules for a request -----

  predicate IsLetterOrDigit(ch: char) {
    '0' <= ch <= '9' || 'A' <= ch <= 'Z' || 'a' <= ch <= 'z'
  }

  /** One to 128 letters, digits, dots, underscores and hyphens. */
  predicate IsCorrelation(id: string) {
    && 1 <= |id| <= 128
    && forall i :: 0 <= i < |id| ==> IsLetterOrDigit(id[i]) || id[i] == '.' || id[i] == '_' || id[i] == '-'
  }

  /** 16 to 128 such characters or tildes, the first a letter or digit. */
  predicate IsClientKey(key: string) {
    && 16 <= |key| <= 128 && IsLetterOrDigit(key[0])
    && forall i :: 0 <= i < |key| ==>
         IsLetterOrDigit(key[i]) || key[i] == '.' || key[i] == '_' || key[i] == '~' || key[i] == '-'
  }

  /** The instant is set, in whole microseconds and not in the future. */
  predicate IsPast(t: Facts.Instant, now: Facts.Instant) {
    t != 0 && now != 0 && t % 1000 == 0 && t <= now
  }

  predicate TextsFit(input: CommandInput) {
    (input.note.Some? ==> |input.note.value| <= 2000) && (input.reference.Some? ==> |input.reference.value| <= 256)
  }

  predicate IsPositiveAmount(a: Amount) {
    a.Some? && a.value > 0
  }

  predicate FieldsSuitKind(input: CommandInput) {
    match input.kind
    case Reversal => false
    case Buy => IsTradeInput(input)
    case Sell => IsTradeInput(input)
    case Dividend => input.assetId != 0 && IsCashInput(input)
    case _ => input.assetId == 0 && IsCashInput(input)
  }

  predicate IsTradeInput(input: CommandInput) {
    && input.assetId != 0 && IsPositiveAmount(input.quantity) && IsPositiveAmount(input.unitPrice) && input.amount.None?
    && (input.fee.Some? ==> input.fee.value >= 0)
  }

  predicate IsCashInput(input: CommandInput) {
    IsPositiveAmount(input.amount) && input.quantity.None? && input.unitPrice.None? && input.fee.None?
  }

  /** The first rule a request breaks before its key is looked up, in the order in which they are checked. */
  function Objection(id: nat, owner: nat, req: Request, now: Facts.Instant): Option<Rejection> {
    if req.principal == 0 then Some(Unauthenticated)
    else if !IsCorrelation(req.correlation) then Some(Rejection.InvalidInput)
    else if req.portfolio == 0 || req.portfolio != id || req.principal != owner then Some(PortfolioNotFound)
    else if req.correction && req.target == 0 then Some(TransactionNotFound)
    else if !IsClientKey(req.key) then Some(InvalidIdempotencyKey)
    else if req.input.kind == Reversal then Some(InvalidTransactionKind)
    else if req.input.currency != "USD" then Some(InvalidCurrency)
    else if !IsPast(req.input.effectiveAt, now) then Some(InvalidEffectiveAt)
    else if !TextsFit(req.input) || !FieldsSuitKind(req.input) then Some(InvalidTransactionFields)
    else None
  }

  function WithFee(input: CommandInput): CommandInput {
    if (input.kind == Buy || input.kind == Sell) && input.fee.None? then input.(fee := Some(0)) else input
  }

  lemma CharactersAgree(req: Request)
    ensures ValidCorrelation(req.correlation) <==> IsCorrelation(req.correlation)
    ensures ValidKey(req.key) <==> IsClientKey(req.key)
  {
    assert forall ch: char :: ch in "._-" <==> ch == '.' || ch == '_' || ch == '-';
    assert forall ch: char :: ch in "._~-" <==> ch == '.' || ch == '_' || ch == '~' || ch == '-';
  }

  lemma FieldsAgree(input: CommandInput)
    requires !input.kind.Reversal?
    ensures FieldsFit(WithDefaultFee(input)) <==> FieldsSuitKind(input)
    ensures WithDefaultFee(input) == WithFee(input)
  {
  }

  /** A request is refused for the first rule it breaks and otherwise prepared with its missing trade fee filled in. */
  lemma PreparedMeans(id: nat, owner: nat, req: Request, now: Facts.Instant)
    ensures var objection := Objection(id, owner, req, now);
            Prepare(id, owner, req, now)
            == if objection.Some? then Result<CommandInput, Rejection>.Failure(objection.value)
               else Result<CommandInput, Rejection>.Success(WithFee(req.input))
  {
    CharactersAgree(req);
    if !req.input.kind.Reversal? {
      FieldsAgree(req.input);
    }
  }

  /** The named asset is known and may be held. */
  predicate AssetIsEligible(asset: AssetSnapshot) {
    && asset.id != 0 && asset.assetType in {Equity, Etf} && asset.currency == "USD"
    && asset.exchange in {"NYSE", "NASDAQ", "NYSEARCA", "AMEX"}
  }

  function AssetObjection(input: CommandInput, lookup: AssetLookup): Option<Rejection> {
    if input.assetId == 0 then None
    else if lookup.None? || lookup.value.id != input.assetId then Some(AssetNotFound)
    else if !AssetIsEligible(lookup.value) then Some(AssetFinanciallyIneligible)
    else None
  }

  // ----- What is recorded -----

  /** The fact a request asks for. */
  function Asked(req: Request, env: Readings, id: nat, sequence: int): Fact {
    Fact(
      id := id,
      portfolio := req.portfolio,
      createdBy := req.principal,
      kind := req.input.kind,
      asset := if req.input.assetId == 0 then None else env.lookup,
      quantity := req.input.quantity,
      unitPrice := req.input.unitPrice,
      fee := WithFee(req.input).fee,
      amount := req.input.amount,
      currency := req.input.currency,
      effectiveAt := req.input.effectiveAt,
      sequence := sequence,
      note := req.input.note,
      reference := req.input.reference,
      reversalOf := 0,
      correctionOf := if req.correction then req.target else 0,
      originatingCorrection := if req.correction then env.correctionId else 0,
      createdAt := env.createdAt)
  }

  /** The fact that undoes the target of a correction. */
  function Undoing(o: Fact, req: Request, env: Readings, sequence: int): Fact {
    Fact(
      id := env.firstId,
      portfolio := o.portfolio,
      createdBy := req.principal,
      kind := Reversal,
      asset := o.asset,
      quantity := o.quantity,
      unitPrice := o.unitPrice,
      fee := o.fee,
      amount := o.amount,
      currency := o.currency,
      effectiveAt := o.effectiveAt,
      sequence := sequence,
      note := None,
      reference := None,
      reversalOf := req.target,
      correctionOf := 0,
      originatingCorrection := env.correctionId,
      createdAt := env.createdAt)
  }

  function Linking(req: Request, env: Readings): Correction {
    Correction(
      id := env.correctionId,
      portfolio := req.portfolio,
      original := req.target,
      reversal := env.firstId,
      replacement := env.secondId,
      actor := req.principal,
      createdAt := env.createdAt)
  }

  lemma EligibleMeans(asset: AssetSnapshot)
    ensures ValidSnapshot(asset) <==> AssetIsEligible(asset)
  {
  }

  /** A prepared request is resolved unless its asset is unknown or not eligible. */
  lemma ResolvedMeans(req: Request, env: Readings)
    requires Normalize(req.input, env.now) == Result<CommandInput, Rejection>.Success(WithFee(req.input))
    ensures var r := ResolveCommand(WithFee(req.input), env.lookup, env.now);
            var objection := AssetObjection(req.input, env.lookup);
            && (r.Failure? <==> objection.Some?) && (r.Failure? ==> r.error == objection.value)
            && (r.Success? ==> ValidCommand(r.value) && IsCommandOf(req, env, r.value))
  {
    NormalizedResolves(req.input, env.now, env.lookup);
    if env.lookup.Some? { EligibleMeans(env.lookup.value); }
  }

  predicate IsCommandOf(req: Request, env: Readings, c: Command) {
    Keeps(WithFee(req.input), c) && c.asset == if req.input.assetId == 0 then None else env.lookup
  }

  lemma FactAsAsked(req: Request, env: Readings, c: Command, id: nat, sequence: int)
    requires IsCommandOf(req, env, c)
    ensures FactFromCommand(id, req.portfolio, req.principal, sequence, env.createdAt, c)
            == Asked(req, env, id, sequence).(correctionOf := 0, originatingCorrection := 0)
  {
  }

  // ----- A creation -----

  predicate KeyIsFree(b: Book, scope: Scope, key: string, asOf: Facts.Instant) {
    KeyId(scope, key) in b.keys ==> b.keys[KeyId(scope, key)].expiresAt <= asOf
  }

  /** The command gets as far as its draft. */
  predicate IsAdmitted(b: Book, req: Request, env: Readings) {
    && Objection(b.id, b.owner, req, env.now).None?
    && KeyIsFree(b, if req.correction then CorrectScope else CreateScope, req.key, env.lookupAt)
    && !b.archived && AssetObjection(req.input, env.lookup).None?
  }

  predicate IsStamp(t: Facts.Instant) {
    t != 0 && t % 1000 == 0
  }

  /** No rule of the ledger is broken and nothing is sold that is not held. */
  ghost predicate IsClean(facts: seq<Fact>) {
    LedgerTotals.IsLedger(facts) && LedgerTotals.NeverShort(facts)
  }

  lemma CheckMeans(facts: seq<Fact>, added: seq<Fact>)
    ensures FullCheck(facts, added).Accepted? <==> IsClean(facts + added)
  {
    LedgerTotals.SoundMeans(facts + added);
  }

  /** The draft of an admitted command decides. */
  lemma AdmittedSettles(b: Book, req: Request, env: Readings) returns (c: Command)
    requires IsAdmitted(b, req, env)
    ensures ValidCommand(c) && IsCommandOf(req, env, c)
    ensures var k, digest := KeyOf(req), DigestOf(req, WithFee(req.input));
            var draft := DraftOf(b.facts, b.corrections, req, env, b.nextSequence, c);
            Execute(b, req, env) == if draft.Failure? then (b, Rejected(draft.error))
                                    else Settle(b, k, digest, env, draft.value)
  {
    PreparedMeans(b.id, b.owner, req, env.now);
    ResolvedMeans(req, env);
    c := ResolveCommand(WithFee(req.input), env.lookup, env.now).value;
  }

  /** A command that is not admitted writes nothing and is refused for the first reason there is, or its key is taken
    * and it gets the stored answer or a refusal. */
  lemma NotAdmitted(b: Book, req: Request, env: Readings)
    requires !IsAdmitted(b, req, env)
    ensures var objection, outcome := Objection(b.id, b.owner, req, env.now), Execute(b, req, env).1;
            && !outcome.Recorded? && !outcome.Corrected?
            && (objection.Some? ==> outcome == Rejected(objection.value))
            && (objection.None? && KeyIsFree(b, ScopeOf(req), req.key, env.lookupAt) ==>
                  outcome == Rejected(if b.archived then PortfolioArchived
                                      else AssetObjection(req.input, env.lookup).value))
            && (objection.None? && !KeyIsFree(b, ScopeOf(req), req.key, env.lookupAt) ==>
                  outcome.Answered? || outcome in {Rejected(IdempotencyConflict), Rejected(TransactionNotFound)})
    ensures Execute(b, req, env).0 == b
  {
    PreparedMeans(b.id, b.owner, req, env.now);
    if Objection(b.id, b.owner, req, env.now).None? {
      ResolvedMeans(req, env);
    }
  }

  /** The exact condition under which a creation is recorded. */
  lemma CreationSucceedsExactly(b: Book, req: Request, env: Readings)
    requires !req.correction
    ensures Execute(b, req, env).1.Recorded? <==>
            && IsAdmitted(b, req, env)
            && env.firstId != 0 && b.nextSequence > 0
            && IsStamp(env.createdAt) && req.input.effectiveAt <= env.createdAt
            && IsClean(b.facts + [Asked(req, env, env.firstId, b.nextSequence)])
    ensures !Execute(b, req, env).1.Corrected?
  {
    if IsAdmitted(b, req, env) {
      var c := AdmittedSettles(b, req, env);
      FactAsAsked(req, env, c, env.firstId, b.nextSequence);
      CheckMeans(b.facts, [Asked(req, env, env.firstId, b.nextSequence)]);
    } else {
      NotAdmitted(b, req, env);
    }
  }

  /** Everything a recorded creation writes: the fact, one event and the key. */
  lemma CreationWrites(b: Book, req: Request, env: Readings, f: Fact)
    requires Execute(b, req, env).1 == Recorded(f)
    ensures var b' := Execute(b, req, env).0;
            && b'.facts == b.facts + [f] && b'.corrections == b.corrections
            && b'.nextSequence == b.nextSequence + 1 && b'.nextPosition == b.nextPosition + 1
            && b'.events == b.events + [Event(env.eventId, TransactionRecorded, [f.id], b.nextPosition, env.eventAt)]
            && b'.id == b.id && b'.owner == b.owner && b'.archived == b.archived
            && KeyWritten(b, b', CreateScope, req, env, f.id, 0)
    ensures !req.correction && f == Asked(req, env, env.firstId, b.nextSequence)
  {
    if !IsAdmitted(b, req, env) { NotAdmitted(b, req, env); }
    var c := AdmittedSettles(b, req, env);
    FactAsAsked(req, env, c, env.firstId, b.nextSequence);
    WriteMeans(b, CreateScope, req, env, DraftOf(b.facts, b.corrections, req, env, b.nextSequence, c).value);
  }

  /** The key names the fact and the correction for 365 days; no other key changes. */
  ghost predicate KeyWritten(
    b: Book, b': Book, scope: Scope, req: Request, env: Readings, primary: nat, correction: nat) {
    && KeyId(scope, req.key) in b'.keys
    && b'.keys[KeyId(scope, req.key)]
       == KeyRow(Digest(scope, req.target, WithFee(req.input)), primary, correction, env.completedAt,
                 env.completedAt + 31_536_000_000_000_000)
    && forall k :: k != KeyId(scope, req.key) ==>
      (k in b'.keys <==> k in b.keys) && (k in b.keys ==> b'.keys[k] == b.keys[k])
  }

  /** A recorded fact is what was asked for: every field of the request, the missing fee of a trade as zero, the asset
    * that was found, the caller and the time of the transaction. */
  lemma RecordedAsAsked(b: Book, req: Request, env: Readings, f: Fact)
    requires Execute(b, req, env).1 == Recorded(f)
    ensures f.kind == req.input.kind && f.quantity == req.input.quantity && f.unitPrice == req.input.unitPrice
    ensures f.amount == req.input.amount && f.currency == req.input.currency
    ensures f.effectiveAt == req.input.effectiveAt && f.note == req.input.note && f.reference == req.input.reference
    ensures f.fee == if (f.kind == Buy || f.kind == Sell) && req.input.fee.None? then Some(0) else req.input.fee
    ensures f.asset == if req.input.assetId == 0 then None else env.lookup
    ensures f.asset.Some? ==> f.asset.value.id == req.input.assetId
    ensures f.portfolio == req.portfolio && f.createdBy == req.principal && f.createdAt == env.createdAt
    ensures f.id == env.firstId && f.sequence == b.nextSequence
    ensures f.reversalOf == 0 && f.correctionOf == 0 && f.originatingCorrection == 0
  {
    CreationWrites(b, req, env, f);
    if !IsAdmitted(b, req, env) { NotAdmitted(b, req, env); }
  }

  // ----- A correction -----

  lemma CorrectionAsAsked(b: Book, req: Request, env: Readings, c: Command, o: Fact, built: CorrectionFacts)
    requires req.correction && o.id == req.target && o.portfolio == req.portfolio && IsCommandOf(req, env, c)
    requires BuildCorrection(CorrectionInputOf(req, env, b.nextSequence, c, o))
             == Result<CorrectionFacts, CorrectionError>.Success(built)
    ensures built.reversal == Undoing(o, req, env, b.nextSequence)
    ensures built.replacement == Asked(req, env, env.secondId, b.nextSequence + 1)
    ensures built.relationship == Linking(req, env)
  {
    FactAsAsked(req, env, c, env.secondId, b.nextSequence + 1);
  }

  /** The target exists, is no reversal and has not been corrected. */
  predicate IsCorrectable(b: Book, target: nat, o: Fact) {
    o in b.facts && o.id == target && !o.kind.Reversal? && forall c :: c in b.corrections ==> c.original != target
  }

  /** The three new ids are set, distinct and different from the target. */
  predicate IdsAreApart(req: Request, env: Readings) {
    && env.correctionId != 0 && env.firstId != 0 && env.secondId != 0
    && env.firstId != req.target && env.secondId != req.target && env.firstId != env.secondId
  }

  lemma TargetIsFound(b: Book, target: nat, o: Fact)
    requires UniqueIds(b.facts) && o in b.facts && o.id == target
    ensures FindFact(b.facts, target) == Some(o)
  {
  }

  function CorrectedFacts(o: Fact, b: Book, req: Request, env: Readings): seq<Fact> {
    [Undoing(o, req, env, b.nextSequence), Asked(req, env, env.secondId, b.nextSequence + 1)]
  }

  predicate MayCorrect(b: Book, o: Fact, req: Request, env: Readings) {
    && IsCorrectable(b, req.target, o) && IdsAreApart(req, env) && IsStamp(env.createdAt)
    && o.effectiveAt <= env.createdAt && req.input.effectiveAt <= env.createdAt
  }

  lemma TargetDecides(b: Book, req: Request, env: Readings, c: Command, o: Fact)
    requires Inv(b) && req.correction && req.portfolio == b.id && req.principal != 0
    requires FindFact(b.facts, req.target) == Some(o) && ValidCommand(c) && IsCommandOf(req, env, c)
    ensures var draft := DraftOf(b.facts, b.corrections, req, env, b.nextSequence, c);
            draft.Success? <==> MayCorrect(b, o, req, env)
  {
    assert Rehydrates(o) && b.nextSequence > 0;
    TargetBuilds(b, req, env, c, o);
  }

  lemma TargetBuilds(b: Book, req: Request, env: Readings, c: Command, o: Fact)
    requires Rehydrates(o) && b.nextSequence > 0 && o in b.facts && o.id == req.target
    requires req.correction && req.principal != 0 && FindFact(b.facts, req.target) == Some(o)
    requires ValidCommand(c) && IsCommandOf(req, env, c)
    ensures DraftOf(b.facts, b.corrections, req, env, b.nextSequence, c).Success? <==> MayCorrect(b, o, req, env)
  {
    BuildCorrectionSucceeds(CorrectionInputOf(req, env, b.nextSequence, c, o));
  }

  function CorrectionDraftOf(b: Book, o: Fact, req: Request, env: Readings): Draft {
    var facts, link := CorrectedFacts(o, b, req, env), Linking(req, env);
    Draft(facts, [o], Some(link), TransactionCorrected, [req.target, env.firstId, env.secondId, env.correctionId],
          env.secondId, env.correctionId, Corrected(CorrectionFacts(facts[0], facts[1], link)))
  }

  lemma CorrectionIsDrafted(b: Book, req: Request, env: Readings, c: Command, o: Fact)
    requires req.correction && FindFact(b.facts, req.target) == Some(o) && o.portfolio == req.portfolio
    requires IsCommandOf(req, env, c) && DraftOf(b.facts, b.corrections, req, env, b.nextSequence, c).Success?
    ensures DraftOf(b.facts, b.corrections, req, env, b.nextSequence, c).value == CorrectionDraftOf(b, o, req, env)
  {
    var built := BuildCorrection(CorrectionInputOf(req, env, b.nextSequence, c, o)).value;
    CorrectionAsAsked(b, req, env, c, o, built);
  }

  /** The exact condition under which a correction is made. */
  lemma CorrectionSucceedsExactly(b: Book, req: Request, env: Readings)
    requires Inv(b) && req.correction
    ensures Execute(b, req, env).1.Corrected? <==>
              IsAdmitted(b, req, env)
              && exists o :: MayCorrect(b, o, req, env) && IsClean(b.facts + CorrectedFacts(o, b, req, env))
    ensures !Execute(b, req, env).1.Recorded?
  {
    if !IsAdmitted(b, req, env) {
      NotAdmitted(b, req, env);
    } else {
      var c := AdmittedSettles(b, req, env);
      var found := FindFact(b.facts, req.target);
      if found.Some? {
        var o := found.value;
        TargetDecides(b, req, env, c, o);
        if MayCorrect(b, o, req, env) {
          CorrectionIsDrafted(b, req, env, c, o);
          CheckMeans(b.facts, CorrectedFacts(o, b, req, env));
        }
      }
      forall o | MayCorrect(b, o, req, env) ensures found == Some(o) {
        TargetIsFound(b, req.target, o);
      }
    }
  }

  /** Everything a correction writes: reversal and replacement, the link between them, one event and the key. */
  lemma CorrectionWrites(b: Book, req: Request, env: Readings, made: CorrectionFacts) returns (o: Fact)
    requires Inv(b) && Execute(b, req, env).1 == Corrected(made)
    ensures req.correction && MayCorrect(b, o, req, env)
    ensures made == CorrectionFacts(Undoing(o, req, env, b.nextSequence),
                                    Asked(req, env, env.secondId, b.nextSequence + 1),
                                    Linking(req, env))
    ensures var b' := Execute(b, req, env).0;
            && b'.facts == b.facts + [made.reversal, made.replacement]
            && b'.corrections == b.corrections + [made.relationship]
            && b'.nextSequence == b.nextSequence + 2 && b'.nextPosition == b.nextPosition + 1
            && b'.events == b.events + [Event(env.eventId, TransactionCorrected,
                                              [req.target, made.reversal.id, made.replacement.id, made.relationship.id],
                                              b.nextPosition, env.eventAt)]
            && b'.id == b.id && b'.owner == b.owner && b'.archived == b.archived
            && KeyWritten(b, b', CorrectScope, req, env, made.replacement.id, made.relationship.id)
  {
    var draft;
    o, draft := CorrectionIsSettled(b, req, env);
    WriteMeans(b, CorrectScope, req, env, draft);
  }

  lemma CorrectionIsSettled(b: Book, req: Request, env: Readings) returns (o: Fact, draft: Draft)
    requires Inv(b) && Execute(b, req, env).1.Corrected?
    ensures req.correction && MayCorrect(b, o, req, env)
    ensures draft == CorrectionDraftOf(b, o, req, env)
    ensures Execute(b, req, env)
            == (Write(b, KeyId(CorrectScope, req.key), Digest(CorrectScope, req.target, WithFee(req.input)), env,
                      draft),
                draft.outcome)
  {
    if !req.correction { CreationSucceedsExactly(b, req, env); }
    CorrectionSucceedsExactly(b, req, env);
    o :| MayCorrect(b, o, req, env) && IsClean(b.facts + CorrectedFacts(o, b, req, env));
    var c := AdmittedSettles(b, req, env);
    TargetIsFound(b, req.target, o);
    CorrectionIsDrafted(b, req, env, c, o);
    draft := DraftOf(b.facts, b.corrections, req, env, b.nextSequence, c).value;
  }

  /** The writes of a draft, one by one. */
  lemma WriteMeans(b: Book, scope: Scope, req: Request, env: Readings, draft: Draft)
    ensures var b' := Write(b, KeyId(scope, req.key), Digest(scope, req.target, WithFee(req.input)), env, draft);
            && b'.facts == b.facts + draft.candidates
            && b'.corrections == b.corrections + (if draft.relationship.Some? then [draft.relationship.value] else [])
            && b'.nextSequence == b.nextSequence + |draft.candidates| && b'.nextPosition == b.nextPosition + 1
            && b'.events
               == b.events + [Event(env.eventId, draft.eventType, draft.references, b.nextPosition, env.eventAt)]
            && b'.id == b.id && b'.owner == b.owner && b'.archived == b.archived
            && KeyWritten(b, b', scope, req, env, draft.primary, draft.correction)
  {
  }

  /** A correction records what was asked for in place of its target, and undoes the target as it was. */
  lemma CorrectedAsAsked(b: Book, req: Request, env: Readings, made: CorrectionFacts) returns (o: Fact)
    requires Inv(b) && Execute(b, req, env).1 == Corrected(made)
    ensures o in b.facts && o.id == req.target && !o.kind.Reversal?
    ensures var p := made.replacement;
            && p.kind == req.input.kind && p.quantity == req.input.quantity && p.unitPrice == req.input.unitPrice
            && p.amount == req.input.amount && p.currency == req.input.currency
            && p.effectiveAt == req.input.effectiveAt && p.note == req.input.note && p.reference == req.input.reference
            && p.fee == (if (p.kind == Buy || p.kind == Sell) && req.input.fee.None? then Some(0) else req.input.fee)
            && p.asset == (if req.input.assetId == 0 then None else env.lookup)
            && p.portfolio == req.portfolio && p.createdBy == req.principal && p.createdAt == env.createdAt
            && p.id == env.secondId && p.sequence == b.nextSequence + 1
            && p.reversalOf == 0 && p.correctionOf == o.id && p.originatingCorrection == env.correctionId
    ensures var r := made.reversal;
            && r.kind == Reversal && r.reversalOf == o.id && r.portfolio == o.portfolio && r.asset == o.asset
            && r.quantity == o.quantity && r.unitPrice == o.unitPrice && r.fee == o.fee && r.amount == o.amount
            && r.currency == o.currency && r.effectiveAt == o.effectiveAt && r.note.None? && r.reference.None?
            && r.createdBy == req.principal && r.createdAt == env.createdAt
            && r.id == env.firstId && r.sequence == b.nextSequence
            && r.correctionOf == 0 && r.originatingCorrection == env.correctionId
    ensures var c := made.relationship;
            && c.id == env.correctionId && c.portfolio == req.portfolio && c.actor == req.principal
            && c.original == o.id && c.reversal == env.firstId && c.replacement == env.secondId
            && c.createdAt == env.createdAt
  {
    o := CorrectionWrites(b, req, env, made);
  }
}
