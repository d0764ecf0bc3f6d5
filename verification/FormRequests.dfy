/** From the entry form to the ledger: the fingerprint of module Fingerprint and the digest of module
  * Commands draw the same lines, so what the form sends again is answered as the first time.
  */
module FormRequests {
  import opened Wrappers
  import opened Facts
  import opened Balances
  import opened Decimals
  import opened Commands
  import opened LedgerBook
  import opened LedgerRuns
  import opened Fingerprint

  /** How the texts of a request are read: ids, and seconds since the zero time. */
  datatype Reading = Reading(idOf: string -> nat, secondOf: string -> int)

  /** Different ids and different seconds have different texts, and the zero id is the zero text. */
  ghost predicate Injective(r: Reading) {
    && r.idOf(ZERO_ID) == 0
    && (forall s, t :: r.idOf(s) == r.idOf(t) ==> s == t)
    && (forall s, t :: r.secondOf(s) == r.secondOf(t) ==> s == t)
  }

  function ScopeText(scope: Scope): string {
    match scope
    case CreateScope => "transaction.create.v1"
    case CorrectScope => "transaction.correct.v1"
  }

  function InstantOf(r: Reading, value: string): Facts.Instant
    requires ValidTime(value)
  {
    r.secondOf(Second(value)) * 1_000_000_000 + Micros(value) * 1000
  }

  /** The input the server decodes from an entry. */
  function InputOf(r: Reading, e: Entry): CommandInput
    requires ValidEntry(e)
  {
    CommandInput(
      e.kind, if e.assetId.Some? then r.idOf(e.assetId.value) else 0,
      Number(e.quantity), Number(e.unitPrice), Number(e.fee),
      Number(e.amount), e.currency, InstantOf(r, e.effectiveAt), e.note, e.reference)
  }

  lemma MicrosAreSmall(value: string)
    requires ValidTime(value)
    ensures Micros(value) < 1_000_000
  {
    var padded := PadEnd(FractionText(value), MICROS);
    ValueBound(padded);
    assert |padded| == 6;
    SixDigits();
  }

  lemma SixDigits()
    ensures Shifted(1, 6) == 1_000_000
  {
    assert Shifted(1, 1) == 10;
    assert Shifted(1, 3) == 1000;
  }

  lemma InstantIsTime(r: Reading, v: string, w: string)
    requires Injective(r) && ValidTime(v) && ValidTime(w)
    ensures InstantOf(r, v) == InstantOf(r, w) <==> Second(v) == Second(w) && Micros(v) == Micros(w)
  {
    MicrosAreSmall(v);
    MicrosAreSmall(w);
  }

  lemma AssetIsText(r: Reading, c: Entry, d: Entry)
    requires Injective(r) && ValidEntry(c) && ValidEntry(d)
    ensures InputOf(r, c).assetId == InputOf(r, d).assetId <==> c.assetId == d.assetId
  {
  }

  lemma ZeroMeansZero()
    ensures Grammar("0") && Magnitude("0") == 0
  {
    ZeroIsGrammatical();
    DigitsHaveNoDot("0");
    assert "0" + Fraction("0") == "0" && Value("0") == 0;
    ShiftedZero(PLACES);
  }

  /** The fee the server assumes is the fee both fingerprints write. */
  lemma FeeIsMeant(r: Reading, e: Entry)
    requires ValidEntry(e)
    ensures WithDefaultFee(InputOf(r, e)).fee == MeaningOf(e).fee
  {
    ZeroMeansZero();
  }

  /** Two decoded and completed inputs are equal exactly when the entries mean the same. */
  lemma InputIsMeaning(r: Reading, c: Entry, d: Entry)
    requires Injective(r) && ValidEntry(c) && ValidEntry(d)
    ensures WithDefaultFee(InputOf(r, c)) == WithDefaultFee(InputOf(r, d)) <==> MeaningOf(c) == MeaningOf(d)
  {
    FeeIsMeant(r, c);
    FeeIsMeant(r, d);
    AssetIsText(r, c, d);
    InstantIsTime(r, c.effectiveAt, d.effectiveAt);
  }

  lemma ScopeTextInjective(a: Scope, b: Scope)
    ensures ScopeText(a) == ScopeText(b) <==> a == b
  {
    assert ScopeText(a) == ScopeText(b) ==> |ScopeText(a)| == |ScopeText(b)|;
  }

  /** The hashed text and the digest separate the same requests. */
  lemma PreimageIsDigest(r: Reading, scope: Scope, target: string, c: Entry, scope': Scope, target': string, d: Entry)
    requires Injective(r) && ValidEntry(c) && ValidEntry(d)
    ensures Preimage(ScopeText(scope), target, c) == Preimage(ScopeText(scope'), target', d)
            <==> Digest(scope, r.idOf(target), WithDefaultFee(InputOf(r, c)))
                 == Digest(scope', r.idOf(target'), WithDefaultFee(InputOf(r, d)))
  {
    PreimageIsMeaning(ScopeText(scope), target, c, ScopeText(scope'), target', d);
    ScopeTextInjective(scope, scope');
    InputIsMeaning(r, c, d);
  }

  /** What an attempt of the form compares: a correction's also holds its target. */
  function FormIdentity(target: Option<string>, e: Entry): string {
    if target.Some? then CorrectionIdentity(target.value, e) else Identity(e)
  }

  function TargetText(target: Option<string>): string {
    if target.Some? then target.value else ZERO_ID
  }

  /** The request the form sends for an entry: a correction of its target if it has one. */
  predicate SentAs(r: Reading, req: Request, target: Option<string>, e: Entry, key: string)
    requires ValidEntry(e)
  {
    && req.correction == target.Some? && req.target == r.idOf(TargetText(target))
    && req.input == InputOf(r, e) && req.key == key
  }

  /** One attempt handed out the key for both entries, the second time at the latest with `issued'`. */
  ghost predicate OneKey(
    issued: Issued, issued': Issued, key: string, target: Option<string>, c: Entry, target': Option<string>, d: Entry)
  {
    && (forall k :: k in issued ==> k in issued' && issued'[k] == issued[k]) && target.Some? == target'.Some?
    && key in issued && issued[key] == FormIdentity(target, c) && issued'[key] == FormIdentity(target', d)
  }

  lemma OneKeyOneInput(
    r: Reading, issued: Issued, issued': Issued, key: string, target: Option<string>, c: Entry,
    target': Option<string>, d: Entry)
    requires Injective(r) && ValidEntry(c) && ValidEntry(d) && OneKey(issued, issued', key, target, c, target', d)
    ensures target == target' && WithDefaultFee(InputOf(r, c)) == WithDefaultFee(InputOf(r, d))
  {
    if target.Some? {
      CorrectionIdentityIsMeaning(target.value, c, target'.value, d);
    } else {
      IdentityIsMeaning(c, d);
    }
    InputIsMeaning(r, c, d);
  }

  lemma PreparedAgain(b: Book, req: Request, env: Readings, retry: Request, env': Readings)
    requires Prepare(b.id, b.owner, req, env.now).Success? && env.now <= env'.now && env'.now != 0
    requires retry == req.(input := retry.input, correlation := retry.correlation)
             && ValidCorrelation(retry.correlation)
    requires WithDefaultFee(retry.input) == WithDefaultFee(req.input)
    ensures SameCommand(b, req, env, retry, env')
  {
  }

  /** What the form sends again under one key, however the entry is now spelled, gets the answer of the first
    * time for as long as the key is kept, whatever else has been committed since. */
  lemma FormRetryIsAnswered(
    r: Reading, issued: Issued, issued': Issued, target: Option<string>, c: Entry, target': Option<string>, d: Entry,
    b: Book, req: Request, env: Readings, b1: Book, outcome: Outcome, steps: seq<Step>, b2: Book, retry: Request,
    env': Readings)
    requires Injective(r) && ValidEntry(c) && ValidEntry(d) && OneKey(issued, issued', req.key, target, c, target', d)
    requires SentAs(r, req, target, c, req.key) && SentAs(r, retry, target', d, req.key)
    requires retry.principal == req.principal && retry.portfolio == req.portfolio && ValidCorrelation(retry.correlation)
    requires Inv(b) && FreshIds(b.facts, b.corrections, env)
    requires Execute(b, req, env) == (b1, outcome) && LedgerRuns.Accepted(outcome)
    requires FreshSteps(b1, steps) && QuietUntil(steps, KeyOf(req), env.completedAt + RETENTION)
             && b2 == AfterAll(b1, steps)
    requires env.now <= env'.now && env'.now != 0 && env'.lookupAt < env.completedAt + RETENTION
    ensures Execute(b2, retry, env') == (b2, RetryAnswer(outcome))
  {
    OneKeyOneInput(r, issued, issued', req.key, target, c, target', d);
    AcceptedLeavesRow(b, req, env);
    PreparedAgain(b, req, env, retry, env');
    RetryAnswersTheSame(b, req, env, b1, outcome, steps, b2, retry, env');
  }
}
