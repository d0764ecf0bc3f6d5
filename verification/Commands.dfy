/** From a user's request to a validated command: normalisation, identity and asset resolution. */
module Commands {
  import opened Wrappers
  import opened Facts
  import opened Corrections

  datatype Scope = CreateScope | CorrectScope

  datatype Rejection =
    | Unauthenticated
    | InvalidInput
    | PortfolioNotFound
    | TransactionNotFound
    | InvalidIdempotencyKey
    | InvalidTransactionKind
    | InvalidCurrency
    | InvalidEffectiveAt
    | InvalidTransactionFields
    | IdempotencyConflict
    | PortfolioArchived
    | AssetNotFound
    | AssetFinanciallyIneligible
    | BadCorrection(error: CorrectionError)
    | BadFact(factError: FactError)
    | InvalidLedger
    | InsufficientOrderedQuantity
    | InvalidBackdatedLedger

  datatype CommandInput = CommandInput(
    kind: Kind,
    assetId: nat,
    quantity: Amount,
    unitPrice: Amount,
    fee: Amount,
    amount: Amount,
    currency: string,
    effectiveAt: Instant,
    note: Text,
    reference: Text)

  datatype Request = Request(
    principal: nat,
    portfolio: nat,
    correction: bool,
    target: nat,
    input: CommandInput,
    key: string,
    correlation: string)

  function ScopeOf(req: Request): Scope {
    if req.correction then CorrectScope else CreateScope
  }

  predicate IsAlphanumeric(ch: char) {
    '0' <= ch <= '9' || 'A' <= ch <= 'Z' || 'a' <= ch <= 'z'
  }

  predicate ValidKey(key: string) {
    && 16 <= |key| <= 128
    && IsAlphanumeric(key[0])
    && forall i :: 0 <= i < |key| ==> IsAlphanumeric(key[i]) || key[i] in "._~-"
  }

  predicate ValidCorrelation(id: string) {
    1 <= |id| <= 128 && forall i :: 0 <= i < |id| ==> IsAlphanumeric(id[i]) || id[i] in "._-"
  }

  predicate ValidEffectiveAt(t: Instant, now: Instant) {
    t != 0 && now != 0 && t % 1000 == 0 && t <= now
  }

  function WithDefaultFee(input: CommandInput): CommandInput {
    if (input.kind.Buy? || input.kind.Sell?) && input.fee.None? then input.(fee := Some(0)) else input
  }

  predicate FieldsFit(input: CommandInput) {
    match input.kind
    case Buy => IsTrade(input.assetId != 0, input.quantity, input.unitPrice, input.fee, input.amount)
    case Sell => IsTrade(input.assetId != 0, input.quantity, input.unitPrice, input.fee, input.amount)
    case Dividend => IsAssetCash(input.assetId != 0, input.quantity, input.unitPrice, input.fee, input.amount)
    case _ => IsPortfolioCash(input.assetId != 0, input.quantity, input.unitPrice, input.fee, input.amount)
  }

  function Normalize(input: CommandInput, now: Instant): (r: Result<CommandInput, Rejection>)
    ensures r.Success? <==>
            && IsPublicCreatable(input.kind) && input.currency == USD && ValidEffectiveAt(input.effectiveAt, now)
            && TextFits(input.note, MAX_NOTE) && TextFits(input.reference, MAX_REFERENCE)
            && FieldsFit(WithDefaultFee(input))
    ensures r.Success? ==> r.value == WithDefaultFee(input)
  {
    if !IsPublicCreatable(input.kind) then Failure(InvalidTransactionKind)
    else if input.currency != USD then Failure(InvalidCurrency)
    else if !ValidEffectiveAt(input.effectiveAt, now) then Failure(InvalidEffectiveAt)
    else if !TextFits(input.note, MAX_NOTE) || !TextFits(input.reference, MAX_REFERENCE)
    then Failure(InvalidTransactionFields)
    else if !FieldsFit(WithDefaultFee(input)) then Failure(InvalidTransactionFields)
    else Success(WithDefaultFee(input))
  }

  /** The fingerprint: the digest is taken to be injective, so it is its preimage (module Fingerprint). */
  datatype Digest = Digest(scope: Scope, target: nat, input: CommandInput)

  function DigestOf(req: Request, normalized: CommandInput): Digest {
    Digest(ScopeOf(req), req.target, normalized)
  }

  /** GetAsset's answer for the requested asset, None when it is not found. */
  type AssetLookup = Option<AssetSnapshot>

  function NewAssetSnapshot(asset: AssetSnapshot): Result<AssetSnapshot, Rejection> {
    if ValidSnapshot(asset) then Success(asset) else Failure(AssetFinanciallyIneligible)
  }

  function CommandFrom(input: CommandInput, asset: Option<AssetSnapshot>): Command {
    match input.kind
    case Buy => Command(Buy, asset, input.quantity, input.unitPrice, input.fee, None, input.currency,
                        input.effectiveAt, input.note, input.reference)
    case Sell => Command(Sell, asset, input.quantity, input.unitPrice, input.fee, None, input.currency,
                         input.effectiveAt, input.note, input.reference)
    case Dividend => Command(Dividend, asset, None, None, None, input.amount, input.currency, input.effectiveAt,
                             input.note, input.reference)
    case _ => Command(input.kind, None, None, None, None, input.amount, input.currency, input.effectiveAt, input.note,
                      input.reference)
  }

  /** The command constructors: field shape first, then currency, texts and effective time. */
  function NewCommand(input: CommandInput, asset: Option<AssetSnapshot>, now: Instant): Result<Command, Rejection> {
    var c := CommandFrom(input, asset);
    var shape := match input.kind
      case Buy => asset.Some? && ValidSnapshot(asset.value) && IsPositive(input.quantity)
        && IsPositive(input.unitPrice) && IsNonNegative(input.fee)
      case Sell => asset.Some? && ValidSnapshot(asset.value) && IsPositive(input.quantity)
        && IsPositive(input.unitPrice) && IsNonNegative(input.fee)
      case Dividend => asset.Some? && ValidSnapshot(asset.value) && IsPositive(input.amount)
      case _ => IsPositive(input.amount);
    if !IsPublicCreatable(input.kind) then Failure(InvalidTransactionKind)
    else if !shape then Failure(InvalidTransactionFields)
    else if input.currency != USD then Failure(InvalidCurrency)
    else if !TextFits(input.note, MAX_NOTE) || !TextFits(input.reference, MAX_REFERENCE)
    then Failure(InvalidTransactionFields)
    else if !ValidEffectiveAt(input.effectiveAt, now) then Failure(InvalidEffectiveAt)
    else Success(c)
  }

  function ResolveCommand(input: CommandInput, lookup: AssetLookup, now: Instant): (r: Result<Command, Rejection>)
    ensures r.Success? ==> ValidCommand(r.value)
  {
    if input.assetId == 0 then NewCommand(input, None, now)
    else if lookup.None? || lookup.value.id != input.assetId then Failure(AssetNotFound)
    else
      var snapshot := NewAssetSnapshot(lookup.value);
      if snapshot.Failure? then Failure(snapshot.error)
      else NewCommand(input, Some(snapshot.value), now)
  }

  /** c carries every field of n, with an asset exactly when n names one. */
  predicate Keeps(n: CommandInput, c: Command) {
    && c.kind == n.kind && c.quantity == n.quantity && c.unitPrice == n.unitPrice && c.fee == n.fee
    && c.amount == n.amount && c.currency == n.currency && c.effectiveAt == n.effectiveAt
    && c.note == n.note && c.reference == n.reference
    && (c.asset.Some? <==> n.assetId != 0)
  }

  /** Once normalised, a command can only fail on its asset, and resolving keeps every normalised field. */
  lemma NormalizedResolves(input: CommandInput, now: Instant, lookup: AssetLookup)
    requires Normalize(input, now).Success?
    ensures var n := Normalize(input, now).value;
            var r := ResolveCommand(n, lookup, now);
            && (r.Success? <==>
                  n.assetId == 0 || (lookup.Some? && lookup.value.id == n.assetId && ValidSnapshot(lookup.value)))
            && (r.Failure? ==>
                  r.error == if lookup.Some? && lookup.value.id == n.assetId then AssetFinanciallyIneligible
                             else AssetNotFound)
            && (r.Success? ==> Keeps(n, r.value) && (n.assetId != 0 ==> r.value.asset == lookup))
  {
  }

  /** Normalisation accepts exactly the inputs that some asset answer turns into a command losing none
    * of their fields. */
  lemma NormalizeAcceptsExactly(input: CommandInput, now: Instant)
    ensures Normalize(input, now).Success? <==>
              exists lookup: AssetLookup, c: Command ::
                ResolveCommand(WithDefaultFee(input), lookup, now) == Result<Command, Rejection>.Success(c)
                && Keeps(WithDefaultFee(input), c)
  {
    if Normalize(input, now).Success? {
      var lookup := AnEligibleAsset(input.assetId);
      NormalizedResolves(input, now, lookup);
      var c := ResolveCommand(WithDefaultFee(input), lookup, now).value;
      assert Keeps(WithDefaultFee(input), c);
    }
  }

  ghost function AnEligibleAsset(id: nat): (lookup: AssetLookup)
    ensures id != 0 ==> lookup.Some? && lookup.value.id == id && ValidSnapshot(lookup.value)
  {
    Some(AssetSnapshot(id, Equity, "NYSE", USD))
  }

  /** Normalising twice changes nothing, so a retry of a normalised command has the same fingerprint. */
  lemma NormalizeIsIdempotent(input: CommandInput, now: Instant, later: Instant)
    requires Normalize(input, now).Success? && now <= later && later != 0
    ensures Normalize(Normalize(input, now).value, later) == Normalize(input, now)
  {
  }
}
