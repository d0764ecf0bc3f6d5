/** The immutable ledger fact: its fields, its well-formedness and the commands it is built from.
  *
  * Identifiers are naturals with 0 for the zero UUID; their numeric order is the byte order of the
  * canonical text. Instants are nanoseconds since the zero time, so 0 is the unset time. Decimals
  * are integers counted in units of 10^-12 (module Decimals proves that this is exact), and None is
  * the invalid zero Decimal.
  */
module Facts {
  import opened Wrappers

  type Instant = int
  type Amount = Option<int>
  type Text = Option<string>

  const USD := "USD"
  const MAX_NOTE := 2000
  const MAX_REFERENCE := 256

  datatype Kind = Buy | Sell | Dividend | Deposit | Withdrawal | Fee | Reversal

  predicate IsPublicCreatable(kind: Kind) {
    !kind.Reversal?
  }

  datatype AssetType = Equity | Etf | Crypto

  datatype AssetSnapshot = AssetSnapshot(id: nat, assetType: AssetType, exchange: string, currency: string)

  predicate ValidSnapshot(asset: AssetSnapshot) {
    && asset.id != 0
    && !asset.assetType.Crypto?
    && asset.currency == USD
    && asset.exchange in {"NYSE", "NASDAQ", "NYSEARCA", "AMEX"}
  }

  datatype Fact = Fact(
    id: nat,
    portfolio: nat,
    createdBy: nat,
    kind: Kind,
    asset: Option<AssetSnapshot>,
    quantity: Amount,
    unitPrice: Amount,
    fee: Amount,
    amount: Amount,
    currency: string,
    effectiveAt: Instant,
    sequence: int,
    note: Text,
    reference: Text,
    reversalOf: nat,
    correctionOf: nat,
    originatingCorrection: nat,
    createdAt: Instant)

  predicate IsPositive(a: Amount) {
    a.Some? && a.value > 0
  }

  predicate IsNonNegative(a: Amount) {
    a.Some? && a.value >= 0
  }

  predicate IsWholeMicrosecond(t: Instant) {
    t != 0 && t % 1000 == 0
  }

  predicate TextFits(text: Text, limit: nat) {
    text.Some? ==> |text.value| <= limit
  }

  predicate IsTrade(asset: bool, quantity: Amount, unitPrice: Amount, fee: Amount, amount: Amount) {
    asset && IsPositive(quantity) && IsPositive(unitPrice) && IsNonNegative(fee) && amount.None?
  }

  predicate IsAssetCash(asset: bool, quantity: Amount, unitPrice: Amount, fee: Amount, amount: Amount) {
    asset && IsPositive(amount) && quantity.None? && unitPrice.None? && fee.None?
  }

  predicate IsPortfolioCash(asset: bool, quantity: Amount, unitPrice: Amount, fee: Amount, amount: Amount) {
    !asset && IsPositive(amount) && quantity.None? && unitPrice.None? && fee.None?
  }

  predicate FieldsMatchKind(f: Fact) {
    var hasAsset := f.asset.Some?;
    var trade := IsTrade(hasAsset, f.quantity, f.unitPrice, f.fee, f.amount);
    var assetCash := IsAssetCash(hasAsset, f.quantity, f.unitPrice, f.fee, f.amount);
    var portfolioCash := IsPortfolioCash(hasAsset, f.quantity, f.unitPrice, f.fee, f.amount);
    match f.kind
    case Buy => trade
    case Sell => trade
    case Dividend => assetCash
    case Deposit => portfolioCash
    case Withdrawal => portfolioCash
    case Fee => portfolioCash
    case Reversal => trade || assetCash || portfolioCash
  }

  predicate LinksMatchKind(f: Fact) {
    && (f.reversalOf != 0 ==> f.reversalOf != f.id)
    && (f.correctionOf != 0 ==> f.correctionOf != f.id)
    && if f.kind.Reversal? then
         f.reversalOf != 0 && f.correctionOf == 0 && f.originatingCorrection != 0 && f.note.None? && f.reference.None?
       else
         f.reversalOf == 0 && (f.correctionOf == 0 <==> f.originatingCorrection == 0)
  }

  /** The facts RehydrateTransaction accepts. */
  predicate Rehydrates(f: Fact) {
    && f.id != 0 && f.portfolio != 0 && f.createdBy != 0 && f.sequence > 0
    && IsWholeMicrosecond(f.createdAt) && IsWholeMicrosecond(f.effectiveAt) && f.effectiveAt <= f.createdAt
    && f.currency == USD
    && TextFits(f.note, MAX_NOTE) && TextFits(f.reference, MAX_REFERENCE)
    && (f.asset.Some? ==> ValidSnapshot(f.asset.value))
    && LinksMatchKind(f)
    && FieldsMatchKind(f)
  }

  /** A validated user-creatable command. */
  datatype Command = Command(
    kind: Kind,
    asset: Option<AssetSnapshot>,
    quantity: Amount,
    unitPrice: Amount,
    fee: Amount,
    amount: Amount,
    currency: string,
    effectiveAt: Instant,
    note: Text,
    reference: Text)

  predicate ValidCommand(c: Command) {
    && IsPublicCreatable(c.kind)
    && c.currency == USD
    && IsWholeMicrosecond(c.effectiveAt)
    && TextFits(c.note, MAX_NOTE) && TextFits(c.reference, MAX_REFERENCE)
    && match c.kind
       case Buy => c.asset.Some? && ValidSnapshot(c.asset.value)
         && IsTrade(true, c.quantity, c.unitPrice, c.fee, c.amount)
       case Sell => c.asset.Some? && ValidSnapshot(c.asset.value)
         && IsTrade(true, c.quantity, c.unitPrice, c.fee, c.amount)
       case Dividend => c.asset.Some? && ValidSnapshot(c.asset.value)
         && IsAssetCash(true, c.quantity, c.unitPrice, c.fee, c.amount)
       case _ => IsPortfolioCash(c.asset.Some?, c.quantity, c.unitPrice, c.fee, c.amount)
  }

  datatype FactError = InvalidFields | InvalidTransaction

  function FactFromCommand(id: nat, portfolio: nat, actor: nat, sequence: int, createdAt: Instant, c: Command): Fact {
    Fact(id, portfolio, actor, c.kind, c.asset, c.quantity, c.unitPrice, c.fee, c.amount, c.currency,
         c.effectiveAt, sequence, c.note, c.reference, 0, 0, 0, createdAt)
  }

  function NewFactFromCommand(id: nat, portfolio: nat, actor: nat, sequence: int, createdAt: Instant, c: Command)
    : (r: Result<Fact, FactError>)
    ensures r.Success? <==>
            ValidCommand(c) && id != 0 && portfolio != 0 && actor != 0 && sequence > 0 &&
            IsWholeMicrosecond(createdAt) && c.effectiveAt <= createdAt
    ensures r.Success? ==> Rehydrates(r.value) && !r.value.kind.Reversal?
    ensures r.Success? ==>
              && r.value.kind == c.kind && r.value.asset == c.asset && r.value.quantity == c.quantity
              && r.value.unitPrice == c.unitPrice && r.value.fee == c.fee && r.value.amount == c.amount
              && r.value.currency == c.currency && r.value.effectiveAt == c.effectiveAt
              && r.value.note == c.note && r.value.reference == c.reference
              && r.value.id == id && r.value.portfolio == portfolio && r.value.createdBy == actor
              && r.value.sequence == sequence && r.value.createdAt == createdAt
              && r.value.reversalOf == r.value.correctionOf == r.value.originatingCorrection == 0
  {
    var f := FactFromCommand(id, portfolio, actor, sequence, createdAt, c);
    if !ValidCommand(c) then Failure(InvalidFields)
    else if !Rehydrates(f) then Failure(InvalidTransaction)
    else Success(f)
  }

  // ----- The replay order -----

  datatype Position = Position(at: Instant, sequence: int, id: nat)

  function Pos(f: Fact): Position {
    Position(f.effectiveAt, f.sequence, f.id)
  }

  predicate Before(a: Position, b: Position) {
    if a.at != b.at then a.at < b.at
    else if a.sequence != b.sequence then a.sequence < b.sequence
    else a.id < b.id
  }

  /** Balances are kept per portfolio and asset. */
  datatype StreamKey = StreamKey(portfolio: nat, asset: nat)

  function Key(f: Fact): Option<StreamKey> {
    if f.asset.Some? then Some(StreamKey(f.portfolio, f.asset.value.id)) else None
  }
}
