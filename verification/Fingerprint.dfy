/** Two identities of a command: the browser's string and the preimage of the server's fingerprint.
  *
  * Both are proved to say exactly what the command means. A second of UTC time is identified with its
  * nineteen-character text; asset ids are in their canonical spelling on both sides.
  */
module Fingerprint {
  import opened Wrappers
  import opened Facts
  import opened Decimals
  import opened Json

  const ZERO_ID := "00000000-0000-0000-0000-000000000000"
  const MICROS := 6

  /** A command as the entry form holds it. */
  datatype Entry = Entry(
    kind: Kind, assetId: Option<string>, quantity: Option<string>, unitPrice: Option<string>, fee: Option<string>,
    amount: Option<string>, currency: string, effectiveAt: string, note: Facts.Text, reference: Facts.Text)

  predicate IsTradeKind(kind: Kind) {
    kind.Buy? || kind.Sell?
  }

  predicate IsPositiveText(value: Option<string>) {
    value.Some? && Grammar(value.value) && Magnitude(value.value) != 0
  }

  /** Seconds, then at most six digits after a dot, then Z. */
  predicate ValidTime(value: string) {
    && |value| >= 20 && value[|value| - 1] == 'Z'
    && var parts := Split(value[..|value| - 1]);
       && |parts[0]| == 19 && |parts| <= 2
       && (|parts| == 2 ==> 1 <= |parts[1]| <= MICROS && AllDigits(parts[1]))
  }

  /** What the form's schema accepts, with asset ids as the server spells them. */
  predicate ValidEntry(e: Entry) {
    && e.currency == USD && ValidTime(e.effectiveAt)
    && TextFits(e.note, MAX_NOTE) && TextFits(e.reference, MAX_REFERENCE)
    && (e.assetId.Some? ==> e.assetId.value != ZERO_ID)
    && match e.kind
       case Buy => ValidTradeEntry(e)
       case Sell => ValidTradeEntry(e)
       case Dividend => e.assetId.Some? && ValidAmountEntry(e)
       case Reversal => false
       case _ => e.assetId.None? && ValidAmountEntry(e)
  }

  predicate ValidTradeEntry(e: Entry) {
    && e.assetId.Some? && IsPositiveText(e.quantity) && IsPositiveText(e.unitPrice) && e.amount.None?
    && (e.fee.Some? ==> Grammar(e.fee.value))
  }

  predicate ValidAmountEntry(e: Entry) {
    IsPositiveText(e.amount) && e.quantity.None? && e.unitPrice.None? && e.fee.None?
  }

  // ----- What a command means -----

  datatype Meaning = Meaning(
    kind: Kind, assetId: Option<string>, quantity: Amount, unitPrice: Amount, fee: Amount, amount: Amount,
    currency: string, second: string, micros: nat, note: Facts.Text, reference: Facts.Text)

  function Number(value: Option<string>): Amount
    requires value.Some? ==> Grammar(value.value)
  {
    if value.Some? then Some(Magnitude(value.value)) else None
  }

  function Second(value: string): string
    requires ValidTime(value)
  {
    Split(value[..|value| - 1])[0]
  }

  function FractionText(value: string): string
    requires ValidTime(value)
  {
    var parts := Split(value[..|value| - 1]);
    if |parts| == 2 then parts[1] else ""
  }

  function PadEnd(s: string, n: nat): string {
    if |s| >= n then s else s + Zeros(n - |s|)
  }

  function Micros(value: string): nat
    requires ValidTime(value)
  {
    Value(PadEnd(FractionText(value), MICROS))
  }

  function FeeOf(e: Entry): Option<string> {
    if IsTradeKind(e.kind) then Some(if e.fee.Some? then e.fee.value else "0") else None
  }

  function MeaningOf(e: Entry): Meaning
    requires ValidEntry(e)
  {
    ZeroIsGrammatical();
    Meaning(e.kind, e.assetId, Number(e.quantity), Number(e.unitPrice), Number(FeeOf(e)), Number(e.amount), e.currency,
            Second(e.effectiveAt), Micros(e.effectiveAt), e.note, e.reference)
  }

  lemma ZeroIsGrammatical()
    ensures Grammar("0")
  {
    DigitsHaveNoDot("0");
  }

  // ----- The browser's identity -----

  function StripDot(s: string): string {
    if s != "" && s[|s| - 1] == '.' then s[..|s| - 1] else s
  }

  function CanonicalDecimal(value: string): string {
    if '.' in value then StripDot(TrimZeros(value)) else value
  }

  function CanonicalTime(value: string): string {
    var parts := Split(if value == "" then "" else value[..|value| - 1]);
    parts[0] + "." + PadEnd(if |parts| > 1 then parts[1] else "", MICROS) + "Z"
  }

  function KindText(kind: Kind): string {
    match kind
    case Buy => "BUY"
    case Sell => "SELL"
    case Dividend => "DIVIDEND"
    case Deposit => "DEPOSIT"
    case Withdrawal => "WITHDRAWAL"
    case Fee => "FEE"
    case Reversal => "REVERSAL"
  }

  function Nullable(value: Option<string>): Json.Field {
    if value.Some? then Json.Text(value.value) else Null
  }

  function CanonicalOption(value: Option<string>): Option<string> {
    if value.Some? then Some(CanonicalDecimal(value.value)) else None
  }

  datatype BrowserTexts = BrowserTexts(
    kind: string, assetId: Option<string>, quantity: Option<string>, unitPrice: Option<string>, fee: Option<string>,
    amount: Option<string>, currency: string, effectiveAt: string, note: Facts.Text, reference: Facts.Text)

  /** The canonical texts of an entry; a missing trade fee is written as "0". */
  function BrowserTextsOf(e: Entry): BrowserTexts {
    BrowserTexts(
      KindText(e.kind), e.assetId, CanonicalOption(e.quantity), CanonicalOption(e.unitPrice),
      if e.quantity.Some? then Some(CanonicalDecimal(if e.fee.Some? then e.fee.value else "0")) else None,
      CanonicalOption(e.amount), e.currency, CanonicalTime(e.effectiveAt), e.note, e.reference)
  }

  function IdentityMembers(t: BrowserTexts): (members: seq<Member>)
    ensures |members| == 10
  {
    [Member("kind", Json.Text(t.kind)), Member("assetId", Nullable(t.assetId)),
     Member("quantity", Nullable(t.quantity)),
     Member("unitPrice", Nullable(t.unitPrice)), Member("fee", Nullable(t.fee)), Member("amount", Nullable(t.amount)),
     Member("currency", Json.Text(t.currency)), Member("effectiveAt", Json.Text(t.effectiveAt)),
     Member("note", Nullable(t.note)), Member("externalReference", Nullable(t.reference))]
  }

  lemma IdentityMembersInjective(t: BrowserTexts, u: BrowserTexts)
    ensures IdentityMembers(t) == IdentityMembers(u) <==> t == u
  {
    var v, w := IdentityMembers(t), IdentityMembers(u);
    assert v == w ==> v[0] == w[0] && v[1] == w[1] && v[2] == w[2] && v[3] == w[3] && v[4] == w[4]
                      && v[5] == w[5] && v[6] == w[6] && v[7] == w[7] && v[8] == w[8] && v[9] == w[9];
  }

  function BrowserObject(t: BrowserTexts): string {
    "{" + Members(Browser, IdentityMembers(t))
  }

  lemma BrowserObjectInjective(t: BrowserTexts, u: BrowserTexts)
    ensures BrowserObject(t) == BrowserObject(u) <==> t == u
  {
    IdentityMembersInjective(t, u);
    ObjectIsReadable("{", Browser, IdentityMembers(t), IdentityMembers(u));
  }

  function Identity(e: Entry): string {
    BrowserObject(BrowserTextsOf(e))
  }

  // ----- The server's fingerprint -----

  /** n as `width` digits. */
  function Fixed(n: nat, width: nat): (s: string)
    ensures |s| == width && AllDigits(s)
  {
    if width == 0 then "" else Fixed(n / 10, width - 1) + [Digit(n % 10)]
  }

  function FormatTime(second: string, micros: nat): string {
    second + "." + Fixed(micros, MICROS) + "Z"
  }

  /** The String of a parsed Decimal; empty for the zero Decimal. */
  function DecimalText(value: Option<string>): string
    requires value.Some? ==> Grammar(value.value)
  {
    if value.Some? then Shortened(value.value) else ""
  }

  datatype ServerTexts = ServerTexts(
    scope: string, target: string, kind: string, asset: string, quantity: string, unitPrice: string, fee: string,
    amount: string, currency: string, effectiveAt: string, note: Facts.Text, reference: Facts.Text)

  function ServerTextsOf(scope: string, target: string, e: Entry): ServerTexts
    requires ValidEntry(e)
  {
    ZeroIsGrammatical();
    ServerTexts(
      scope, target, KindText(e.kind), if e.assetId.Some? then e.assetId.value else ZERO_ID,
      DecimalText(e.quantity), DecimalText(e.unitPrice), DecimalText(FeeOf(e)), DecimalText(e.amount),
      e.currency, FormatTime(Second(e.effectiveAt), Micros(e.effectiveAt)), e.note, e.reference)
  }

  function PreimageMembers(t: ServerTexts): (members: seq<Member>)
    ensures |members| == 12
  {
    [Member("Scope", Json.Text(t.scope)), Member("Target", Json.Text(t.target)), Member("Kind", Json.Text(t.kind)),
     Member("Asset", Json.Text(t.asset)), Member("Quantity", Json.Text(t.quantity)),
     Member("UnitPrice", Json.Text(t.unitPrice)),
     Member("Fee", Json.Text(t.fee)), Member("Amount", Json.Text(t.amount)), Member("Currency", Json.Text(t.currency)),
     Member("EffectiveAt", Json.Text(t.effectiveAt)), Member("Note", Nullable(t.note)),
     Member("ExternalReference", Nullable(t.reference))]
  }

  lemma PreimageMembersInjective(t: ServerTexts, u: ServerTexts)
    ensures PreimageMembers(t) == PreimageMembers(u) <==> t == u
  {
    var v, w := PreimageMembers(t), PreimageMembers(u);
    assert v == w ==> v[0] == w[0] && v[1] == w[1] && v[2] == w[2] && v[3] == w[3] && v[4] == w[4] && v[5] == w[5]
                      && v[6] == w[6] && v[7] == w[7] && v[8] == w[8] && v[9] == w[9] && v[10] == w[10]
                        && v[11] == w[11];
  }

  function ServerObject(t: ServerTexts): string {
    "{\"Version\":1," + Members(Go, PreimageMembers(t))
  }

  lemma ServerObjectInjective(t: ServerTexts, u: ServerTexts)
    ensures ServerObject(t) == ServerObject(u) <==> t == u
  {
    PreimageMembersInjective(t, u);
    ObjectIsReadable("{\"Version\":1,", Go, PreimageMembers(t), PreimageMembers(u));
  }

  /** What is hashed: the normalised command, whose missing trade fee is "0", in a fixed field order. */
  function Preimage(scope: string, target: string, e: Entry): string
    requires ValidEntry(e)
  {
    ServerObject(ServerTextsOf(scope, target, e))
  }

  // ----- Decimals: both sides write the canonical string -----

  lemma {:induction false} TrimTail(a: string, f: string)
    requires a != "" && a[|a| - 1] != '0'
    ensures TrimZeros(a + f) == a + TrimZeros(f)
    decreases |f|
  {
    if f == "" {
      assert a + f == a;
    } else {
      var front := f[..|f| - 1];
      assert (a + f)[..|a + f| - 1] == a + front && (a + f)[|a + f| - 1] == f[|f| - 1];
      if f[|f| - 1] == '0' { TrimTail(a, front); }
    }
  }

  lemma BrowserDecimal(value: string)
    requires Grammar(value)
    ensures CanonicalDecimal(value) == Shortened(value)
  {
    JoinSplit(value);
    var whole, fraction := Split(value)[0], Fraction(value);
    if '.' in value {
      TwoParts(value);
      var head := whole + ".";
      assert value == head + fraction;
      TrimTail(head, fraction);
      StripHead(whole, TrimZeros(fraction));
    } else {
      assert TrimZeros("") == "";
    }
  }

  lemma TwoParts(value: string)
    requires Grammar(value) && '.' in value
    ensures |Split(value)| == 2
  {
  }

  lemma StripHead(whole: string, short: string)
    requires AllDigits(short)
    ensures StripDot(whole + "." + short) == WithFraction(whole, short)
  {
    var s := whole + "." + short;
    if short == "" {
      assert s[..|s| - 1] == whole;
    } else {
      assert s[|s| - 1] == short[|short| - 1];
    }
  }

  /** Canonical texts are equal exactly when the numbers are. */
  lemma SameDecimal(v: string, w: string)
    requires Grammar(v) && Grammar(w)
    ensures CanonicalDecimal(v) == CanonicalDecimal(w) <==> Magnitude(v) == Magnitude(w)
    ensures Shortened(v) == Shortened(w) <==> Magnitude(v) == Magnitude(w)
    ensures Shortened(v) != ""
  {
    BrowserDecimal(v);
    BrowserDecimal(w);
    ShortenedIsCanonical(v);
    ShortenedIsCanonical(w);
  }

  lemma SameNumber(v: Option<string>, w: Option<string>)
    requires (v.Some? ==> Grammar(v.value)) && (w.Some? ==> Grammar(w.value))
    ensures CanonicalOption(v) == CanonicalOption(w) <==> Number(v) == Number(w)
    ensures DecimalText(v) == DecimalText(w) <==> Number(v) == Number(w)
  {
    if v.Some? { SameDecimal(v.value, v.value); }
    if w.Some? { SameDecimal(w.value, w.value); }
    if v.Some? && w.Some? { SameDecimal(v.value, w.value); }
  }

  // ----- Times: both sides write seconds and six digits -----

  lemma {:induction false} FixedOfValue(s: string)
    requires AllDigits(s)
    ensures Fixed(Value(s), |s|) == s
  {
    if s != "" {
      FixedOfValue(s[..|s| - 1]);
      var n := Value(s);
      assert n / 10 == Value(s[..|s| - 1]) && n % 10 == DigitValue(s[|s| - 1]);
      assert s == s[..|s| - 1] + [s[|s| - 1]];
    }
  }

  /** The server prints the instant it parsed as the browser canonicalises the text. */
  lemma TimesAgree(value: string)
    requires ValidTime(value)
    ensures CanonicalTime(value) == FormatTime(Second(value), Micros(value))
    ensures |Second(value)| == 19 && Decimals.Value(Fixed(Micros(value), MICROS)) == Micros(value)
  {
    var padded := PadEnd(FractionText(value), MICROS);
    assert AllDigits(padded) && |padded| == MICROS;
    FixedOfValue(padded);
  }

  lemma FormatIsReadable(s: string, a: nat, t: string, b: nat)
    requires |s| == |t| && FormatTime(s, a) == FormatTime(t, b)
    ensures s == t && Fixed(a, MICROS) == Fixed(b, MICROS)
  {
    var x, y := Fixed(a, MICROS), Fixed(b, MICROS);
    assert FormatTime(s, a) == s + ("." + (x + "Z")) && FormatTime(t, b) == t + ("." + (y + "Z"));
    SplitEqual(s, "." + (x + "Z"), t, "." + (y + "Z"));
    SplitEqual(".", x + "Z", ".", y + "Z");
    SplitEqual(x, "Z", y, "Z");
  }

  lemma SameTime(v: string, w: string)
    requires ValidTime(v) && ValidTime(w)
    ensures CanonicalTime(v) == CanonicalTime(w) <==> Second(v) == Second(w) && Micros(v) == Micros(w)
  {
    TimesAgree(v);
    TimesAgree(w);
    if CanonicalTime(v) == CanonicalTime(w) {
      FormatIsReadable(Second(v), Micros(v), Second(w), Micros(w));
    }
  }

  // ----- Both identities are the meaning -----

  lemma KindTextInjective(a: Kind, b: Kind)
    ensures KindText(a) == KindText(b) <==> a == b
  {
    assert KindText(a) == KindText(b) ==>
             |KindText(a)| == |KindText(b)| && KindText(a)[0] == KindText(b)[0] && KindText(a)[2] == KindText(b)[2];
  }

  predicate HasNumbers(e: Entry) {
    && (e.quantity.Some? ==> Grammar(e.quantity.value)) && (e.unitPrice.Some? ==> Grammar(e.unitPrice.value))
    && (FeeOf(e).Some? ==> Grammar(FeeOf(e).value)) && (e.amount.Some? ==> Grammar(e.amount.value))
    && (e.quantity.Some? <==> IsTradeKind(e.kind))
  }

  lemma ValidHasNumbers(e: Entry)
    requires ValidEntry(e)
    ensures HasNumbers(e)
  {
    ZeroIsGrammatical();
  }

  predicate SameNumbers(c: Entry, d: Entry)
    requires HasNumbers(c) && HasNumbers(d)
  {
    && Number(c.quantity) == Number(d.quantity) && Number(c.unitPrice) == Number(d.unitPrice)
    && Number(FeeOf(c)) == Number(FeeOf(d)) && Number(c.amount) == Number(d.amount)
  }

  lemma NumbersAgree(c: Entry, d: Entry)
    requires HasNumbers(c) && HasNumbers(d)
    ensures var t, u := BrowserTextsOf(c), BrowserTextsOf(d);
            t.quantity == u.quantity && t.unitPrice == u.unitPrice && t.fee == u.fee && t.amount == u.amount <==>
              SameNumbers(c, d)
    ensures (DecimalText(c.quantity) == DecimalText(d.quantity) && DecimalText(c.unitPrice) == DecimalText(d.unitPrice)
             && DecimalText(FeeOf(c)) == DecimalText(FeeOf(d)) && DecimalText(c.amount) == DecimalText(d.amount)) <==>
               SameNumbers(c, d)
  {
    SameNumber(c.quantity, d.quantity);
    SameNumber(c.unitPrice, d.unitPrice);
    SameNumber(FeeOf(c), FeeOf(d));
    SameNumber(c.amount, d.amount);
    assert BrowserTextsOf(c).fee == CanonicalOption(FeeOf(c)) && BrowserTextsOf(d).fee == CanonicalOption(FeeOf(d));
  }

  lemma BrowserTextsAreMeaning(c: Entry, d: Entry)
    requires ValidEntry(c) && ValidEntry(d)
    ensures BrowserTextsOf(c) == BrowserTextsOf(d) <==> MeaningOf(c) == MeaningOf(d)
  {
    ValidHasNumbers(c);
    ValidHasNumbers(d);
    NumbersAgree(c, d);
    KindTextInjective(c.kind, d.kind);
    SameTime(c.effectiveAt, d.effectiveAt);
  }

  lemma ServerTextsAreMeaning(scope: string, target: string, c: Entry, scope': string, target': string, d: Entry)
    requires ValidEntry(c) && ValidEntry(d)
    ensures ServerTextsOf(scope, target, c) == ServerTextsOf(scope', target', d) <==>
              scope == scope' && target == target' && MeaningOf(c) == MeaningOf(d)
  {
    ValidHasNumbers(c);
    ValidHasNumbers(d);
    NumbersAgree(c, d);
    KindTextInjective(c.kind, d.kind);
    TimesAgree(c.effectiveAt);
    TimesAgree(d.effectiveAt);
    SameTime(c.effectiveAt, d.effectiveAt);
  }

  /** The browser treats two entries as one command exactly when they mean the same. */
  lemma IdentityIsMeaning(c: Entry, d: Entry)
    requires ValidEntry(c) && ValidEntry(d)
    ensures Identity(c) == Identity(d) <==> MeaningOf(c) == MeaningOf(d)
  {
    BrowserTextsAreMeaning(c, d);
    BrowserObjectInjective(BrowserTextsOf(c), BrowserTextsOf(d));
  }

  /** The server's fingerprint separates exactly scope, target and meaning. */
  lemma PreimageIsMeaning(scope: string, target: string, c: Entry, scope': string, target': string, d: Entry)
    requires ValidEntry(c) && ValidEntry(d)
    ensures Preimage(scope, target, c) == Preimage(scope', target', d) <==>
              scope == scope' && target == target' && MeaningOf(c) == MeaningOf(d)
  {
    var t, u := ServerTextsOf(scope, target, c), ServerTextsOf(scope', target', d);
    ServerTextsAreMeaning(scope, target, c, scope', target', d);
    ServerObjectInjective(t, u);
  }

  /** For one scope and target, browser and server draw the line between commands in the same place. */
  lemma BrowserAndServerAgree(scope: string, target: string, c: Entry, d: Entry)
    requires ValidEntry(c) && ValidEntry(d)
    ensures Identity(c) == Identity(d) <==> Preimage(scope, target, c) == Preimage(scope, target, d)
  {
    IdentityIsMeaning(c, d);
    PreimageIsMeaning(scope, target, c, scope, target, d);
  }

  // ----- Attempts -----

  datatype Attempt = Attempt(identity: string, key: string)

  /** Every key ever handed out, with the identity it was drawn for. */
  type Issued = map<string, string>

  ghost predicate Remembers(attempt: Option<Attempt>, issued: Issued) {
    attempt.Some? ==> attempt.value.key in issued && issued[attempt.value.key] == attempt.value.identity
  }

  class CommandAttempt {
    var attempt: Option<Attempt>
    ghost var issued: Issued

    ghost predicate Valid()
      reads this
    {
      Remembers(attempt, issued)
    }

    constructor ()
      ensures Valid() && issued == map[]
    {
      attempt, issued := None, map[];
    }

    method KeyForIdentity(next: string, random: string) returns (key: string)
      requires Valid() && random !in issued
      modifies this
      ensures Valid() && key in issued && issued[key] == next
      ensures forall k :: k in old(issued) ==> k in issued && issued[k] == old(issued)[k]
      ensures old(attempt).Some? && old(attempt).value.identity == next ==>
                key == old(attempt).value.key && attempt == old(attempt)
      ensures old(attempt).None? || old(attempt).value.identity != next ==> key == random
    {
      if attempt.None? || attempt.value.identity != next {
        attempt := Some(Attempt(next, random));
        issued := issued[random := next];
      }
      key := attempt.value.key;
    }

    /** The key of the current attempt, or `random` for a command the attempt was not made for. */
    method KeyFor(e: Entry, random: string) returns (key: string)
      requires Valid() && random !in issued
      modifies this
      ensures Valid() && key in issued && issued[key] == Identity(e)
      ensures forall k :: k in old(issued) ==> k in issued && issued[k] == old(issued)[k]
      ensures key ==
              if old(attempt).Some? && old(attempt).value.identity == Identity(e) then old(attempt).value.key
              else random
    {
      key := KeyForIdentity(Identity(e), random);
    }

    method Clear()
      requires Valid()
      modifies this`attempt
      ensures Valid() && attempt.None?
    {
      attempt := None;
    }
  }

  /** One key never carries two different commands: all entries sent under it have one preimage. */
  lemma OneKeyOneMeaning(
    issued: Issued, issued': Issued, key: string, scope: string, target: string, c: Entry, d: Entry)
    requires ValidEntry(c) && ValidEntry(d)
    requires forall k :: k in issued ==> k in issued' && issued'[k] == issued[k]
    requires key in issued && issued[key] == Identity(c) && issued'[key] == Identity(d)
    ensures Preimage(scope, target, c) == Preimage(scope, target, d)
  {
    BrowserAndServerAgree(scope, target, c, d);
  }

  /** A correction attempt is also tied to the transaction it corrects. */
  function CorrectionIdentity(target: string, e: Entry): string {
    "[" + (Quoted(Browser, target) + ("," + (Quoted(Browser, Identity(e)) + "]")))
  }

  lemma CorrectionIdentityIsMeaning(target: string, c: Entry, target': string, d: Entry)
    requires ValidEntry(c) && ValidEntry(d)
    ensures CorrectionIdentity(target, c) == CorrectionIdentity(target', d) <==>
              target == target' && MeaningOf(c) == MeaningOf(d)
  {
    IdentityIsMeaning(c, d);
    if CorrectionIdentity(target, c) == CorrectionIdentity(target', d) {
      var x, y := Quoted(Browser, Identity(c)) + "]", Quoted(Browser, Identity(d)) + "]";
      SplitEqual("[", Quoted(Browser, target) + ("," + x), "[", Quoted(Browser, target') + ("," + y));
      QuotedIsReadable(Browser, target, "," + x, target', "," + y);
      SplitEqual(",", x, ",", y);
      QuotedIsReadable(Browser, Identity(c), "]", Identity(d), "]");
    }
  }
}
