/** What a replay promises, said with quantities brought in and taken out and nothing else.
  *
  * The order of the replay is spelled out here: effective time, then portfolio sequence, then id.
  */
module LedgerTotals {
  import opened Wrappers
  import opened Facts
  import opened Balances
  import opened Replay
  import opened LedgerLaws

  predicate AtOrBefore(f: Fact, p: Position) {
    || f.effectiveAt < p.at
    || (f.effectiveAt == p.at && f.sequence < p.sequence)
    || (f.effectiveAt == p.at && f.sequence == p.sequence && f.id <= p.id)
  }

  predicate OfStream(f: Fact, portfolio: nat, asset: nat) {
    f.portfolio == portfolio && f.asset.Some? && f.asset.value.id == asset
  }

  /** A purchase, or a sale undone. */
  predicate Brings(all: seq<Fact>, f: Fact) {
    f.kind.Buy? || (f.kind.Reversal? && exists o :: o in all && o.id == f.reversalOf && o.kind.Sell?)
  }

  /** A sale, or a purchase undone. */
  predicate Takes(all: seq<Fact>, f: Fact) {
    f.kind.Sell? || (f.kind.Reversal? && exists o :: o in all && o.id == f.reversalOf && o.kind.Buy?)
  }

  /** The quantities brought into a stream by the facts of s up to a position, or by all of them. */
  function Brought(all: seq<Fact>, s: seq<Fact>, portfolio: nat, asset: nat, upTo: Option<Position>): int {
    if s == [] then 0
    else
      var f, rest := s[|s| - 1], Brought(all, s[..|s| - 1], portfolio, asset, upTo);
      if OfStream(f, portfolio, asset) && f.quantity.Some? && Brings(all, f)
        && (upTo.None? || AtOrBefore(f, upTo.value))
      then rest + f.quantity.value else rest
  }

  /** The quantities taken out of it. */
  function Taken(all: seq<Fact>, s: seq<Fact>, portfolio: nat, asset: nat, upTo: Option<Position>): int {
    if s == [] then 0
    else
      var f, rest := s[|s| - 1], Taken(all, s[..|s| - 1], portfolio, asset, upTo);
      if OfStream(f, portfolio, asset) && f.quantity.Some? && Takes(all, f) && (upTo.None? || AtOrBefore(f, upTo.value))
      then rest + f.quantity.value else rest
  }

  /** What the ledger says is held. */
  function Held(all: seq<Fact>, portfolio: nat, asset: nat, upTo: Option<Position>): int {
    Brought(all, all, portfolio, asset, upTo) - Taken(all, all, portfolio, asset, upTo)
  }

  function CutoffOf(upTo: Option<Position>): Cutoff {
    if upTo.Some? then UpTo(upTo.value) else Everything
  }

  lemma OrderIsSpelledOut(f: Fact, upTo: Option<Position>)
    ensures Included(f, CutoffOf(upTo)) <==> upTo.None? || AtOrBefore(f, upTo.value)
  {
  }

  lemma TermIsMovement(all: seq<Fact>, f: Fact, portfolio: nat, asset: nat, upTo: Option<Position>)
    requires WellFormed(all) && f in all
    ensures Term(all, f, StreamKey(portfolio, asset), CutoffOf(upTo))
            == Brought(all, [f], portfolio, asset, upTo) - Taken(all, [f], portfolio, asset, upTo)
  {
    OrderIsSpelledOut(f, upTo);
    assert Rehydrates(f);
    assert Brought(all, [], portfolio, asset, upTo) == 0 == Taken(all, [], portfolio, asset, upTo);
    if f.kind.Reversal? && f.quantity.Some? {
      OriginalIsTrade(all, f);
    }
  }

  /** A reversal that carries a quantity undoes either a purchase or a sale. */
  lemma OriginalIsTrade(all: seq<Fact>, r: Fact)
    requires WellFormed(all) && r in all && r.kind.Reversal? && r.quantity.Some?
    ensures Brings(all, r) <==> !Takes(all, r)
    ensures Takes(all, r) <==> ReversesBuy(all, r)
  {
    assert HasOriginal(all, r);
    var o :| o in all && IsOriginalOf(o, r);
    assert Rehydrates(o);
  }

  lemma {:induction false} RunningIsMovement(
    all: seq<Fact>, s: seq<Fact>, portfolio: nat, asset: nat, upTo: Option<Position>)
    requires WellFormed(all) && forall f :: f in s ==> f in all
    ensures Running(all, s, StreamKey(portfolio, asset), CutoffOf(upTo))
            == Brought(all, s, portfolio, asset, upTo) - Taken(all, s, portfolio, asset, upTo)
  {
    if s != [] {
      var f := s[|s| - 1];
      RunningIsMovement(all, s[..|s| - 1], portfolio, asset, upTo);
      TermIsMovement(all, f, portfolio, asset, upTo);
      assert [f][..0] == [];
    }
  }

  /** In a well-formed ledger the balance of every stream at every position is what was bought less what was sold there,
    * undone purchases and sales taken back. */
  lemma BalanceIsHeld(all: seq<Fact>, portfolio: nat, asset: nat, upTo: Option<Position>)
    requires WellFormed(all)
    ensures Balance(all, StreamKey(portfolio, asset), CutoffOf(upTo)) == Held(all, portfolio, asset, upTo)
  {
    RunningIsMovement(all, all, portfolio, asset, upTo);
  }

  // ----- What a clean ledger is -----

  predicate IsWhole(t: Instant) {
    t != 0 && t % 1000 == 0
  }

  predicate HasTradeFields(f: Fact) {
    && f.asset.Some? && f.quantity.Some? && f.quantity.value > 0 && f.unitPrice.Some? && f.unitPrice.value > 0
    && f.fee.Some? && f.fee.value >= 0 && f.amount.None?
  }

  predicate HasCashFields(f: Fact) {
    f.amount.Some? && f.amount.value > 0 && f.quantity.None? && f.unitPrice.None? && f.fee.None?
  }

  /** One fact by itself. */
  predicate IsRegular(f: Fact) {
    && f.id != 0 && f.portfolio != 0 && f.createdBy != 0 && f.sequence > 0
    && IsWhole(f.createdAt) && IsWhole(f.effectiveAt) && f.effectiveAt <= f.createdAt && f.currency == "USD"
    && (f.note.Some? ==> |f.note.value| <= 2000) && (f.reference.Some? ==> |f.reference.value| <= 256)
    && (f.asset.Some? ==>
          && f.asset.value.id != 0 && f.asset.value.assetType in {Equity, Etf} && f.asset.value.currency == "USD"
          && f.asset.value.exchange in {"NYSE", "NASDAQ", "NYSEARCA", "AMEX"})
    && f.reversalOf != f.id && f.correctionOf != f.id
    && match f.kind
       case Reversal =>
         && f.reversalOf != 0 && f.correctionOf == 0 && f.originatingCorrection != 0 && f.note.None?
           && f.reference.None?
         && (HasTradeFields(f) || HasCashFields(f))
       case Buy => f.reversalOf == 0 && (f.correctionOf == 0 <==> f.originatingCorrection == 0) && HasTradeFields(f)
       case Sell => f.reversalOf == 0 && (f.correctionOf == 0 <==> f.originatingCorrection == 0) && HasTradeFields(f)
       case Dividend =>
         f.reversalOf == 0 && (f.correctionOf == 0 <==> f.originatingCorrection == 0) && f.asset.Some?
           && HasCashFields(f)
       case _ =>
         f.reversalOf == 0 && (f.correctionOf == 0 <==> f.originatingCorrection == 0) && f.asset.None?
           && HasCashFields(f)
  }

  lemma RegularIsRehydrated(f: Fact)
    ensures IsRegular(f) <==> Rehydrates(f)
  {
  }

  /** r repeats what o moved, at the same time and for the same portfolio. */
  predicate Undoes(r: Fact, o: Fact) {
    && r.kind.Reversal? && !o.kind.Reversal? && r.reversalOf == o.id && r.portfolio == o.portfolio
    && r.effectiveAt == o.effectiveAt && r.asset == o.asset && r.quantity == o.quantity && r.unitPrice == o.unitPrice
    && r.fee == o.fee && r.amount == o.amount && r.currency == o.currency
  }

  ghost predicate IsLedger(all: seq<Fact>) {
    && (forall i, j :: 0 <= i < j < |all| ==>
          all[i].id != all[j].id && (all[i].portfolio, all[i].sequence) != (all[j].portfolio, all[j].sequence))
    && (forall f :: f in all ==> IsRegular(f))
    && (forall r :: r in all && r.kind.Reversal? ==> exists o :: o in all && Undoes(r, o))
    && (forall i, j :: 0 <= i < j < |all| && all[i].kind.Reversal? && all[j].kind.Reversal? ==>
          all[i].reversalOf != all[j].reversalOf)
  }

  lemma LedgerIsWellFormed(all: seq<Fact>)
    requires IsLedger(all)
    ensures WellFormed(all)
  {
    forall f | f in all ensures Rehydrates(f) {
      RegularIsRehydrated(f);
    }
    forall r | r in all && r.kind.Reversal? ensures HasOriginal(all, r) {
      var o :| o in all && Undoes(r, o);
      assert IsOriginalOf(o, r);
    }
  }

  lemma WellFormedIsLedger(all: seq<Fact>)
    requires WellFormed(all)
    ensures IsLedger(all)
  {
    forall f | f in all ensures IsRegular(f) {
      RegularIsRehydrated(f);
    }
    forall r | r in all && r.kind.Reversal? ensures exists o :: o in all && Undoes(r, o) {
      assert HasOriginal(all, r);
      var o :| o in all && IsOriginalOf(o, r);
      assert Undoes(r, o);
    }
  }

  predicate Moves(f: Fact) {
    f.asset.Some? && f.quantity.Some?
  }

  function HeldAt(all: seq<Fact>, f: Fact): int
    requires f.asset.Some?
  {
    Held(all, f.portfolio, f.asset.value.id, Some(Position(f.effectiveAt, f.sequence, f.id)))
  }

  lemma HeldIsBalance(all: seq<Fact>, f: Fact)
    requires WellFormed(all) && f.asset.Some?
    ensures BalanceAt(all, f) == HeldAt(all, f)
  {
    BalanceIsHeld(all, f.portfolio, f.asset.value.id, Some(Pos(f)));
  }

  ghost predicate NeverShort(all: seq<Fact>) {
    forall f :: f in all && Moves(f) ==> HeldAt(all, f) >= 0
  }

  lemma SoundMeans(all: seq<Fact>)
    ensures Sound(all) <==> IsLedger(all) && NeverShort(all)
  {
    if IsLedger(all) { LedgerIsWellFormed(all); }
    if WellFormed(all) {
      WellFormedIsLedger(all);
      forall f | f in all && Moves(f) ensures BalanceAt(all, f) == HeldAt(all, f) {
        HeldIsBalance(all, f);
      }
    }
  }

  /** Some candidate of f's stream stands at or before f. */
  predicate FollowsCandidate(candidates: seq<Fact>, f: Fact) {
    exists c :: c in candidates && c.asset.Some? && f.asset.Some? && OfStream(c, f.portfolio, f.asset.value.id)
                && AtOrBefore(c, Position(f.effectiveAt, f.sequence, f.id))
  }

  /** f is the first fact after which too much has been sold. */
  ghost predicate FirstShort(all: seq<Fact>, f: Fact) {
    && f in all && Moves(f) && HeldAt(all, f) < 0
    && forall g :: g in all && Moves(g) && HeldAt(all, g) < 0 ==>
         AtOrBefore(f, Position(g.effectiveAt, g.sequence, g.id))
  }

  /** A replay is clean exactly for a ledger by the rules that never sells what is not held; otherwise, if the rules
    * are kept, it names the first fact that does, how much is missing there, and who is to blame. */
  lemma VerdictMeans(existing: seq<Fact>, candidates: seq<Fact>, v: Verdict)
    requires IsVerdict(existing, candidates, v)
    ensures var all := existing + candidates;
            && (v.Clean? <==> IsLedger(all) && NeverShort(all))
            && (v.Malformed? <==> !IsLedger(all))
            && (v.Insufficient? ==>
                  exists f ::
                    && FirstShort(all, f)
                    && v.violation.id == f.id && v.violation.sequence == f.sequence
                    && v.violation.negativeQuantity == HeldAt(all, f)
                    && v.violation.candidate == (f in candidates)
                    && v.violation.laterExisting == (f !in candidates && FollowsCandidate(candidates, f)))
  {
    var all := existing + candidates;
    SoundMeans(all);
    if IsLedger(all) { LedgerIsWellFormed(all); }
    if WellFormed(all) { WellFormedIsLedger(all); }
    if v.Insufficient? {
      var f :| FirstNegative(all, f) && v.violation == ViolationAt(all, candidates, f);
      FirstNegativeMeans(all, f);
      assert AtOrAfterCandidate(candidates, f) <==> FollowsCandidate(candidates, f);
    }
  }

  lemma FirstNegativeMeans(all: seq<Fact>, f: Fact)
    requires WellFormed(all) && FirstNegative(all, f)
    ensures FirstShort(all, f) && BalanceAt(all, f) == HeldAt(all, f)
  {
    HeldIsBalance(all, f);
    forall g | g in all && Moves(g) && HeldAt(all, g) < 0
      ensures AtOrBefore(f, Position(g.effectiveAt, g.sequence, g.id))
    {
      HeldIsBalance(all, g);
      assert !Before(Pos(g), Pos(f));
    }
  }

  // ----- Sales -----

  /** A sale, however far backdated, keeps a sound ledger sound exactly if its quantity is held where it is placed
    * and at every later move of its stream. */
  lemma SaleKeepsSoundExactly(existing: seq<Fact>, f: Fact)
    requires Sound(existing) && WellFormed(existing + [f]) && f.kind.Sell?
    ensures f.asset.Some? && f.quantity.Some?
    ensures Sound(existing + [f]) <==>
            && f.quantity.value <= HeldAt(existing, f)
            && forall g ::
                 g in existing && Moves(g) && OfStream(g, f.portfolio, f.asset.value.id) && AtOrBefore(f, Pos(g)) ==>
                   f.quantity.value <= HeldAt(existing, g)
  {
    var all := existing + [f];
    assert f in all && Rehydrates(f);
    forall g | g in all && Moves(g)
      ensures BalanceAt(all, g) == HeldAt(existing, g)
              - if OfStream(g, f.portfolio, f.asset.value.id) && AtOrBefore(f, Pos(g)) then f.quantity.value else 0
    {
      SaleLowers(existing, f, g);
    }
    forall g | g in existing && Moves(g) ensures HeldAt(existing, g) >= 0 {
      HeldIsBalance(existing, g);
    }
  }

  lemma SaleLowers(existing: seq<Fact>, f: Fact, g: Fact)
    requires WellFormed(existing) && WellFormed(existing + [f]) && f.kind.Sell? && Rehydrates(f) && g.asset.Some?
    ensures f.asset.Some? && f.quantity.Some?
    ensures BalanceAt(existing + [f], g) == HeldAt(existing, g)
            - if OfStream(g, f.portfolio, f.asset.value.id) && AtOrBefore(f, Pos(g)) then f.quantity.value else 0
  {
    var all, k, c := existing + [f], Key(g).value, UpTo(Pos(g));
    BalanceAfterAdding(existing, [f], k, c);
    assert Running(all, [f], k, c) == Term(all, f, k, c);
    OrderIsSpelledOut(f, Some(Pos(g)));
    HeldIsBalance(existing, g);
  }

  /** A sale after all moves of its stream: the replay is clean exactly if its quantity is held, and otherwise names
    * the sale and what is missing. */
  lemma LastSale(existing: seq<Fact>, f: Fact, v: Verdict)
    requires Sound(existing) && WellFormed(existing + [f]) && f.kind.Sell? && IsVerdict(existing, [f], v)
    requires forall g :: g in existing && Moves(g) && f.asset.Some? && OfStream(g, f.portfolio, f.asset.value.id) ==>
               !AtOrBefore(f, Pos(g))
    ensures f.asset.Some? && f.quantity.Some?
    ensures var held := HeldAt(existing, f);
            v == if f.quantity.value <= held then Clean
                 else Insufficient(Violation(f.id, f.sequence, true, false, held - f.quantity.value))
  {
    SaleKeepsSoundExactly(existing, f);
    if f.quantity.value > HeldAt(existing, f) {
      LastSaleIsFirstShort(existing, f);
      var g :| FirstNegative(existing + [f], g) && v.violation == ViolationAt(existing + [f], [f], g);
      FirstNegativeIsUnique(existing + [f], f, g);
    }
  }

  lemma LastSaleIsFirstShort(existing: seq<Fact>, f: Fact)
    requires Sound(existing) && WellFormed(existing + [f]) && f.kind.Sell? && f.asset.Some? && f.quantity.Some?
    requires forall g :: g in existing && Moves(g) && OfStream(g, f.portfolio, f.asset.value.id) ==>
               !AtOrBefore(f, Pos(g))
    requires f.quantity.value > HeldAt(existing, f)
    ensures FirstNegative(existing + [f], f)
    ensures BalanceAt(existing + [f], f) == HeldAt(existing, f) - f.quantity.value
  {
    var all := existing + [f];
    assert f in all && Rehydrates(f);
    SaleLowers(existing, f, f);
    forall g | g in all && IsMove(g) && Before(Pos(g), Pos(f)) ensures BalanceAt(all, g) >= 0 {
      SaleLowers(existing, f, g);
      HeldIsBalance(existing, g);
      assert g in existing;
    }
  }
}
