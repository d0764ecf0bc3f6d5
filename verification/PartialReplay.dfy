/** validateReplay: replaying only the touched asset streams decides the whole portfolio ledger. */
module PartialReplay {
  import opened Wrappers
  import opened Facts
  import opened Balances
  import opened Replay
  import opened LedgerLaws

  datatype Check = Accepted | LedgerInvalid | QuantityInsufficient | LedgerBackdated

  predicate Touched(candidates: seq<Fact>, f: Fact) {
    f.asset.Some? && exists c :: c in candidates && c.asset.Some? && c.asset.value.id == f.asset.value.id
  }

  /** The facts a partial replay looks at, in any order. */
  ghost predicate IsPartial(ledger: seq<Fact>, candidates: seq<Fact>, originals: seq<Fact>, partial: seq<Fact>) {
    NoDuplicates(partial) && forall f :: f in partial <==> (f in ledger && Touched(candidates, f)) || f in originals
  }

  ghost predicate HasBackdatedViolation(all: seq<Fact>, candidates: seq<Fact>) {
    exists f :: FirstNegative(all, f) && f !in candidates && AtOrAfterCandidate(candidates, f)
  }

  /** What replaying the whole ledger with the candidates says. */
  ghost function FullCheck(ledger: seq<Fact>, candidates: seq<Fact>): Check {
    var all := ledger + candidates;
    if !WellFormed(all) then LedgerInvalid
    else if NeverNegative(all) then Accepted
    else if HasBackdatedViolation(all, candidates) then LedgerBackdated
    else QuantityInsufficient
  }

  /** What a caller must have established before a partial replay can stand for a full one. */
  ghost predicate Admissible(portfolio: nat, ledger: seq<Fact>, candidates: seq<Fact>, originals: seq<Fact>) {
    && (forall f :: f in ledger || f in candidates ==> f.portfolio == portfolio)
    && (forall c, f :: c in candidates && f in ledger ==> c.id != f.id && c.sequence != f.sequence)
    && (forall o :: o in originals ==> o in ledger && !o.kind.Reversal? && (o.asset.Some? ==> Touched(candidates, o)))
    && (forall c, o :: c in candidates && c.kind.Reversal? && c.asset.None? && o in ledger && o.id == c.reversalOf ==>
          o in originals && !IsReversed(ledger, o))
  }

  // ----- The repository query and the loops of validateReplay -----

  function AssetRows(ledger: seq<Fact>, portfolio: nat, asset: nat): (rows: seq<Fact>)
    ensures forall f :: f in rows <==> f in ledger && Key(f) == Some(StreamKey(portfolio, asset))
  {
    if ledger == [] then []
    else
      var last := ledger[|ledger| - 1];
      assert ledger == ledger[..|ledger| - 1] + [last];
      var front := AssetRows(ledger[..|ledger| - 1], portfolio, asset);
      if Key(last) == Some(StreamKey(portfolio, asset)) then front + [last] else front
  }

  lemma {:induction false} AssetRowsDistinct(ledger: seq<Fact>, portfolio: nat, asset: nat)
    requires NoDuplicates(ledger)
    ensures NoDuplicates(AssetRows(ledger, portfolio, asset))
  {
    if ledger != [] {
      AssetRowsDistinct(ledger[..|ledger| - 1], portfolio, asset);
    }
  }

  lemma DistinctConcat<T>(a: seq<T>, b: seq<T>)
    requires NoDuplicates(a) && NoDuplicates(b) && forall x :: x in a ==> x !in b
    ensures NoDuplicates(a + b)
  {
    forall i, j | 0 <= i < j < |a + b| ensures (a + b)[i] != (a + b)[j] {
      if i < |a| <= j {
        assert a[i] in a && b[j - |a|] in b;
      }
    }
  }

  method ValidateReplay(portfolio: nat, ledger: seq<Fact>, candidates: seq<Fact>, originals: seq<Fact>)
    returns (check: Check)
    requires Sound(ledger) && Admissible(portfolio, ledger, candidates, originals) && NoDuplicates(originals)
    ensures check == FullCheck(ledger, candidates)
  {
    var existing: seq<Fact> := [];
    var seen: set<nat> := {};
    for i := 0 to |candidates|
      invariant NoDuplicates(existing)
      invariant seen == set c | c in candidates[..i] && c.asset.Some? :: c.asset.value.id
      invariant forall f :: f in existing <==> f in ledger && Touched(candidates[..i], f)
    {
      var fact := candidates[i];
      assert candidates[..i + 1] == candidates[..i] + [fact];
      if fact.asset.Some? && fact.asset.value.id !in seen {
        seen := seen + {fact.asset.value.id};
        var rows := AssetRows(ledger, portfolio, fact.asset.value.id);
        AssetRowsDistinct(ledger, portfolio, fact.asset.value.id);
        DistinctConcat(existing, rows);
        existing := existing + rows;
      }
    }
    assert candidates[..|candidates|] == candidates;
    ghost var streams := existing;
    for i := 0 to |originals|
      invariant NoDuplicates(existing)
      invariant forall f :: f in existing <==> f in streams || f in originals[..i]
    {
      var original := originals[i];
      assert originals[..i + 1] == originals[..i] + [original];
      var found := exists f :: f in existing && f.id == original.id;
      if !found {
        DistinctConcat(existing, [original]);
        existing := existing + [original];
      } else {
        var f :| f in existing && f.id == original.id;
        assert f in ledger && original in ledger;
      }
    }
    assert originals[..|originals|] == originals;
    var verdict := ReplayLedger(existing, candidates);
    PartialReplayAgrees(portfolio, ledger, candidates, originals, existing);
    VerdictIsFullCheck(existing, candidates, verdict);
    check := match verdict
      case Clean => Accepted
      case Malformed(_) => LedgerInvalid
      case Insufficient(v) => if v.laterExisting then LedgerBackdated else QuantityInsufficient;
  }

  lemma VerdictIsFullCheck(existing: seq<Fact>, candidates: seq<Fact>, v: Verdict)
    requires IsVerdict(existing, candidates, v)
    ensures FullCheck(existing, candidates) ==
            match v
            case Clean => Accepted
            case Malformed(_) => LedgerInvalid
            case Insufficient(violation) => if violation.laterExisting then LedgerBackdated else QuantityInsufficient
  {
    InsufficientIsUnsound(existing, candidates, v);
    if v.Insufficient? {
      var all := existing + candidates;
      var f :| FirstNegative(all, f) && v.violation == ViolationAt(all, candidates, f);
      forall g | FirstNegative(all, g) ensures g == f { FirstNegativeIsUnique(all, f, g); }
    }
  }

  // ----- Partial replay refines full replay -----

  ghost predicate Setting(
    portfolio: nat, ledger: seq<Fact>, candidates: seq<Fact>, originals: seq<Fact>, partial: seq<Fact>) {
    Sound(ledger) && Admissible(portfolio, ledger, candidates, originals)
      && IsPartial(ledger, candidates, originals, partial)
  }

  lemma WellFormedInPart(
    portfolio: nat, ledger: seq<Fact>, candidates: seq<Fact>, originals: seq<Fact>, partial: seq<Fact>)
    requires Setting(portfolio, ledger, candidates, originals, partial)
    requires WellFormed(ledger + candidates)
    ensures WellFormed(partial + candidates)
  {
    var full, part := ledger + candidates, partial + candidates;
    assert forall f :: f in part ==> f in full;
    assert NoDuplicates(candidates) by { TailDistinct(ledger, candidates); }
    DistinctConcat(partial, candidates);
    forall r | r in part && r.kind.Reversal? ensures HasOriginal(part, r) {
      assert HasOriginal(full, r);
      var o :| o in full && IsOriginalOf(o, r);
      if o in ledger {
        if r.asset.Some? {
          assert Touched(candidates, r);
          assert Touched(candidates, o);
        }
        assert o in partial;
      }
      assert o in part;
    }
  }

  lemma TailDistinct<T>(a: seq<T>, b: seq<T>)
    requires NoDuplicates(a + b)
    ensures NoDuplicates(b)
  {
    forall i, j | 0 <= i < j < |b| ensures b[i] != b[j] {
      assert (a + b)[|a| + i] == b[i] && (a + b)[|a| + j] == b[j];
    }
  }

  lemma WellFormedInFull(
    portfolio: nat, ledger: seq<Fact>, candidates: seq<Fact>, originals: seq<Fact>, partial: seq<Fact>)
    requires Setting(portfolio, ledger, candidates, originals, partial)
    requires WellFormed(partial + candidates)
    ensures WellFormed(ledger + candidates)
  {
    var full, part := ledger + candidates, partial + candidates;
    assert forall f :: f in part ==> f in full;
    assert forall f :: f in candidates ==> f in part;
    assert NoDuplicates(candidates) by { TailDistinct(partial, candidates); }
    DistinctConcat(ledger, candidates);
    forall r | r in full && r.kind.Reversal? ensures HasOriginal(full, r) {
      if r in ledger {
        assert HasOriginal(ledger, r);
        var o :| o in ledger && IsOriginalOf(o, r);
        assert o in full;
      } else {
        assert HasOriginal(part, r);
        var o :| o in part && IsOriginalOf(o, r);
        assert o in full;
      }
    }
    assert ReversedOnce(full) by {
      forall f, g | f in full && g in full && f.kind.Reversal? && g.kind.Reversal? && f.reversalOf == g.reversalOf
        ensures f == g {
        if f in ledger && g in candidates {
          NotReversedTwice(portfolio, ledger, candidates, originals, partial, f, g);
        } else if g in ledger && f in candidates {
          NotReversedTwice(portfolio, ledger, candidates, originals, partial, g, f);
        }
      }
    }
  }

  /** A candidate reversal of an already reversed fact cannot hide from the partial replay. */
  lemma NotReversedTwice(
    portfolio: nat, ledger: seq<Fact>, candidates: seq<Fact>, originals: seq<Fact>, partial: seq<Fact>, f: Fact,
    g: Fact)
    requires Setting(portfolio, ledger, candidates, originals, partial)
    requires WellFormed(partial + candidates)
    requires f in ledger && g in candidates && f.kind.Reversal? && g.kind.Reversal?
    ensures f.reversalOf != g.reversalOf
  {
    assert HasOriginal(ledger, f);
    var o :| o in ledger && IsOriginalOf(o, f);
    assert g in partial + candidates && HasOriginal(partial + candidates, g);
    var o' :| o' in partial + candidates && IsOriginalOf(o', g);
    assert f.reversalOf == g.reversalOf ==> o' !in candidates;
    assert f.reversalOf == g.reversalOf ==> o == o';
    assert f.reversalOf == g.reversalOf && g.asset.Some? ==> Touched(candidates, f);
    assert f.reversalOf == g.reversalOf && g.asset.Some? ==> f in partial + candidates;
    assert f.reversalOf == g.reversalOf ==> IsReversed(ledger, o);
  }

  /** The facts of one stream. */
  function Stream(s: seq<Fact>, k: StreamKey): (r: seq<Fact>)
    ensures forall f :: f in r <==> f in s && Key(f) == Some(k)
  {
    AssetRows(s, k.portfolio, k.asset)
  }

  lemma {:induction false} RunningOverStream(facts: seq<Fact>, s: seq<Fact>, k: StreamKey, c: Cutoff)
    ensures Running(facts, s, k, c) == Running(facts, Stream(s, k), k, c)
  {
    if s != [] {
      var front, last := s[..|s| - 1], s[|s| - 1];
      RunningOverStream(facts, front, k, c);
      if Key(last) == Some(k) {
        RunningConcat(facts, Stream(front, k), [last], k, c);
        assert Running(facts, [last], k, c) == Term(facts, last, k, c);
      }
    }
  }

  /** A touched stream has the same balances in the partial replay as in the full one. */
  lemma TouchedStreamAgrees(
    portfolio: nat, ledger: seq<Fact>, candidates: seq<Fact>, originals: seq<Fact>, partial: seq<Fact>, k: StreamKey,
    c: Cutoff)
    requires Setting(portfolio, ledger, candidates, originals, partial)
    requires WellFormed(partial + candidates) && WellFormed(ledger + candidates)
    requires exists f :: f in candidates && Key(f) == Some(k)
    ensures Balance(partial + candidates, k, c) == Balance(ledger + candidates, k, c)
  {
    var full, part := ledger + candidates, partial + candidates;
    assert forall g :: g in part ==> g in full;
    SameStream(ledger, candidates, originals, partial, k);
    RunningOverStream(part, part, k, c);
    RunningOverStream(full, full, k, c);
    RunningPermuted(full, Stream(part, k), Stream(full, k), k, c);
    TermsInPart(part, full, k, c);
    RunningAgrees(part, full, Stream(part, k), k, c, c);
  }

  lemma TermsInPart(part: seq<Fact>, full: seq<Fact>, k: StreamKey, c: Cutoff)
    requires WellFormed(part) && WellFormed(full) && forall g :: g in part ==> g in full
    ensures forall f :: f in Stream(part, k) ==> Term(part, f, k, c) == Term(full, f, k, c)
  {
    forall f | f in Stream(part, k) ensures Term(part, f, k, c) == Term(full, f, k, c) {
      SignedInPart(part, full, f);
    }
  }

  lemma SameStream(ledger: seq<Fact>, candidates: seq<Fact>, originals: seq<Fact>, partial: seq<Fact>, k: StreamKey)
    requires IsPartial(ledger, candidates, originals, partial)
    requires forall o :: o in originals ==> o in ledger
    requires NoDuplicates(partial + candidates) && NoDuplicates(ledger + candidates)
    requires exists f :: f in candidates && Key(f) == Some(k)
    ensures multiset(Stream(partial + candidates, k)) == multiset(Stream(ledger + candidates, k))
  {
    var full, part := ledger + candidates, partial + candidates;
    forall f ensures f in Stream(part, k) <==> f in Stream(full, k) {
      if f in ledger && Key(f) == Some(k) {
        assert Touched(candidates, f);
      }
    }
    AssetRowsDistinct(part, k.portfolio, k.asset);
    AssetRowsDistinct(full, k.portfolio, k.asset);
    SameElementsSameMultiset(Stream(part, k), Stream(full, k));
  }

  /** A reversal resolves to the same original in a part that holds it. */
  lemma SignedInPart(part: seq<Fact>, full: seq<Fact>, f: Fact)
    requires WellFormed(part) && UniqueIds(full) && f in part
    requires forall g :: g in part ==> g in full
    ensures Signed(part, f) == Signed(full, f)
  {
    if f.kind.Reversal? {
      assert HasOriginal(part, f);
      SignedAgrees(part, full, f);
    }
  }

  /** A stream no candidate touches keeps its balances. */
  lemma UntouchedStreamAgrees(portfolio: nat, ledger: seq<Fact>, candidates: seq<Fact>, originals: seq<Fact>, f: Fact)
    requires Sound(ledger) && Admissible(portfolio, ledger, candidates, originals) && UniqueIds(ledger + candidates)
    requires f in ledger && IsMove(f) && !Touched(candidates, f)
    ensures BalanceAt(ledger + candidates, f) >= 0
  {
    var k, c := Key(f).value, UpTo(Pos(f));
    assert BalanceAt(ledger, f) >= 0;
    BalanceAfterAdding(ledger, candidates, k, c);
    RunningOfZeros(ledger + candidates, candidates, k, c);
  }

  lemma BalanceAtAgrees(
    portfolio: nat, ledger: seq<Fact>, candidates: seq<Fact>, originals: seq<Fact>, partial: seq<Fact>, f: Fact)
    requires Setting(portfolio, ledger, candidates, originals, partial)
    requires WellFormed(partial + candidates) && WellFormed(ledger + candidates)
    requires f in ledger + candidates && IsMove(f)
    ensures f in partial + candidates ==> BalanceAt(partial + candidates, f) == BalanceAt(ledger + candidates, f)
    ensures f !in partial + candidates ==> BalanceAt(ledger + candidates, f) >= 0
  {
    if f in candidates || Touched(candidates, f) {
      TouchedStreamAgrees(portfolio, ledger, candidates, originals, partial, Key(f).value, UpTo(Pos(f)));
    } else {
      UntouchedStreamAgrees(portfolio, ledger, candidates, originals, f);
    }
  }

  /** Both replays give the same verdict, down to the violating fact. */
  lemma PartialReplayAgrees(
    portfolio: nat, ledger: seq<Fact>, candidates: seq<Fact>, originals: seq<Fact>, partial: seq<Fact>)
    requires Setting(portfolio, ledger, candidates, originals, partial)
    ensures WellFormed(partial + candidates) <==> WellFormed(ledger + candidates)
    ensures Sound(partial + candidates) <==> Sound(ledger + candidates)
    ensures WellFormed(ledger + candidates) ==>
              forall f :: FirstNegative(partial + candidates, f) <==> FirstNegative(ledger + candidates, f)
    ensures FullCheck(partial, candidates) == FullCheck(ledger, candidates)
  {
    var full, part := ledger + candidates, partial + candidates;
    if WellFormed(full) { WellFormedInPart(portfolio, ledger, candidates, originals, partial); }
    if WellFormed(part) { WellFormedInFull(portfolio, ledger, candidates, originals, partial); }
    if WellFormed(full) {
      forall f | f in full && IsMove(f)
        ensures f in part ==> BalanceAt(part, f) == BalanceAt(full, f)
        ensures f !in part ==> BalanceAt(full, f) >= 0
      {
        BalanceAtAgrees(portfolio, ledger, candidates, originals, partial, f);
      }
      assert forall f :: f in part ==> f in full;
      forall f ensures FirstNegative(part, f) <==> FirstNegative(full, f) {
      }
    }
  }
}
