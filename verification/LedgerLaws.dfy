/** Laws of the replay: order independence, blame, safe additions, cancelling pairs, conservation. */
module LedgerLaws {
  import opened Wrappers
  import opened Facts
  import opened Balances
  import opened Replay

  /** The verdict is a function of the two collections of facts, however they are listed. */
  lemma VerdictIgnoresListing(existing: seq<Fact>, candidates: seq<Fact>, v: Verdict,
                              existing': seq<Fact>, candidates': seq<Fact>, v': Verdict)
    requires multiset(existing) == multiset(existing') && multiset(candidates) == multiset(candidates')
    requires IsVerdict(existing, candidates, v) && IsVerdict(existing', candidates', v')
    ensures v.Clean? <==> v'.Clean?
    ensures v.Malformed? <==> v'.Malformed?
    ensures v.Insufficient? ==> v == v'
  {
    var all, all' := existing + candidates, existing' + candidates';
    PermutationInvariance(all, all');
    InsufficientIsUnsound(existing, candidates, v);
    InsufficientIsUnsound(existing', candidates', v');
    if v.Insufficient? && v'.Insufficient? {
      var f :| FirstNegative(all, f) && v.violation == ViolationAt(all, candidates, f);
      var f' :| FirstNegative(all', f') && v'.violation == ViolationAt(all', candidates', f');
      FirstNegativeIsUnique(all, f, f');
      SameMembers(candidates, candidates');
    }
  }

  lemma InsufficientIsUnsound(existing: seq<Fact>, candidates: seq<Fact>, v: Verdict)
    requires IsVerdict(existing, candidates, v)
    ensures v.Insufficient? ==> !Sound(existing + candidates)
  {
    if v.Insufficient? {
      var all := existing + candidates;
      var f :| FirstNegative(all, f) && v.violation == ViolationAt(all, candidates, f);
      assert BalanceAt(all, f) < 0;
    }
  }

  // ----- Balances at every instant, not only at facts -----

  predicate Moves(f: Fact, k: StreamKey, c: Cutoff) {
    IsMove(f) && Key(f) == Some(k) && Included(f, c)
  }

  lemma {:induction false} LatestMove(s: seq<Fact>, k: StreamKey, c: Cutoff) returns (latest: Option<Fact>)
    ensures latest.None? ==> forall f :: f in s ==> !Moves(f, k, c)
    ensures latest.Some? ==> latest.value in s && Moves(latest.value, k, c)
    ensures latest.Some? ==> forall f :: f in s && Moves(f, k, c) ==> !Before(Pos(latest.value), Pos(f))
  {
    if s == [] {
      latest := None;
    } else {
      var last := s[|s| - 1];
      assert s == s[..|s| - 1] + [last];
      latest := LatestMove(s[..|s| - 1], k, c);
      if Moves(last, k, c) && (latest.None? || !Before(Pos(last), Pos(latest.value))) {
        latest := Some(last);
      }
    }
  }

  lemma SoundAtEveryInstant(s: seq<Fact>, k: StreamKey, c: Cutoff)
    requires Sound(s)
    ensures Balance(s, k, c) >= 0
  {
    var latest := LatestMove(s, k, c);
    if latest.None? {
      RunningOfZeros(s, s, k, c);
    } else {
      var f := latest.value;
      forall g | g in s ensures Term(s, g, k, c) == Term(s, g, k, UpTo(Pos(f))) {
        if g.quantity.Some? && Key(g) == Some(k) && Included(g, c) {
          assert Moves(g, k, c);
        }
      }
      RunningAgrees(s, s, s, k, c, UpTo(Pos(f)));
      assert BalanceAt(s, f) >= 0;
    }
  }

  // ----- Adding facts -----

  lemma BalanceAfterAdding(existing: seq<Fact>, added: seq<Fact>, k: StreamKey, c: Cutoff)
    requires WellFormed(existing) && UniqueIds(existing + added)
    ensures Balance(existing + added, k, c) == Balance(existing, k, c) + Running(existing + added, added, k, c)
  {
    var all := existing + added;
    RunningConcat(all, existing, added, k, c);
    forall f | f in existing ensures Term(all, f, k, c) == Term(existing, f, k, c) {
      if f.kind.Reversal? {
        var o :| o in existing && IsOriginalOf(o, f);
        assert o in all && forall o' :: o' in existing ==> o' in all;
        SignedAgrees(all, existing, f);
      }
    }
    RunningAgrees(all, existing, existing, k, c, c);
  }

  /** If the existing facts replay cleanly, a violation is at a candidate or downstream of one. */
  lemma BlameIsAssigned(existing: seq<Fact>, candidates: seq<Fact>, f: Fact)
    requires Sound(existing) && WellFormed(existing + candidates) && FirstNegative(existing + candidates, f)
    ensures var v := ViolationAt(existing + candidates, candidates, f); v.candidate || v.laterExisting
  {
    var all := existing + candidates;
    var k, c := Key(f).value, UpTo(Pos(f));
    assert f in candidates || BalanceAt(existing, f) >= 0;
    if f !in candidates && !AtOrAfterCandidate(candidates, f) {
      BalanceAfterAdding(existing, candidates, k, c);
      RunningOfZeros(all, candidates, k, c);
    }
  }

  predicate Overdraws(all: seq<Fact>, f: Fact) {
    IsMove(f) && BalanceAt(all, f) < 0
  }

  lemma {:induction false} EarliestOverdraft(all: seq<Fact>, s: seq<Fact>) returns (first: Option<Fact>)
    ensures first.None? ==> forall f :: f in s ==> !Overdraws(all, f)
    ensures first.Some? ==> first.value in s && Overdraws(all, first.value)
    ensures first.Some? ==> forall f :: f in s && Overdraws(all, f) ==> !Before(Pos(f), Pos(first.value))
    decreases |s|
  {
    if s == [] {
      first := None;
    } else {
      var last := s[|s| - 1];
      assert s == s[..|s| - 1] + [last];
      first := EarliestOverdraft(all, s[..|s| - 1]);
      if Overdraws(all, last) && (first.None? || Before(Pos(last), Pos(first.value))) {
        first := Some(last);
      }
    }
  }

  /** An unsound but well-formed ledger has a first violation. */
  lemma FirstNegativeExists(all: seq<Fact>) returns (f: Fact)
    requires WellFormed(all) && !NeverNegative(all)
    ensures FirstNegative(all, f)
  {
    var first := EarliestOverdraft(all, all);
    f := first.value;
    forall g | g in all && IsMove(g) && Before(Pos(g), Pos(f)) ensures BalanceAt(all, g) >= 0 {
      assert !Overdraws(all, g);
    }
  }

  /** A buy, a dividend or a cash fact never overdraws a sound ledger, however far it is backdated. */
  lemma AdditionsNeverOverdraw(existing: seq<Fact>, f: Fact)
    requires Sound(existing) && WellFormed(existing + [f])
    requires !f.kind.Sell? && !f.kind.Reversal?
    ensures Sound(existing + [f])
  {
    var all := existing + [f];
    forall g | g in all && IsMove(g) ensures BalanceAt(all, g) >= 0 {
      var k, c := Key(g).value, UpTo(Pos(g));
      BalanceAfterAdding(existing, [f], k, c);
      SoundAtEveryInstant(existing, k, c);
      assert Running(all, [f], k, c) == Term(all, f, k, c);
      assert f in all;
    }
  }

  // ----- An original and its reversal cancel -----

  ghost predicate IsPair(s: seq<Fact>, o: Fact, r: Fact) {
    o in s && r in s && r.kind.Reversal? && IsOriginalOf(o, r)
  }

  /** rest lists, in any order, the facts of s other than o and r. */
  ghost predicate IsWithout(s: seq<Fact>, o: Fact, r: Fact, rest: seq<Fact>) {
    NoDuplicates(rest) && forall f :: f in rest <==> f in s && f != o && f != r
  }

  /** What the pair adds between the original's slot and the reversal's. */
  function PairWindow(s: seq<Fact>, o: Fact, r: Fact, k: StreamKey, c: Cutoff): int {
    if Key(o) != Some(k) then 0
    else (if Included(o, c) then Signed(s, o) else 0) - (if Included(r, c) then Signed(s, o) else 0)
  }

  lemma ReversalNegates(s: seq<Fact>, o: Fact, r: Fact)
    requires WellFormed(s) && IsPair(s, o, r)
    ensures Signed(s, r) == -Signed(s, o) && Key(r) == Key(o)
  {
    assert ReversesBuy(s, r) <==> o.kind.Buy?;
  }

  lemma PairCancels(s: seq<Fact>, o: Fact, r: Fact, rest: seq<Fact>, k: StreamKey, c: Cutoff)
    requires WellFormed(s) && IsPair(s, o, r) && IsWithout(s, o, r, rest)
    ensures Balance(s, k, c) == Balance(rest, k, c) + PairWindow(s, o, r, k, c)
  {
    var listed := rest + [o, r];
    WithPair(s, o, r, rest);
    RunningPermuted(s, s, listed, k, c);
    RunningConcat(s, rest, [o, r], k, c);
    RunningConcat(s, [o], [r], k, c);
    assert [o] + [r] == [o, r];
    ReversalNegates(s, o, r);
    assert Running(s, [o], k, c) == Term(s, o, k, c) && Running(s, [r], k, c) == Term(s, r, k, c);
    forall f | f in rest ensures Term(s, f, k, c) == Term(rest, f, k, c) {
      if f.kind.Reversal? {
        assert f.reversalOf != o.id;
        SignedAgrees(s, rest, f);
      }
    }
    RunningAgrees(s, rest, rest, k, c, c);
  }

  lemma WithPair(s: seq<Fact>, o: Fact, r: Fact, rest: seq<Fact>)
    requires NoDuplicates(s) && IsPair(s, o, r) && IsWithout(s, o, r, rest)
    ensures multiset(s) == multiset(rest + [o, r])
  {
    var listed := rest + [o, r];
    assert listed[|rest|] == o && listed[|rest| + 1] == r;
    assert o in listed && r in listed;
    forall f ensures f in s <==> f in listed {
      if f in rest { assert f in listed; }
    }
    SameElementsSameMultiset(s, listed);
  }

  lemma WellFormedWithoutPair(s: seq<Fact>, o: Fact, r: Fact, rest: seq<Fact>)
    requires WellFormed(s) && IsPair(s, o, r) && IsWithout(s, o, r, rest)
    ensures WellFormed(rest)
  {
    forall f | f in rest && f.kind.Reversal? ensures HasOriginal(rest, f) {
      assert f in s && HasOriginal(s, f);
      var q :| q in s && IsOriginalOf(q, f);
      assert q != r;
      assert q != o;
      assert q in rest;
    }
  }

  /** Outside the slots from the original up to just before the reversal, the pair is invisible. */
  lemma PairInvisibleOutsideWindow(s: seq<Fact>, o: Fact, r: Fact, rest: seq<Fact>, k: StreamKey, c: Cutoff)
    requires WellFormed(s) && IsPair(s, o, r) && IsWithout(s, o, r, rest) && o.sequence < r.sequence
    requires Key(o) != Some(k) || !Included(o, c) || Included(r, c)
    ensures Balance(s, k, c) == Balance(rest, k, c)
  {
    PairCancels(s, o, r, rest, k, c);
    assert Before(Pos(o), Pos(r));
  }

  /** Correcting a BUY can only fail if the ledger without it fails; for a SELL it is the other way round. */
  lemma PairKeepsSoundness(s: seq<Fact>, o: Fact, r: Fact, rest: seq<Fact>)
    requires WellFormed(s) && IsPair(s, o, r) && IsWithout(s, o, r, rest) && o.sequence < r.sequence
    ensures o.kind.Buy? && Sound(rest) ==> Sound(s)
    ensures o.kind.Sell? && Sound(s) ==> Sound(rest)
  {
    WellFormedWithoutPair(s, o, r, rest);
    assert Before(Pos(o), Pos(r));
    if o.kind.Buy? && Sound(rest) {
      forall f | f in s && IsMove(f) ensures BalanceAt(s, f) >= 0 {
        PairCancels(s, o, r, rest, Key(f).value, UpTo(Pos(f)));
        SoundAtEveryInstant(rest, Key(f).value, UpTo(Pos(f)));
      }
    }
    if o.kind.Sell? && Sound(s) {
      forall f | f in rest && IsMove(f) ensures BalanceAt(rest, f) >= 0 {
        PairCancels(s, o, r, rest, Key(f).value, UpTo(Pos(f)));
        assert BalanceAt(s, f) >= 0;
      }
    }
  }

  // ----- Conservation -----

  predicate IsReversed(s: seq<Fact>, f: Fact) {
    exists r :: r in s && r.kind.Reversal? && r.reversalOf == f.id
  }

  /** A fact that still counts: not a reversal and not reversed. */
  predicate IsLive(s: seq<Fact>, f: Fact) {
    f in s && !f.kind.Reversal? && !IsReversed(s, f)
  }

  /** The final balance of every stream is that of the live facts alone. */
  lemma {:induction false} Conservation(s: seq<Fact>, live: seq<Fact>, k: StreamKey)
    requires WellFormed(s)
    requires NoDuplicates(live) && forall f :: f in live <==> IsLive(s, f)
    ensures Balance(s, k, Everything) == Balance(live, k, Everything)
    decreases |s|
  {
    if r :| r in s && r.kind.Reversal? {
      assert HasOriginal(s, r);
      var o :| o in s && IsOriginalOf(o, r);
      var rest := Pruned(s, o, r);
      WellFormedWithoutPair(s, o, r, rest);
      PairCancels(s, o, r, rest, k, Everything);
      forall f ensures IsLive(s, f) <==> IsLive(rest, f) {
        LiveWithoutPair(s, o, r, rest, f);
      }
      Conservation(rest, live, k);
    } else {
      SameElementsSameMultiset(s, live);
      RunningPermuted(s, s, live, k, Everything);
      RunningAgrees(s, live, live, k, Everything, Everything);
    }
  }

  lemma LiveWithoutPair(s: seq<Fact>, o: Fact, r: Fact, rest: seq<Fact>, f: Fact)
    requires WellFormed(s) && IsPair(s, o, r) && IsWithout(s, o, r, rest)
    ensures IsLive(s, f) <==> IsLive(rest, f)
  {
    if f in rest && IsReversed(s, f) {
      var q :| q in s && q.kind.Reversal? && q.reversalOf == f.id;
      assert f in s && f.id != o.id;
      assert q in rest;
    }
    if IsLive(s, f) {
      assert f != o;
    }
  }

  lemma Pruned(s: seq<Fact>, o: Fact, r: Fact) returns (rest: seq<Fact>)
    requires NoDuplicates(s) && IsPair(s, o, r)
    ensures IsWithout(s, o, r, rest) && |rest| < |s|
  {
    var i :| 0 <= i < |s| && s[i] == o;
    var t := Dropping(s, i);
    Without(s, i);
    assert r in t;
    var j :| 0 <= j < |t| && t[j] == r;
    rest := Dropping(t, j);
    Without(t, j);
  }
}
