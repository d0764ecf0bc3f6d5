/** ReplayLedger: one pass over the sorted facts against the order-free balances of module Balances. */
module Replay {
  import opened Wrappers
  import opened Facts
  import opened Balances

  datatype Defect = InvalidFact | DuplicateFact | DuplicateSequence | DuplicateReversal | InconsistentReversal

  datatype Violation = Violation(id: nat, sequence: int, candidate: bool, laterExisting: bool, negativeQuantity: int)

  datatype Verdict = Clean | Malformed(defect: Defect) | Insufficient(violation: Violation)

  /** Some candidate of f's stream stands at or before f. */
  predicate AtOrAfterCandidate(candidates: seq<Fact>, f: Fact) {
    exists c :: c in candidates && c.asset.Some? && Key(c) == Key(f) && !Before(Pos(f), Pos(c))
  }

  function ViolationAt(all: seq<Fact>, candidates: seq<Fact>, f: Fact): Violation
    requires f.asset.Some?
  {
    var candidate := f in candidates;
    Violation(f.id, f.sequence, candidate, !candidate && AtOrAfterCandidate(candidates, f), BalanceAt(all, f))
  }

  /** The whole outcome of a replay, stated on the unsorted facts. */
  ghost predicate IsVerdict(existing: seq<Fact>, candidates: seq<Fact>, v: Verdict) {
    var all := existing + candidates;
    match v
    case Clean => Sound(all)
    case Malformed(_) => !WellFormed(all)
    case Insufficient(violation) =>
      && WellFormed(all)
      && exists f :: FirstNegative(all, f) && violation == ViolationAt(all, candidates, f)
  }

  // ----- Sorting; stands for the library sort, whose result the total order determines -----

  ghost predicate InOrder(s: seq<Fact>) {
    forall i, j :: 0 <= i < j < |s| ==> !Before(Pos(s[j]), Pos(s[i]))
  }

  function Insert(s: seq<Fact>, f: Fact): (r: seq<Fact>)
    ensures multiset(r) == multiset(s) + multiset{f}
  {
    if s == [] || !Before(Pos(f), Pos(s[|s| - 1])) then s + [f]
    else
      assert s == s[..|s| - 1] + [s[|s| - 1]];
      Insert(s[..|s| - 1], f) + [s[|s| - 1]]
  }

  function SortByPosition(s: seq<Fact>): (r: seq<Fact>)
    ensures multiset(r) == multiset(s)
  {
    if s == [] then []
    else
      assert s == s[..|s| - 1] + [s[|s| - 1]];
      Insert(SortByPosition(s[..|s| - 1]), s[|s| - 1])
  }

  lemma {:induction false} InsertInOrder(s: seq<Fact>, f: Fact)
    requires InOrder(s)
    ensures InOrder(Insert(s, f))
  {
    if s != [] && Before(Pos(f), Pos(s[|s| - 1])) {
      var front, last := s[..|s| - 1], s[|s| - 1];
      InsertInOrder(front, f);
      var r := Insert(front, f);
      forall i | 0 <= i < |r| ensures !Before(Pos(last), Pos(r[i])) {
        assert r[i] in multiset(r);
        assert r[i] == f || r[i] in front;
      }
    }
  }

  lemma {:induction false} SortInOrder(s: seq<Fact>)
    ensures InOrder(SortByPosition(s))
  {
    if s != [] {
      SortInOrder(s[..|s| - 1]);
      InsertInOrder(SortByPosition(s[..|s| - 1]), s[|s| - 1]);
    }
  }

  /** Over a sorted list, the balance at the i-th fact is the sum of the first i + 1 terms. */
  lemma PrefixBalance(facts: seq<Fact>, s: seq<Fact>, i: nat, k: StreamKey)
    requires i < |s| && InOrder(s) && UniqueIds(s) && NoDuplicates(s)
    ensures Running(facts, s, k, UpTo(Pos(s[i]))) == Running(facts, s[..i + 1], k, Everything)
  {
    var c := UpTo(Pos(s[i]));
    assert s == s[..i + 1] + s[i + 1..];
    RunningConcat(facts, s[..i + 1], s[i + 1..], k, c);
    CutoffAtIndex(s, i);
    RunningAgrees(facts, facts, s[..i + 1], k, c, Everything);
    RunningOfZeros(facts, s[i + 1..], k, c);
  }

  lemma CutoffAtIndex(s: seq<Fact>, i: nat)
    requires i < |s| && InOrder(s) && UniqueIds(s) && NoDuplicates(s)
    ensures forall f :: f in s[..i + 1] ==> Included(f, UpTo(Pos(s[i])))
    ensures forall f :: f in s[i + 1..] ==> !Included(f, UpTo(Pos(s[i])))
  {
    forall f | f in s[i + 1..] ensures !Included(f, UpTo(Pos(s[i]))) {
      var j :| i < j < |s| && s[j] == f;
      assert !Before(Pos(s[j]), Pos(s[i])) && s[j].id != s[i].id;
    }
  }

  // ----- The first loop: validity, identity and sequence of every fact -----

  ghost predicate FactsOk(s: seq<Fact>) {
    NoDuplicates(s) && UniqueIds(s) && UniqueSequences(s) && forall f :: f in s ==> Rehydrates(f)
  }

  ghost predicate Indexes(byId: map<nat, Fact>, s: seq<Fact>) {
    && (forall f :: f in s ==> f.id in byId && byId[f.id] == f)
    && (forall id :: id in byId ==> byId[id] in s && byId[id].id == id)
  }

  predicate Taken(sequences: map<nat, set<int>>, portfolio: nat, sequence: int) {
    portfolio in sequences && sequence in sequences[portfolio]
  }

  predicate HasSequence(s: seq<Fact>, portfolio: nat, sequence: int) {
    exists f :: f in s && f.portfolio == portfolio && f.sequence == sequence
  }

  ghost predicate Sequenced(sequences: map<nat, set<int>>, s: seq<Fact>) {
    forall p, n :: Taken(sequences, p, n) <==> HasSequence(s, p, n)
  }

  lemma OneMoreFact(s: seq<Fact>, f: Fact)
    ensures FactsOk(s + [f]) <==>
            FactsOk(s) && Rehydrates(f) && (forall g :: g in s ==> g.id != f.id)
              && !HasSequence(s, f.portfolio, f.sequence)
  {
    var t := s + [f];
    assert f in t && forall g :: g in s ==> g in t;
    assert forall g :: g in t ==> g in s || g == f;
    if FactsOk(t) {
      assert forall i :: 0 <= i < |s| ==> t[i] == s[i] && t[i] != t[|s|];
    }
  }

  lemma FactsOkPrefix(all: seq<Fact>, i: nat)
    requires i <= |all| && FactsOk(all)
    ensures FactsOk(all[..i])
  {
  }

  lemma IndexMore(byId: map<nat, Fact>, s: seq<Fact>, f: Fact)
    requires Indexes(byId, s) && f.id !in byId
    ensures Indexes(byId[f.id := f], s + [f])
  {
  }

  lemma SequenceMore(sequences: map<nat, set<int>>, s: seq<Fact>, f: Fact)
    requires Sequenced(sequences, s)
    ensures var known := if f.portfolio in sequences then sequences[f.portfolio] else {};
            Sequenced(sequences[f.portfolio := known + {f.sequence}], s + [f])
  {
    var t := sequences[f.portfolio := (if f.portfolio in sequences then sequences[f.portfolio] else {}) + {f.sequence}];
    forall p, n ensures Taken(t, p, n) <==> HasSequence(s + [f], p, n) {
      assert Taken(t, p, n) <==> Taken(sequences, p, n) || (p == f.portfolio && n == f.sequence);
      assert f in s + [f];
      if HasSequence(s, p, n) {
        var g :| g in s && g.portfolio == p && g.sequence == n;
        assert g in s + [f];
      }
    }
  }

  method CheckFacts(all: seq<Fact>) returns (defect: Option<Defect>, byId: map<nat, Fact>)
    ensures defect.None? <==> FactsOk(all)
    ensures defect.None? ==> Indexes(byId, all)
  {
    byId := map[];
    var sequences: map<nat, set<int>> := map[];
    for i := 0 to |all|
      invariant FactsOk(all[..i]) && Indexes(byId, all[..i]) && Sequenced(sequences, all[..i])
    {
      var fact := all[i];
      assert all[..i + 1] == all[..i] + [fact];
      OneMoreFact(all[..i], fact);
      if FactsOk(all) { FactsOkPrefix(all, i + 1); }
      if !Rehydrates(fact) {
        return Some(InvalidFact), byId;
      }
      if fact.id in byId {
        return Some(DuplicateFact), byId;
      }
      IndexMore(byId, all[..i], fact);
      byId := byId[fact.id := fact];
      var taken := if fact.portfolio in sequences then sequences[fact.portfolio] else {};
      if fact.sequence in taken {
        assert Taken(sequences, fact.portfolio, fact.sequence);
        return Some(DuplicateSequence), byId;
      }
      SequenceMore(sequences, all[..i], fact);
      assert !Taken(sequences, fact.portfolio, fact.sequence);
      sequences := sequences[fact.portfolio := taken + {fact.sequence}];
    }
    assert all[..|all|] == all;
    defect := None;
  }

  // ----- The second loop: every reversal has one matching original -----

  method CheckReversals(all: seq<Fact>, byId: map<nat, Fact>) returns (defect: Option<Defect>)
    requires NoDuplicates(all) && Indexes(byId, all)
    ensures defect.None? <==> ReversedOnce(all) && forall f :: f in all && f.kind.Reversal? ==> HasOriginal(all, f)
  {
    var reversed: set<nat> := {};
    for i := 0 to |all|
      invariant ReversedOnce(all[..i])
      invariant forall f :: f in all[..i] && f.kind.Reversal? ==> HasOriginal(all, f) && f.reversalOf in reversed
      invariant forall id :: id in reversed ==> exists f :: f in all[..i] && f.kind.Reversal? && f.reversalOf == id
    {
      var fact := all[i];
      assert all[..i + 1] == all[..i] + [fact];
      assert fact in all;
      if fact.kind.Reversal? {
        if fact.reversalOf in reversed {
          var f :| f in all[..i] && f.kind.Reversal? && f.reversalOf == fact.reversalOf;
          assert f in all && f != fact;
          return Some(DuplicateReversal);
        }
        reversed := reversed + {fact.reversalOf};
        if fact.reversalOf !in byId || !IsOriginalOf(byId[fact.reversalOf], fact) {
          assert !HasOriginal(all, fact);
          return Some(InconsistentReversal);
        }
      }
    }
    assert all[..|all|] == all;
    defect := None;
  }

  // ----- The replay -----

  function BalanceIn(balances: map<StreamKey, int>, k: StreamKey): int {
    if k in balances then balances[k] else 0
  }

  method ReplayLedger(existing: seq<Fact>, candidates: seq<Fact>) returns (verdict: Verdict)
    ensures IsVerdict(existing, candidates, verdict)
  {
    var all := existing + candidates;
    var defect, byId := CheckFacts(all);
    if defect.Some? {
      return Malformed(defect.value);
    }
    defect := CheckReversals(all, byId);
    if defect.Some? {
      return Malformed(defect.value);
    }
    verdict := CheckBalances(all, candidates, byId);
  }

  ghost predicate Tracks(all: seq<Fact>, done: seq<Fact>, balances: map<StreamKey, int>) {
    forall k :: BalanceIn(balances, k) == Running(all, done, k, Everything)
  }

  ghost predicate Saw(done: seq<Fact>, candidates: seq<Fact>, seen: set<StreamKey>) {
    forall k :: k in seen <==> exists f :: f in done && f in candidates && Key(f) == Some(k)
  }

  ghost predicate NoneNegative(all: seq<Fact>, done: seq<Fact>) {
    forall f :: f in done && IsMove(f) ==> BalanceAt(all, f) >= 0
  }

  /** The state of the last loop once the facts in `done` have been replayed. */
  ghost predicate Replayed(
    all: seq<Fact>, candidates: seq<Fact>, done: seq<Fact>, balances: map<StreamKey, int>, seen: set<StreamKey>) {
    Tracks(all, done, balances) && Saw(done, candidates, seen) && NoneNegative(all, done)
  }

  ghost predicate IsReplayOrder(all: seq<Fact>, sorted: seq<Fact>) {
    multiset(sorted) == multiset(all) && InOrder(sorted)
  }

  function Seen(seen: set<StreamKey>, candidates: seq<Fact>, f: Fact): set<StreamKey> {
    if f in candidates && f.asset.Some? then seen + {Key(f).value} else seen
  }

  lemma ReplayedMore(
    all: seq<Fact>, candidates: seq<Fact>, sorted: seq<Fact>, i: nat, balances: map<StreamKey, int>,
    seen: set<StreamKey>)
    requires WellFormed(all) && IsReplayOrder(all, sorted) && i < |sorted|
    requires Replayed(all, candidates, sorted[..i], balances, seen)
    requires forall c :: c in candidates ==> c in all
    ensures sorted[i] in all
    ensures !IsMove(sorted[i]) ==>
              Replayed(all, candidates, sorted[..i + 1], balances, Seen(seen, candidates, sorted[i]))
    ensures IsMove(sorted[i]) ==>
              var key := Key(sorted[i]).value;
              var next := BalanceIn(balances, key) + Signed(all, sorted[i]);
              && next == BalanceAt(all, sorted[i])
              && (next >= 0 ==> Replayed(all, candidates, sorted[..i + 1], balances[key := next],
                                         Seen(seen, candidates, sorted[i])))
              && (next < 0 ==> FirstNegative(all, sorted[i]))
              && (key in Seen(seen, candidates, sorted[i]) <==> AtOrAfterCandidate(candidates, sorted[i]))
  {
    SameMembers(all, sorted);
    var fact := sorted[i];
    assert fact in all;
    assert sorted[..i + 1] == sorted[..i] + [fact];
    SawMore(sorted[..i], candidates, seen, fact);
    TracksMore(all, sorted[..i], balances, fact);
    if IsMove(fact) {
      AtPrefix(all, sorted, i, Key(fact).value);
      SeenMeansAtOrAfter(all, sorted, candidates, i, Seen(seen, candidates, fact));
      if BalanceAt(all, fact) < 0 {
        FirstAtIndex(all, sorted, i);
      }
    }
  }

  function CandidateIds(candidates: seq<Fact>): set<nat> {
    set c | c in candidates :: c.id
  }

  function NextBalances(all: seq<Fact>, balances: map<StreamKey, int>, f: Fact): map<StreamKey, int>
    requires WellFormed(all) && f in all && IsMove(f)
  {
    balances[Key(f).value := BalanceIn(balances, Key(f).value) + Signed(all, f)]
  }

  function NextSeen(ids: set<nat>, seen: set<StreamKey>, f: Fact): set<StreamKey> {
    if f.asset.Some? && f.id in ids then seen + {Key(f).value} else seen
  }

  lemma NextInOrder(all: seq<Fact>, sorted: seq<Fact>, i: nat)
    requires IsReplayOrder(all, sorted) && i < |sorted|
    ensures sorted[i] in all
  {
    SameMembers(all, sorted);
  }

  /** The step of the loop that finds no violation. */
  lemma ReplayedNext(
    all: seq<Fact>, candidates: seq<Fact>, sorted: seq<Fact>, i: nat, balances: map<StreamKey, int>,
    seen: set<StreamKey>, balances': map<StreamKey, int>)
    requires WellFormed(all) && IsReplayOrder(all, sorted) && i < |sorted| && sorted[i] in all
    requires Replayed(all, candidates, sorted[..i], balances, seen)
    requires forall c :: c in candidates ==> c in all
    requires balances' == if IsMove(sorted[i]) then NextBalances(all, balances, sorted[i]) else balances
    requires IsMove(sorted[i]) ==> balances'[Key(sorted[i]).value] >= 0
    ensures Replayed(all, candidates, sorted[..i + 1], balances', NextSeen(CandidateIds(candidates), seen, sorted[i]))
  {
    CandidateIdentity(all, candidates, CandidateIds(candidates));
    ReplayedMore(all, candidates, sorted, i, balances, seen);
  }

  /** The step that finds one: it is the first, and the loop reports it as it is. */
  lemma FoundFirst(
    all: seq<Fact>, candidates: seq<Fact>, sorted: seq<Fact>, i: nat, balances: map<StreamKey, int>,
    seen: set<StreamKey>, next: int)
    requires WellFormed(all) && IsReplayOrder(all, sorted) && i < |sorted| && sorted[i] in all && IsMove(sorted[i])
    requires Replayed(all, candidates, sorted[..i], balances, seen)
    requires forall c :: c in candidates ==> c in all
    requires next == BalanceIn(balances, Key(sorted[i]).value) + Signed(all, sorted[i]) < 0
    ensures FirstNegative(all, sorted[i])
    ensures var f, ids := sorted[i], CandidateIds(candidates);
            ViolationAt(all, candidates, f)
            == Violation(f.id, f.sequence, f.id in ids, f.id !in ids && Key(f).value in NextSeen(ids, seen, f), next)
  {
    CandidateIdentity(all, candidates, CandidateIds(candidates));
    ReplayedMore(all, candidates, sorted, i, balances, seen);
  }

  lemma NothingFound(
    all: seq<Fact>, candidates: seq<Fact>, sorted: seq<Fact>, balances: map<StreamKey, int>, seen: set<StreamKey>)
    requires IsReplayOrder(all, sorted) && Replayed(all, candidates, sorted[..|sorted|], balances, seen)
    ensures NeverNegative(all)
  {
    assert sorted[..|sorted|] == sorted;
    SameMembers(all, sorted);
  }

  method CheckBalances(all: seq<Fact>, candidates: seq<Fact>, byId: map<nat, Fact>) returns (verdict: Verdict)
    requires WellFormed(all) && Indexes(byId, all) && forall c :: c in candidates ==> c in all
    ensures verdict.Clean? ==> NeverNegative(all)
    ensures !verdict.Malformed?
    ensures verdict.Insufficient? ==>
              exists f :: FirstNegative(all, f) && verdict.violation == ViolationAt(all, candidates, f)
  {
    var candidateIds := CandidateIds(candidates);
    var sorted := SortByPosition(all);
    SortInOrder(all);
    var balances: map<StreamKey, int> := map[];
    var seenCandidate: set<StreamKey> := {};
    for i := 0 to |sorted|
      invariant Replayed(all, candidates, sorted[..i], balances, seenCandidate)
    {
      var fact := sorted[i];
      NextInOrder(all, sorted, i);
      ghost var balancesBefore, seenBefore := balances, seenCandidate;
      if fact.asset.Some? {
        var key := StreamKey(fact.portfolio, fact.asset.value.id);
        if fact.id in candidateIds {
          seenCandidate := seenCandidate + {key};
        }
        if fact.quantity.Some? {
          var next := NextBalance(byId, all, BalanceIn(balances, key), fact);
          if next < 0 {
            FoundFirst(all, candidates, sorted, i, balances, seenBefore, next);
            return Insufficient(Violation(fact.id, fact.sequence, fact.id in candidateIds,
                                          fact.id !in candidateIds && key in seenCandidate, next));
          }
          balances := balances[key := next];
        }
      }
      ReplayedNext(all, candidates, sorted, i, balancesBefore, seenBefore, balances);
    }
    NothingFound(all, candidates, sorted, balances, seenCandidate);
    verdict := Clean;
  }

  lemma CandidateIdentity(all: seq<Fact>, candidates: seq<Fact>, candidateIds: set<nat>)
    requires UniqueIds(all) && (forall c :: c in candidates ==> c in all)
    requires candidateIds == CandidateIds(candidates)
    ensures forall f :: f in all ==> (f.id in candidateIds <==> f in candidates)
  {
  }

  /** The switch on the kind of a fact that carries a quantity. */
  function NextBalance(byId: map<nat, Fact>, ghost all: seq<Fact>, balance: int, fact: Fact): (next: int)
    requires WellFormed(all) && fact in all && IsMove(fact) && Indexes(byId, all)
    ensures next == balance + Signed(all, fact)
  {
    match fact.kind
    case Buy => balance + fact.quantity.value
    case Sell => balance - fact.quantity.value
    case Reversal =>
      assert HasOriginal(all, fact);
      assert ReversesBuy(all, fact) <==> byId[fact.reversalOf].kind.Buy?;
      if byId[fact.reversalOf].kind.Buy? then balance - fact.quantity.value else balance + fact.quantity.value
    case _ => balance
  }

  lemma TracksMore(all: seq<Fact>, done: seq<Fact>, balances: map<StreamKey, int>, f: Fact)
    requires Tracks(all, done, balances) && Rehydrates(f)
    ensures !IsMove(f) ==> Tracks(all, done + [f], balances)
    ensures IsMove(f) ==>
              Tracks(all, done + [f], balances[Key(f).value := BalanceIn(balances, Key(f).value) + Signed(all, f)])
  {
    var t := done + [f];
    assert t[..|t| - 1] == done;
    forall k ensures Running(all, t, k, Everything) == Running(all, done, k, Everything) + Term(all, f, k, Everything) {
    }
  }

  lemma SawMore(done: seq<Fact>, candidates: seq<Fact>, seen: set<StreamKey>, f: Fact)
    requires Saw(done, candidates, seen)
    ensures Saw(done + [f], candidates, Seen(seen, candidates, f))
  {
    var seen' := Seen(seen, candidates, f);
    assert f in done + [f];
    forall k ensures k in seen' <==> exists g :: g in done + [f] && g in candidates && Key(g) == Some(k) {
      if k in seen {
        var g :| g in done && g in candidates && Key(g) == Some(k);
        assert g in done + [f];
      }
    }
  }

  lemma AtPrefix(all: seq<Fact>, sorted: seq<Fact>, i: nat, k: StreamKey)
    requires WellFormed(all) && multiset(sorted) == multiset(all) && InOrder(sorted)
    requires i < |sorted| && Key(sorted[i]) == Some(k)
    ensures BalanceAt(all, sorted[i]) == Running(all, sorted[..i], k, Everything) + Signed(all, sorted[i])
  {
    PermutationInvariance(all, sorted);
    PrefixBalance(all, sorted, i, k);
    RunningPermuted(all, all, sorted, k, UpTo(Pos(sorted[i])));
    assert sorted[..i + 1][..i] == sorted[..i];
  }

  lemma FirstAtIndex(all: seq<Fact>, sorted: seq<Fact>, i: nat)
    requires multiset(sorted) == multiset(all) && InOrder(sorted)
    requires i < |sorted| && IsMove(sorted[i]) && BalanceAt(all, sorted[i]) < 0
    requires NoneNegative(all, sorted[..i])
    ensures FirstNegative(all, sorted[i])
  {
    SameMembers(all, sorted);
    assert sorted[i] in all;
    forall g | g in all && IsMove(g) && Before(Pos(g), Pos(sorted[i])) ensures BalanceAt(all, g) >= 0 {
      assert g in sorted;
      var j :| 0 <= j < |sorted| && sorted[j] == g;
      assert sorted[..i][j] == g;
    }
  }

  lemma SeenMeansAtOrAfter(all: seq<Fact>, sorted: seq<Fact>, candidates: seq<Fact>, i: nat, seen: set<StreamKey>)
    requires UniqueIds(all) && multiset(sorted) == multiset(all) && InOrder(sorted)
    requires (forall c :: c in candidates ==> c in all) && i < |sorted| && sorted[i].asset.Some?
    requires Saw(sorted[..i + 1], candidates, seen)
    ensures Key(sorted[i]).value in seen <==> AtOrAfterCandidate(candidates, sorted[i])
  {
    SameMembers(all, sorted);
    var f := sorted[i];
    if AtOrAfterCandidate(candidates, f) {
      var c :| c in candidates && c.asset.Some? && Key(c) == Key(f) && !Before(Pos(f), Pos(c));
      assert c in sorted;
      var j :| 0 <= j < |sorted| && sorted[j] == c;
      AtMostIndex(sorted, i, j);
      assert c in sorted[..i + 1];
    }
    if Key(f).value in seen {
      var c :| c in sorted[..i + 1] && c in candidates && Key(c) == Key(f);
      var j :| 0 <= j < i + 1 && sorted[j] == c;
      assert !Before(Pos(f), Pos(sorted[j]));
    }
  }

  lemma AtMostIndex(sorted: seq<Fact>, i: nat, j: nat)
    requires InOrder(sorted) && i < |sorted| && j < |sorted| && !Before(Pos(sorted[i]), Pos(sorted[j]))
    requires UniqueIds(sorted)
    ensures sorted[j] in sorted[..i + 1]
  {
    if j <= i {
      assert sorted[..i + 1][j] == sorted[j];
    } else {
      assert !Before(Pos(sorted[j]), Pos(sorted[i]));
      assert sorted[i] == sorted[j];
      assert sorted[..i + 1][i] == sorted[j];
    }
  }
}
