/** Running balances of asset streams, defined without sorting.
  *
  * A balance at a cutoff is the signed sum over all facts of the stream at or before that cutoff, in
  * whatever order the facts are listed. The order-free definition is what the replay is checked
  * against.
  */
module Balances {
  import opened Wrappers
  import opened Facts

  datatype Cutoff = UpTo(position: Position) | Everything

  predicate Included(f: Fact, c: Cutoff) {
    c.Everything? || !Before(c.position, Pos(f))
  }

  function QuantityOf(f: Fact): int {
    if f.quantity.Some? then f.quantity.value else 0
  }

  predicate ReversesBuy(facts: seq<Fact>, f: Fact) {
    exists o :: o in facts && o.id == f.reversalOf && o.kind.Buy?
  }

  /** What a fact adds to its stream; a reversal undoes the fact it points to. */
  function Signed(facts: seq<Fact>, f: Fact): int {
    match f.kind
    case Buy => QuantityOf(f)
    case Sell => -QuantityOf(f)
    case Reversal => if ReversesBuy(facts, f) then -QuantityOf(f) else QuantityOf(f)
    case _ => 0
  }

  function Term(facts: seq<Fact>, f: Fact, k: StreamKey, c: Cutoff): int {
    if Key(f) == Some(k) && Included(f, c) then Signed(facts, f) else 0
  }

  /** The balance of stream k over s at cutoff c; reversals are resolved in `facts`. */
  function Running(facts: seq<Fact>, s: seq<Fact>, k: StreamKey, c: Cutoff): int {
    if s == [] then 0
    else Running(facts, s[..|s| - 1], k, c) + Term(facts, s[|s| - 1], k, c)
  }

  function Balance(facts: seq<Fact>, k: StreamKey, c: Cutoff): int {
    Running(facts, facts, k, c)
  }

  // ----- Well-formed and sound ledgers -----

  ghost predicate NoDuplicates<T>(s: seq<T>) {
    forall i, j :: 0 <= i < j < |s| ==> s[i] != s[j]
  }

  predicate SameFinancialDimensions(a: Fact, b: Fact) {
    && a.asset == b.asset && a.quantity == b.quantity && a.unitPrice == b.unitPrice
    && a.fee == b.fee && a.amount == b.amount && a.currency == b.currency
  }

  predicate IsOriginalOf(o: Fact, r: Fact) {
    && o.id == r.reversalOf && !o.kind.Reversal? && o.portfolio == r.portfolio
    && SameFinancialDimensions(o, r) && o.effectiveAt == r.effectiveAt
  }

  predicate HasOriginal(facts: seq<Fact>, r: Fact) {
    exists o :: o in facts && IsOriginalOf(o, r)
  }

  ghost predicate UniqueIds(s: seq<Fact>) {
    forall f, g :: f in s && g in s && f.id == g.id ==> f == g
  }

  ghost predicate UniqueSequences(s: seq<Fact>) {
    forall f, g :: f in s && g in s && f.portfolio == g.portfolio && f.sequence == g.sequence ==> f == g
  }

  ghost predicate ReversedOnce(s: seq<Fact>) {
    forall f, g :: f in s && g in s && f.kind.Reversal? && g.kind.Reversal? && f.reversalOf == g.reversalOf ==> f == g
  }

  ghost predicate WellFormed(s: seq<Fact>) {
    && NoDuplicates(s) && UniqueIds(s) && UniqueSequences(s) && ReversedOnce(s)
    && (forall f :: f in s ==> Rehydrates(f))
    && (forall f :: f in s && f.kind.Reversal? ==> HasOriginal(s, f))
  }

  function BalanceAt(s: seq<Fact>, f: Fact): int
    requires f.asset.Some?
  {
    Balance(s, StreamKey(f.portfolio, f.asset.value.id), UpTo(Pos(f)))
  }

  predicate IsMove(f: Fact) {
    f.asset.Some? && f.quantity.Some?
  }

  ghost predicate NeverNegative(s: seq<Fact>) {
    forall f :: f in s && IsMove(f) ==> BalanceAt(s, f) >= 0
  }

  /** The reference meaning of a ledger that replays cleanly. */
  ghost predicate Sound(s: seq<Fact>) {
    WellFormed(s) && NeverNegative(s)
  }

  /** f is the first fact, in replay order over all streams, that leaves its stream negative. */
  ghost predicate FirstNegative(s: seq<Fact>, f: Fact) {
    && f in s && IsMove(f) && BalanceAt(s, f) < 0
    && forall g :: g in s && IsMove(g) && Before(Pos(g), Pos(f)) ==> BalanceAt(s, g) >= 0
  }

  // ----- The replay order is a strict total order on facts with distinct ids -----

  lemma FirstNegativeIsUnique(s: seq<Fact>, f: Fact, g: Fact)
    requires WellFormed(s) && FirstNegative(s, f) && FirstNegative(s, g)
    ensures f == g
  {
    assert Before(Pos(f), Pos(g)) || Before(Pos(g), Pos(f)) || f.id == g.id;
  }

  // ----- Sums -----

  lemma {:induction false} RunningConcat(facts: seq<Fact>, a: seq<Fact>, b: seq<Fact>, k: StreamKey, c: Cutoff)
    ensures Running(facts, a + b, k, c) == Running(facts, a, k, c) + Running(facts, b, k, c)
  {
    if b == [] {
      assert a + b == a;
    } else {
      var front := b[..|b| - 1];
      assert (a + b)[..|a + b| - 1] == a + front;
      RunningConcat(facts, a, front, k, c);
    }
  }

  lemma RunningRemove(facts: seq<Fact>, s: seq<Fact>, i: nat, k: StreamKey, c: Cutoff)
    requires i < |s|
    ensures Running(facts, s, k, c) == Running(facts, Dropping(s, i), k, c) + Term(facts, s[i], k, c)
  {
    assert s == s[..i] + [s[i]] + s[i + 1..];
    RunningConcat(facts, s[..i] + [s[i]], s[i + 1..], k, c);
    RunningConcat(facts, s[..i], [s[i]], k, c);
    RunningConcat(facts, s[..i], s[i + 1..], k, c);
    assert Running(facts, [s[i]], k, c) == Term(facts, s[i], k, c);
  }

  function Dropping<T>(s: seq<T>, i: nat): seq<T>
    requires i < |s|
  {
    s[..i] + s[i + 1..]
  }

  lemma MultisetDropping<T>(s: seq<T>, i: nat)
    requires i < |s|
    ensures multiset(Dropping(s, i)) == multiset(s) - multiset{s[i]}
  {
    assert s == s[..i] + [s[i]] + s[i + 1..];
  }

  /** Listing the facts in another order changes no balance. */
  lemma {:induction false} RunningPermuted(facts: seq<Fact>, s: seq<Fact>, t: seq<Fact>, k: StreamKey, c: Cutoff)
    requires multiset(s) == multiset(t)
    ensures Running(facts, s, k, c) == Running(facts, t, k, c)
    decreases |s|
  {
    if s == [] {
      assert |multiset(t)| == 0;
    } else {
      var i := IndexIn(s, t, 0);
      RunningRemove(facts, s, 0, k, c);
      RunningRemove(facts, t, i, k, c);
      MultisetDropping(s, 0);
      MultisetDropping(t, i);
      RunningPermuted(facts, Dropping(s, 0), Dropping(t, i), k, c);
    }
  }

  lemma IndexIn<T>(s: seq<T>, t: seq<T>, i: nat) returns (j: nat)
    requires multiset(s) == multiset(t) && i < |s|
    ensures j < |t| && t[j] == s[i]
  {
    assert s[i] in multiset(t);
    j :| 0 <= j < |t| && t[j] == s[i];
  }

  /** A balance depends on the surrounding facts only through its terms. */
  lemma {:induction false} RunningAgrees(
    facts: seq<Fact>, facts': seq<Fact>, s: seq<Fact>, k: StreamKey, c: Cutoff, c': Cutoff)
    requires forall f :: f in s ==> Term(facts, f, k, c) == Term(facts', f, k, c')
    ensures Running(facts, s, k, c) == Running(facts', s, k, c')
  {
    if s != [] {
      RunningAgrees(facts, facts', s[..|s| - 1], k, c, c');
    }
  }

  lemma {:induction false} RunningOfZeros(facts: seq<Fact>, s: seq<Fact>, k: StreamKey, c: Cutoff)
    requires forall f :: f in s ==> Term(facts, f, k, c) == 0
    ensures Running(facts, s, k, c) == 0
  {
    if s != [] {
      RunningOfZeros(facts, s[..|s| - 1], k, c);
    }
  }

  lemma Without<T>(s: seq<T>, i: nat)
    requires i < |s| && NoDuplicates(s)
    ensures NoDuplicates(Dropping(s, i))
    ensures forall x :: x in Dropping(s, i) <==> x in s && x != s[i]
  {
    var t := Dropping(s, i);
    forall x | x in s && x != s[i] ensures x in t {
      var j :| 0 <= j < |s| && s[j] == x;
      assert t[if j < i then j else j - 1] == x;
    }
  }

  lemma {:induction false} SameElementsSameMultiset<T>(s: seq<T>, t: seq<T>)
    requires NoDuplicates(s) && NoDuplicates(t)
    requires forall x :: x in s <==> x in t
    ensures multiset(s) == multiset(t)
    decreases |s|
  {
    if s == [] {
      assert forall x :: x in multiset(t) ==> x in t;
    } else {
      assert s[0] in t;
      var i :| 0 <= i < |t| && t[i] == s[0];
      Without(s, 0);
      Without(t, i);
      SameElementsSameMultiset(Dropping(s, 0), Dropping(t, i));
      MultisetPlus(s, 0);
      MultisetPlus(t, i);
    }
  }

  lemma MultisetPlus<T>(s: seq<T>, i: nat)
    requires i < |s|
    ensures multiset(s) == multiset(Dropping(s, i)) + multiset{s[i]}
  {
    assert s == s[..i] + [s[i]] + s[i + 1..];
  }

  lemma SignedAgrees(facts: seq<Fact>, facts': seq<Fact>, f: Fact)
    requires f.kind.Reversal? ==> forall o: Fact :: o.id == f.reversalOf && o.kind.Buy? ==>
               (o in facts <==> o in facts')
    ensures Signed(facts, f) == Signed(facts', f)
  {
  }

  /** Soundness and the first violation do not depend on the order in which facts are listed. */
  lemma PermutationInvariance(s: seq<Fact>, t: seq<Fact>)
    requires multiset(s) == multiset(t)
    ensures WellFormed(s) <==> WellFormed(t)
    ensures NeverNegative(s) <==> NeverNegative(t)
    ensures Sound(s) <==> Sound(t)
    ensures forall f :: FirstNegative(s, f) <==> FirstNegative(t, f)
    ensures forall k, c :: Balance(s, k, c) == Balance(t, k, c)
  {
    SameMembers(s, t);
    NoDuplicatesPermuted(s, t);
    NoDuplicatesPermuted(t, s);
    forall k, c ensures Balance(s, k, c) == Balance(t, k, c) {
      RunningPermuted(s, s, t, k, c);
      forall f | f in t ensures Term(s, f, k, c) == Term(t, f, k, c) { SignedAgrees(s, t, f); }
      RunningAgrees(s, t, t, k, c, c);
    }
    forall f ensures HasOriginal(s, f) <==> HasOriginal(t, f) {
    }
  }

  lemma SameMembers<T>(s: seq<T>, t: seq<T>)
    requires multiset(s) == multiset(t)
    ensures forall x :: x in s <==> x in t
  {
    forall x ensures x in s <==> x in t {
      assert x in s <==> x in multiset(s);
      assert x in t <==> x in multiset(t);
    }
  }

  lemma NoDuplicatesPermuted<T>(s: seq<T>, t: seq<T>)
    requires multiset(s) == multiset(t)
    ensures NoDuplicates(s) ==> NoDuplicates(t)
  {
    if NoDuplicates(s) {
      forall i, j | 0 <= i < j < |t| ensures t[i] != t[j] {
        if t[i] == t[j] {
          CountOfRepeated(t, i, j);
          CountWithoutRepeats(s, t[i]);
        }
      }
    }
  }

  lemma CountOfRepeated<T>(t: seq<T>, i: nat, j: nat)
    requires i < j < |t| && t[i] == t[j]
    ensures multiset(t)[t[i]] >= 2
  {
    assert t == t[..j] + [t[j]] + t[j + 1..];
    assert t[i] in t[..j];
  }

  lemma {:induction false} CountWithoutRepeats<T>(s: seq<T>, x: T)
    requires NoDuplicates(s)
    ensures multiset(s)[x] <= 1
  {
    if s != [] {
      var front := s[..|s| - 1];
      assert s == front + [s[|s| - 1]];
      CountWithoutRepeats(front, x);
      if s[|s| - 1] == x { assert x !in front; }
    }
  }
}
