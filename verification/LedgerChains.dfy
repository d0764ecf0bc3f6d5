/** Correction chains: disjoint, linear, acyclic, each with exactly one live fact. */
module LedgerChains {
  import opened Wrappers
  import opened Facts
  import opened Balances
  import opened Corrections
  import opened LedgerBook
  import opened LedgerLaws

  predicate IsParent(parent: Fact, f: Fact) {
    f.correctionOf == parent.id && parent.sequence < f.sequence && !parent.kind.Reversal?
  }

  /** What the links of a reachable ledger look like. */
  ghost predicate Chained(facts: seq<Fact>) {
    && UniqueIds(facts)
    && (forall f :: f in facts ==> f.sequence > 0 && f.id != 0)
    && (forall f :: f in facts && f.correctionOf != 0 ==> exists p :: p in facts && IsParent(p, f))
    && (forall f, g :: f in facts && g in facts && f.correctionOf != 0 && f.correctionOf == g.correctionOf ==> f == g)
    && (forall f :: f in facts && f.kind.Reversal? ==> f.correctionOf == 0)
  }

  ghost predicate ReversedIffReplaced(facts: seq<Fact>) {
    forall f :: f in facts && !f.kind.Reversal? ==>
      (IsReversed(facts, f) <==> exists p :: p in facts && p.correctionOf == f.id)
  }

  lemma BooksAreChained(b: Book)
    requires Inv(b)
    ensures Chained(b.facts) && ReversedIffReplaced(b.facts)
  {
    forall f | f in b.facts && f.correctionOf != 0 ensures exists p :: p in b.facts && IsParent(p, f) {
      assert Explained(b.corrections, f);
      var c :| c in b.corrections && c.original == f.correctionOf && c.replacement == f.id;
      var o, r, p :| o in b.facts && r in b.facts && p in b.facts && Links(c, o, r, p);
      assert p == f && IsParent(o, f);
    }
    forall f, g | f in b.facts && g in b.facts && f.correctionOf != 0 && f.correctionOf == g.correctionOf
      ensures f == g {
      assert Explained(b.corrections, f) && Explained(b.corrections, g);
      var c :| c in b.corrections && c.original == f.correctionOf && c.replacement == f.id;
      var d :| d in b.corrections && d.original == g.correctionOf && d.replacement == g.id;
      assert c == d;
    }
    forall f | f in b.facts && !f.kind.Reversal?
      ensures IsReversed(b.facts, f) <==> exists p :: p in b.facts && p.correctionOf == f.id {
      ReversedMeansReplaced(b, f);
    }
  }

  lemma ReversedMeansReplaced(b: Book, f: Fact)
    requires UniqueIds(b.facts) && CorrectionsMatch(b.facts, b.corrections)
    requires f in b.facts && !f.kind.Reversal? && f.id != 0
    ensures IsReversed(b.facts, f) <==> exists p :: p in b.facts && p.correctionOf == f.id
    ensures IsReversed(b.facts, f) <==> DirectCorrection(b.corrections, f.id).Some?
  {
    if IsReversed(b.facts, f) {
      var r :| r in b.facts && r.kind.Reversal? && r.reversalOf == f.id;
      assert Explained(b.corrections, r);
    }
    if p :| p in b.facts && p.correctionOf == f.id {
      assert Explained(b.corrections, p);
    }
    var direct := DirectCorrection(b.corrections, f.id);
    if direct.Some? {
      assert LinkHolds(b.facts, direct.value);
      var o, r, p :| o in b.facts && r in b.facts && p in b.facts && Links(direct.value, o, r, p);
    }
  }

  /** In a reachable book exactly the live facts can be corrected; a reversal and a corrected fact are refused as
    * such. */
  lemma CorrectableIsLive(b: Book, f: Fact)
    requires Inv(b) && f in b.facts
    ensures var refusal := ValidateCorrectionTarget(f, DirectCorrection(b.corrections, f.id).Some?);
            && (refusal.None? <==> IsLive(b.facts, f))
            && (refusal == Some(NotCorrectable) <==> f.kind.Reversal?)
            && (refusal == Some(AlreadyCorrected) <==> !f.kind.Reversal? && IsReversed(b.facts, f))
  {
    assert f.id != 0;
    if !f.kind.Reversal? {
      ReversedMeansReplaced(b, f);
    }
  }

  ghost function Parent(facts: seq<Fact>, f: Fact): (p: Fact)
    requires Chained(facts) && f in facts && f.correctionOf != 0
    ensures p in facts && IsParent(p, f)
  {
    var p :| p in facts && IsParent(p, f);
    p
  }

  /** The creation a fact goes back to. */
  ghost function Root(facts: seq<Fact>, f: Fact): (root: Fact)
    requires Chained(facts) && f in facts
    ensures root in facts && root.correctionOf == 0 && root.sequence <= f.sequence
    ensures !f.kind.Reversal? ==> !root.kind.Reversal?
    decreases f.sequence
  {
    if f.correctionOf == 0 then f else Root(facts, Parent(facts, f))
  }

  ghost predicate IsAncestor(facts: seq<Fact>, x: Fact, y: Fact)
    requires Chained(facts) && y in facts
    decreases y.sequence
  {
    x == y || (y.correctionOf != 0 && IsAncestor(facts, x, Parent(facts, y)))
  }

  /** Facts with one root lie on one line, ordered by sequence. */
  lemma {:induction false} ChainsAreLinear(facts: seq<Fact>, x: Fact, y: Fact)
    requires Chained(facts) && x in facts && y in facts
    requires Root(facts, x) == Root(facts, y) && x.sequence <= y.sequence
    requires forall f, g :: f in facts && g in facts && f.sequence == g.sequence ==> f == g
    ensures IsAncestor(facts, x, y)
    decreases y.sequence, x.sequence
  {
    if x != y {
      assert x.sequence < y.sequence;
      var parent := Parent(facts, y);
      if x.sequence <= parent.sequence {
        ChainsAreLinear(facts, x, parent);
      } else {
        ChainsAreLinear(facts, parent, x);
        NextOnPath(facts, parent, x);
      }
    }
  }

  /** A proper ancestor has a replacement on the path. */
  lemma {:induction false} NextOnPath(facts: seq<Fact>, x: Fact, y: Fact)
    requires Chained(facts) && x in facts && y in facts && x != y && IsAncestor(facts, x, y)
    ensures exists next :: next in facts && next.correctionOf == x.id && next.sequence <= y.sequence
    decreases y.sequence
  {
    var parent := Parent(facts, y);
    if parent != x {
      NextOnPath(facts, x, parent);
    }
  }

  /** The live fact at the end of f's chain. */
  lemma {:induction false} LiveTip(facts: seq<Fact>, f: Fact) returns (tip: Fact)
    requires Chained(facts) && ReversedIffReplaced(facts) && f in facts && !f.kind.Reversal?
    requires forall g :: g in facts ==> g.sequence <= |facts|
    ensures IsLive(facts, tip) && Root(facts, tip) == Root(facts, f)
    decreases |facts| - f.sequence
  {
    if IsReversed(facts, f) {
      var next :| next in facts && next.correctionOf == f.id;
      assert Parent(facts, next) == f;
      tip := LiveTip(facts, next);
    } else {
      tip := f;
    }
  }

  /** Every chain has exactly one live fact, so live facts and creations correspond one to one. */
  lemma OneLiveFactPerChain(b: Book, f: Fact) returns (tip: Fact)
    requires Inv(b) && f in b.facts && !f.kind.Reversal?
    ensures Chained(b.facts) && IsLive(b.facts, tip) && Root(b.facts, tip) == Root(b.facts, f)
    ensures forall t :: IsLive(b.facts, t) && Root(b.facts, t) == Root(b.facts, f) ==> t == tip
  {
    BooksAreChained(b);
    SequencesAreDistinct(b);
    tip := LiveTip(b.facts, f);
    forall t | IsLive(b.facts, t) && Root(b.facts, t) == Root(b.facts, f) ensures t == tip {
      OnlyOneLive(b.facts, t, tip);
    }
  }

  lemma OnlyOneLive(facts: seq<Fact>, x: Fact, y: Fact)
    requires Chained(facts) && ReversedIffReplaced(facts) && IsLive(facts, x) && IsLive(facts, y)
    requires Root(facts, x) == Root(facts, y)
    requires forall f, g :: f in facts && g in facts && f.sequence == g.sequence ==> f == g
    ensures x == y
  {
    var low, high := if x.sequence <= y.sequence then x else y, if x.sequence <= y.sequence then y else x;
    ChainsAreLinear(facts, low, high);
    if low != high {
      NextOnPath(facts, low, high);
    }
  }

  lemma SequencesAreDistinct(b: Book)
    requires Sequenced(b.id, b.facts, b.nextSequence)
    ensures forall f, g :: f in b.facts && g in b.facts && f.sequence == g.sequence ==> f == g
    ensures forall g :: g in b.facts ==> 0 < g.sequence <= |b.facts|
  {
  }

  /** In a reachable book every balance is that of the uncorrected facts alone. */
  lemma ConservationInBooks(b: Book, live: seq<Fact>, k: StreamKey)
    requires Inv(b) && NoDuplicates(live)
    requires forall f :: f in live <==> f in b.facts && !f.kind.Reversal? && DirectCorrection(b.corrections, f.id).None?
    ensures Balance(b.facts, k, Everything) == Balance(live, k, Everything) >= 0
  {
    forall f ensures f in live <==> IsLive(b.facts, f) {
      if f in b.facts && !f.kind.Reversal? {
        ReversedMeansReplaced(b, f);
      }
    }
    Conservation(b.facts, live, k);
    SoundAtEveryInstant(b.facts, k, Everything);
  }
}
