/** Keyset pagination: one page, and a walk along Next while the ledger grows. */
module Paging {
  import opened Wrappers
  import opened Facts
  import opened Balances
  import opened Corrections
  import opened Commands
  import opened Replay
  import opened LedgerBook
  import LedgerRuns

  const DEFAULT_LIMIT := 50
  const MAX_LIMIT := 100

  datatype HistoryInput = HistoryInput(
    kind: Option<Kind>, from: Option<Instant>, until: Option<Instant>, includeReversals: Option<bool>,
    after: Option<Position>, limit: int)

  datatype Record = Record(fact: Fact, direct: Option<Correction>)

  datatype History = History(records: seq<Record>, next: Option<Position>)

  /** The filters of the query; reversals are included unless the caller says otherwise. */
  predicate Matches(input: HistoryInput, f: Fact) {
    && (input.kind.Some? ==> f.kind == input.kind.value)
    && (input.from.Some? ==> input.from.value <= f.effectiveAt)
    && (input.until.Some? ==> f.effectiveAt <= input.until.value)
    && (input.includeReversals == Some(false) ==> !f.kind.Reversal?)
  }

  predicate Beyond(after: Option<Position>, f: Fact) {
    after.Some? ==> Before(Pos(f), after.value)
  }

  predicate Eligible(facts: seq<Fact>, input: HistoryInput, after: Option<Position>, f: Fact) {
    f in facts && Matches(input, f) && Beyond(after, f)
  }

  ghost predicate Descending(rows: seq<Fact>) {
    forall i, j :: 0 <= i < j < |rows| ==> Before(Pos(rows[j]), Pos(rows[i]))
  }

  /** The newest `limit` eligible rows, newest first. */
  ghost predicate IsSelection(
    facts: seq<Fact>, input: HistoryInput, after: Option<Position>, limit: nat, rows: seq<Fact>) {
    && Descending(rows) && |rows| <= limit
    && (forall f :: f in rows ==> Eligible(facts, input, after, f))
    && (forall f :: Eligible(facts, input, after, f) && f !in rows ==>
          |rows| == limit && forall r :: r in rows ==> Before(Pos(f), Pos(r)))
  }

  /** The query, by one pass over the rows in descending order. */
  method SelectPage(facts: seq<Fact>, input: HistoryInput, after: Option<Position>, limit: nat)
    returns (rows: seq<Fact>)
    requires UniqueIds(facts) && NoDuplicates(facts)
    ensures IsSelection(facts, input, after, limit, rows)
  {
    var sorted := SortByPosition(facts);
    SortInOrder(facts);
    SameMembers(facts, sorted);
    NoDuplicatesPermuted(facts, sorted);
    rows := [];
    var i := |sorted|;
    while i > 0 && |rows| < limit
      invariant 0 <= i <= |sorted| && |rows| <= limit && SelectedFrom(facts, sorted, input, after, i, rows)
    {
      i := i - 1;
      var f := sorted[i];
      OneMoreRow(facts, sorted, input, after, i, rows);
      if Matches(input, f) && Beyond(after, f) {
        rows := rows + [f];
      }
    }
    RowsAreSelection(facts, sorted, input, after, limit, i, rows);
  }

  /** The eligible rows from position i on, newest first. */
  ghost predicate SelectedFrom(
    facts: seq<Fact>, sorted: seq<Fact>, input: HistoryInput, after: Option<Position>, i: nat, rows: seq<Fact>)
    requires i <= |sorted|
  {
    && Descending(rows)
    && (forall f :: f in rows ==> Eligible(facts, input, after, f) && f in sorted[i..])
    && (forall f :: f in sorted[i..] && Eligible(facts, input, after, f) ==> f in rows)
  }

  lemma OneMoreRow(
    facts: seq<Fact>, sorted: seq<Fact>, input: HistoryInput, after: Option<Position>, i: nat, rows: seq<Fact>)
    requires i < |sorted| && InOrder(sorted) && UniqueIds(sorted) && NoDuplicates(sorted) && sorted[i] in facts
    requires SelectedFrom(facts, sorted, input, after, i + 1, rows)
    ensures SelectedFrom(facts, sorted, input, after, i,
                         if Matches(input, sorted[i]) && Beyond(after, sorted[i]) then rows + [sorted[i]] else rows)
  {
    LaterInOrder(sorted, i);
    DescendsMore(rows, sorted[i]);
    forall f ensures f in sorted[i..] <==> f == sorted[i] || f in sorted[i + 1..] {
      assert sorted[i..] == [sorted[i]] + sorted[i + 1..];
    }
  }

  lemma DescendsMore(rows: seq<Fact>, f: Fact)
    requires Descending(rows) && forall r :: r in rows ==> Before(Pos(f), Pos(r))
    ensures Descending(rows + [f])
  {
  }

  lemma RowsAreSelection(
    facts: seq<Fact>, sorted: seq<Fact>, input: HistoryInput, after: Option<Position>, limit: nat, i: nat,
    rows: seq<Fact>)
    requires i <= |sorted| && InOrder(sorted) && UniqueIds(sorted) && NoDuplicates(sorted)
    requires (forall f :: f in facts <==> f in sorted) && |rows| <= limit && (i == 0 || |rows| == limit)
    requires SelectedFrom(facts, sorted, input, after, i, rows)
    ensures IsSelection(facts, input, after, limit, rows)
  {
    forall f | Eligible(facts, input, after, f) && f !in rows
      ensures |rows| == limit && forall r :: r in rows ==> Before(Pos(f), Pos(r))
    {
      assert f in sorted;
      EarlierInOrder(sorted, i, f);
    }
  }

  lemma LaterInOrder(sorted: seq<Fact>, i: nat)
    requires i < |sorted| && InOrder(sorted) && UniqueIds(sorted) && NoDuplicates(sorted)
    ensures forall f :: f in sorted[i + 1..] ==> Before(Pos(sorted[i]), Pos(f))
  {
    forall f | f in sorted[i + 1..] ensures Before(Pos(sorted[i]), Pos(f)) {
      var j :| i < j < |sorted| && sorted[j] == f;
      assert !Before(Pos(sorted[j]), Pos(sorted[i])) && sorted[j].id != sorted[i].id;
    }
  }

  lemma EarlierInOrder(sorted: seq<Fact>, i: nat, f: Fact)
    requires i <= |sorted| && InOrder(sorted) && UniqueIds(sorted) && NoDuplicates(sorted)
    requires f in sorted && f !in sorted[i..]
    ensures i > 0 && forall r :: r in sorted[i..] ==> Before(Pos(f), Pos(r))
  {
    var j :| 0 <= j < |sorted| && sorted[j] == f;
    forall k | i <= k < |sorted| ensures sorted[k] in sorted[i..] {
      assert sorted[i..][k - i] == sorted[k];
    }
    assert j < i;
    LaterInOrder(sorted, j);
    forall r | r in sorted[i..] ensures Before(Pos(f), Pos(r)) {
      var k :| i <= k < |sorted| && sorted[k] == r;
      assert sorted[j + 1..][k - j - 1] == r;
    }
  }

  // ----- One request -----

  predicate ValidHistoryTime(t: Option<Instant>) {
    t.Some? ==> IsWholeMicrosecond(t.value)
  }

  function EffectiveLimit(input: HistoryInput): int {
    if input.limit == 0 then DEFAULT_LIMIT else input.limit
  }

  predicate ValidInput(input: HistoryInput) {
    && 1 <= EffectiveLimit(input) <= MAX_LIMIT
    && ValidHistoryTime(input.from) && ValidHistoryTime(input.until)
    && (input.from.Some? && input.until.Some? ==> input.from.value <= input.until.value)
    && (input.after.Some? ==>
        IsWholeMicrosecond(input.after.value.at) && input.after.value.sequence >= 1 && input.after.value.id != 0)
  }

  function FactsOf(records: seq<Record>): (facts: seq<Fact>)
    ensures |facts| == |records| && forall i :: 0 <= i < |records| ==> facts[i] == records[i].fact
  {
    seq(|records|, i requires 0 <= i < |records| => records[i].fact)
  }

  /** One page: Next is present exactly when more rows remain, and it is the last row shown. */
  ghost predicate IsPage(
    facts: seq<Fact>, input: HistoryInput, after: Option<Position>, limit: nat, rows: seq<Fact>,
    next: Option<Position>) {
    && IsSelection(facts, input, after, limit, rows)
    && (next.Some? <==> exists f :: Eligible(facts, input, after, f) && f !in rows)
    && (next.Some? ==> rows != [] && next.value == Pos(rows[|rows| - 1]))
  }

  lemma PageOfSelection(facts: seq<Fact>, input: HistoryInput, after: Option<Position>, limit: nat, rows: seq<Fact>)
    requires limit >= 1 && IsSelection(facts, input, after, limit + 1, rows)
    ensures |rows| > limit ==> IsPage(facts, input, after, limit, rows[..limit], Some(Pos(rows[limit - 1])))
    ensures |rows| <= limit ==> IsPage(facts, input, after, limit, rows, None)
  {
    if |rows| > limit {
      var shown, extra := rows[..limit], rows[limit];
      assert rows == shown + [extra];
      forall f | Eligible(facts, input, after, f) && f !in shown
        ensures forall r :: r in shown ==> Before(Pos(f), Pos(r)) {
        assert f in rows ==> f == extra;
        assert forall r :: r in shown ==> Before(Pos(extra), Pos(r));
      }
      assert extra in rows && Before(Pos(extra), Pos(rows[limit - 1]));
      assert forall r :: r in shown ==> Before(Pos(extra), Pos(r));
      assert !Before(Pos(extra), Pos(extra));
    }
  }

  /** Further down the listing: by effective time, then sequence, then id. */
  predicate IsBelow(f: Fact, at: Instant, sequence: int, id: nat) {
    || f.effectiveAt < at
    || (f.effectiveAt == at && f.sequence < sequence)
    || (f.effectiveAt == at && f.sequence == sequence && f.id < id)
  }

  /** A page, clause by clause: only what was asked for, in order, nothing skipped. */
  lemma PageIsAsAsked(
    facts: seq<Fact>, input: HistoryInput, after: Option<Position>, limit: nat, rows: seq<Fact>, next: Option<Position>)
    requires IsPage(facts, input, after, limit, rows, next)
    ensures |rows| <= limit && forall f :: f in rows ==> f in facts
    ensures input.kind.Some? ==> forall f :: f in rows ==> f.kind == input.kind.value
    ensures input.from.Some? ==> forall f :: f in rows ==> input.from.value <= f.effectiveAt
    ensures input.until.Some? ==> forall f :: f in rows ==> f.effectiveAt <= input.until.value
    ensures input.includeReversals == Some(false) ==> forall f :: f in rows ==> !f.kind.Reversal?
    ensures after.Some? ==> forall f :: f in rows ==> IsBelow(f, after.value.at, after.value.sequence, after.value.id)
    ensures forall i, j :: 0 <= i < j < |rows| ==>
              IsBelow(rows[j], rows[i].effectiveAt, rows[i].sequence, rows[i].id)
    ensures forall f ::
              && f in facts && f !in rows
              && (input.kind.Some? ==> f.kind == input.kind.value)
              && (input.from.Some? ==> input.from.value <= f.effectiveAt)
              && (input.until.Some? ==> f.effectiveAt <= input.until.value)
              && (f.kind.Reversal? ==> input.includeReversals != Some(false))
              && (after.Some? ==> IsBelow(f, after.value.at, after.value.sequence, after.value.id)) ==>
              |rows| == limit && next.Some? && IsBelow(f, next.value.at, next.value.sequence, next.value.id)
    ensures next.Some? ==>
              && |rows| == limit > 0
              && var last := rows[limit - 1];
                 next.value.at == last.effectiveAt && next.value.sequence == last.sequence && next.value.id == last.id
  {
    forall f | f in rows ensures Matches(input, f) && Beyond(after, f) {
      assert Eligible(facts, input, after, f);
    }
    forall f | f in facts && Matches(input, f) && Beyond(after, f) && f !in rows
      ensures |rows| == limit && next.Some? && Before(Pos(f), next.value)
    {
      assert Eligible(facts, input, after, f);
      assert rows[|rows| - 1] in rows;
    }
  }

  /** Each record's direct correction is read by a statement of its own; the one for record i finds seen(i). */
  method WithCorrections(facts: seq<Fact>, seen: nat -> seq<Correction>) returns (records: seq<Record>)
    ensures FactsOf(records) == facts
    ensures forall i :: 0 <= i < |records| ==> records[i].direct == DirectCorrection(seen(i), records[i].fact.id)
  {
    records := [];
    for i := 0 to |facts|
      invariant |records| == i
      invariant forall j :: 0 <= j < i ==> records[j] == Record(facts[j], DirectCorrection(seen(j), facts[j].id))
    {
      records := records + [Record(facts[i], DirectCorrection(seen(i), facts[i].id))];
    }
    assert FactsOf(records) == facts;
  }

  /** One page of book b; while it is put together others may commit, so record i is completed from book later(i). */
  method List(b: Book, later: nat -> Book, principal: nat, portfolio: nat, input: HistoryInput)
    returns (history: Result<History, Rejection>)
    requires Inv(b)
    ensures history.Success? <==>
              && principal != 0 && portfolio == b.id && b.owner == principal
              && 0 <= input.limit <= 100
              && (input.from.Some? ==> input.from.value != 0 && input.from.value % 1000 == 0)
              && (input.until.Some? ==> input.until.value != 0 && input.until.value % 1000 == 0)
              && (input.from.Some? && input.until.Some? ==> input.from.value <= input.until.value)
              && (input.after.Some? ==>
                  && input.after.value.at != 0 && input.after.value.at % 1000 == 0
                  && input.after.value.sequence > 0 && input.after.value.id > 0)
    ensures history.Failure? ==>
              history.error == if principal == 0 then Unauthenticated
                               else if portfolio != b.id || b.owner != principal then PortfolioNotFound
                               else InvalidInput
    ensures history.Success? ==>
              && IsPage(b.facts, input, input.after, if input.limit == 0 then 50 else input.limit,
                        FactsOf(history.value.records), history.value.next)
              && forall i :: 0 <= i < |history.value.records| ==>
                   history.value.records[i].direct
                     == DirectCorrection(later(i).corrections, history.value.records[i].fact.id)
  {
    if principal == 0 {
      return Failure(Unauthenticated);
    }
    if portfolio == 0 || portfolio != b.id || b.owner != principal {
      return Failure(PortfolioNotFound);
    }
    var limit := EffectiveLimit(input);
    if !ValidInput(input) {
      return Failure(InvalidInput);
    }
    var facts := SelectPage(b.facts, input, input.after, limit + 1);
    PageOfSelection(b.facts, input, input.after, limit, facts);
    var next: Option<Position> := None;
    if |facts| > limit {
      facts := facts[..limit];
      next := Some(Pos(facts[limit - 1]));
    }
    var records := WithCorrections(facts, (i: nat) => later(i).corrections);
    history := Success(History(records, next));
  }

  /** A correction read later is the one the page's own moment had, or one whose facts came after that moment. */
  lemma LaterReadsAgree(b: Book, later: Book, f: Fact)
    requires Inv(b) && Inv(later) && LedgerRuns.Extends(b, later) && f in b.facts
    ensures var direct, seen := DirectCorrection(b.corrections, f.id), DirectCorrection(later.corrections, f.id);
            if direct.Some? then seen == direct else seen.Some? ==> MadeAfter(b, later, seen.value)
  {
    var seen := DirectCorrection(later.corrections, f.id);
    if DirectCorrection(b.corrections, f.id).Some? {
      FirstOfPrefix(b.corrections, later.corrections, f.id);
    } else if seen.Some? {
      assert LinkHolds(later.facts, seen.value);
      var o, r, p :| o in later.facts && r in later.facts && p in later.facts && Links(seen.value, o, r, p);
      NewIfUnexplained(b, later, r, f.id);
      NewIfUnexplained(b, later, p, f.id);
    }
  }

  predicate MadeAfter(b: Book, later: Book, c: Correction) {
    exists r, p ::
      r in later.facts && p in later.facts && r.id == c.reversal && p.id == c.replacement
      && b.nextSequence <= r.sequence && b.nextSequence <= p.sequence
  }

  lemma NewIfUnexplained(b: Book, later: Book, f: Fact, original: nat)
    requires Inv(b) && Inv(later) && LedgerRuns.Extends(b, later) && f in later.facts && original != 0
    requires DirectCorrection(b.corrections, original).None?
    requires (f.kind.Reversal? && f.reversalOf == original) || f.correctionOf == original
    ensures b.nextSequence <= f.sequence
  {
    OldOrNew(b, later, f);
    OldIsExplained(b, f, original);
  }

  lemma OldOrNew(b: Book, later: Book, f: Fact)
    requires Inv(b) && Inv(later) && LedgerRuns.Extends(b, later) && f in later.facts
    ensures f in b.facts || b.nextSequence <= f.sequence
  {
    var i :| 0 <= i < |later.facts| && later.facts[i] == f;
    if i < |b.facts| {
      assert b.facts[i] == f;
    }
  }

  lemma OldIsExplained(b: Book, f: Fact, original: nat)
    requires Inv(b) && original != 0
    requires (f.kind.Reversal? && f.reversalOf == original) || f.correctionOf == original
    ensures f in b.facts ==> DirectCorrection(b.corrections, original).Some?
  {
    if f in b.facts {
      assert Explained(b.corrections, f);
    }
  }

  lemma {:induction false} FirstOfPrefix(corrections: seq<Correction>, more: seq<Correction>, id: nat)
    requires corrections <= more && DirectCorrection(corrections, id).Some?
    ensures DirectCorrection(more, id) == DirectCorrection(corrections, id)
  {
    if corrections[0].original != id {
      assert corrections[1..] <= more[1..];
      FirstOfPrefix(corrections[1..], more[1..], id);
    }
  }

  // ----- Walking along Next -----

  datatype Page = Page(ledger: seq<Fact>, rows: seq<Fact>, next: Option<Position>)

  /** Each page is read from the ledger of its moment, which only grows, and starts where the last one ended. */
  ghost predicate Walk(pages: seq<Page>, input: HistoryInput, limit: nat) {
    forall i :: 0 <= i < |pages| ==> PageOk(pages, input, limit, i)
  }

  ghost predicate PageOk(pages: seq<Page>, input: HistoryInput, limit: nat, i: nat)
    requires i < |pages|
  {
    && IsPage(pages[i].ledger, input, if i == 0 then input.after else pages[i - 1].next, limit, pages[i].rows,
              pages[i].next)
    && (i > 0 ==> pages[i - 1].next.Some? && Grows(pages[i - 1].ledger, pages[i].ledger))
  }

  predicate Grows(ledger: seq<Fact>, ledger': seq<Fact>) {
    forall f :: f in ledger ==> f in ledger'
  }

  /** Commands and archivals between two pages only add facts. */
  lemma RunsGrow(b: Book, steps: seq<LedgerRuns.Step>)
    ensures Grows(b.facts, LedgerRuns.AfterAll(b, steps).facts)
  {
    LedgerRuns.RunsExtend(b, steps);
    var later := LedgerRuns.AfterAll(b, steps).facts;
    forall f | f in b.facts ensures f in later {
      var i :| 0 <= i < |b.facts| && b.facts[i] == f;
      assert later[i] == f;
    }
  }

  function Shown(pages: seq<Page>): seq<Fact> {
    if pages == [] then [] else Shown(pages[..|pages| - 1]) + pages[|pages| - 1].rows
  }

  lemma WalkPrefix(pages: seq<Page>, input: HistoryInput, limit: nat)
    requires Walk(pages, input, limit) && pages != []
    ensures Walk(pages[..|pages| - 1], input, limit)
  {
    var front := pages[..|pages| - 1];
    forall i | 0 <= i < |front| ensures PageOk(front, input, limit, i) {
      assert PageOk(pages, input, limit, i);
    }
  }

  ghost predicate AtOrAbove(shown: seq<Fact>, next: Option<Position>) {
    next.Some? ==>
      && (forall f :: f in shown ==> !Before(Pos(f), next.value))
      && (exists f :: f in shown && Pos(f) == next.value)
  }

  /** Everything of the first ledger down to `next` has been shown. */
  ghost predicate ShownDownTo(first: seq<Fact>, input: HistoryInput, shown: seq<Fact>, next: Option<Position>) {
    forall f :: Eligible(first, input, input.after, f) && (next.Some? ==> !Before(Pos(f), next.value)) ==> f in shown
  }

  /** Where the walk stands after some pages. */
  ghost predicate Reached(
    first: seq<Fact>, last: seq<Fact>, input: HistoryInput, shown: seq<Fact>, next: Option<Position>) {
    && Descending(shown) && (forall f :: f in shown ==> Eligible(last, input, input.after, f))
    && AtOrAbove(shown, next) && ShownDownTo(first, input, shown, next)
  }

  lemma LastIsLowest(rows: seq<Fact>)
    requires Descending(rows) && rows != []
    ensures AtOrAbove(rows, Some(Pos(rows[|rows| - 1])))
  {
    var n := |rows| - 1;
    assert rows[n] in rows;
    forall f | f in rows ensures !Before(Pos(f), Pos(rows[n])) {
      var i :| 0 <= i < |rows| && rows[i] == f;
      assert i < n ==> Before(Pos(rows[n]), Pos(rows[i]));
    }
  }

  lemma FirstPageReached(page: Page, input: HistoryInput, limit: nat)
    requires IsPage(page.ledger, input, input.after, limit, page.rows, page.next)
    ensures Reached(page.ledger, page.ledger, input, page.rows, page.next)
  {
    if page.next.Some? {
      LastIsLowest(page.rows);
    }
  }

  lemma ConcatDescends(shown: seq<Fact>, rows: seq<Fact>, at: Position)
    requires Descending(shown) && Descending(rows)
    requires (forall f :: f in shown ==> !Before(Pos(f), at)) && (forall f :: f in rows ==> Before(Pos(f), at))
    ensures Descending(shown + rows)
  {
    var all := shown + rows;
    forall i, j | 0 <= i < j < |all| ensures Before(Pos(all[j]), Pos(all[i])) {
      if i < |shown| <= j {
        assert all[i] in shown && all[j] in rows;
      }
    }
  }

  lemma NextPageReached(
    first: seq<Fact>, last: seq<Fact>, input: HistoryInput, shown: seq<Fact>, at: Position, page: Page, limit: nat)
    requires Reached(first, last, input, shown, Some(at)) && Grows(last, page.ledger) && Grows(first, page.ledger)
    requires IsPage(page.ledger, input, Some(at), limit, page.rows, page.next)
    ensures Reached(first, page.ledger, input, shown + page.rows, page.next)
  {
    ConcatDescends(shown, page.rows, at);
    var low :| low in shown && Pos(low) == at;
    forall f | f in page.rows ensures Eligible(page.ledger, input, input.after, f) {
      assert Before(Pos(f), Pos(low)) && Beyond(input.after, low);
    }
    if page.next.Some? {
      LastIsLowest(page.rows);
      assert page.rows[|page.rows| - 1] in page.rows;
    }
    forall f | Eligible(first, input, input.after, f) && (page.next.Some? ==> !Before(Pos(f), page.next.value))
      ensures f in shown + page.rows
    {
      if Before(Pos(f), at) {
        assert Eligible(page.ledger, input, Some(at), f);
        assert f in page.rows;
      } else {
        assert f in shown;
      }
    }
  }

  lemma {:induction false} GrowsAll(pages: seq<Page>, input: HistoryInput, limit: nat)
    requires Walk(pages, input, limit) && pages != []
    ensures Grows(pages[0].ledger, pages[|pages| - 1].ledger)
    decreases |pages|
  {
    if |pages| > 1 {
      WalkPrefix(pages, input, limit);
      GrowsAll(pages[..|pages| - 1], input, limit);
      assert PageOk(pages, input, limit, |pages| - 1);
    }
  }

  lemma {:induction false} WalkReaches(pages: seq<Page>, input: HistoryInput, limit: nat)
    requires Walk(pages, input, limit) && pages != []
    ensures Reached(pages[0].ledger, pages[|pages| - 1].ledger, input, Shown(pages), pages[|pages| - 1].next)
    decreases |pages|
  {
    var n := |pages| - 1;
    var last := pages[n];
    assert PageOk(pages, input, limit, n);
    if n == 0 {
      FirstPageReached(last, input, limit);
      assert pages[..0] == [] && Shown(pages) == [] + last.rows == last.rows;
    } else {
      var front := pages[..n];
      WalkPrefix(pages, input, limit);
      WalkReaches(front, input, limit);
      GrowsAll(pages, input, limit);
      NextPageReached(pages[0].ledger, pages[n - 1].ledger, input, Shown(front), pages[n - 1].next.value, last, limit);
    }
  }

  /** With commits between the pages the walk still descends strictly, repeats nothing, shows only
    * matching rows and, once it ends, has shown every matching row of the ledger it started from. */
  lemma WalkIsStable(pages: seq<Page>, input: HistoryInput, limit: nat)
    requires Walk(pages, input, limit) && pages != []
    ensures Descending(Shown(pages)) && NoDuplicates(Shown(pages))
    ensures forall f :: f in Shown(pages) ==> Eligible(pages[|pages| - 1].ledger, input, input.after, f)
    ensures pages[|pages| - 1].next.None? ==> forall f :: Eligible(pages[0].ledger, input, input.after, f) ==>
              f in Shown(pages)
  {
    WalkReaches(pages, input, limit);
    var shown := Shown(pages);
    forall i, j | 0 <= i < j < |shown| ensures shown[i] != shown[j] {
      assert Before(Pos(shown[j]), Pos(shown[i]));
    }
  }

  /** Over a fixed ledger the finished walk is the whole filtered ledger, in the one descending order. */
  lemma WalkIsTheLedger(pages: seq<Page>, input: HistoryInput, limit: nat, ledger: seq<Fact>, listing: seq<Fact>)
    requires Walk(pages, input, limit) && pages != [] && pages[|pages| - 1].next.None?
    requires forall i :: 0 <= i < |pages| ==> pages[i].ledger == ledger
    requires Descending(listing) && forall f :: f in listing <==> Eligible(ledger, input, input.after, f)
    ensures Shown(pages) == listing
  {
    WalkIsStable(pages, input, limit);
    DescendingIsUnique(Shown(pages), listing);
  }

  lemma {:induction false} DescendingIsUnique(a: seq<Fact>, b: seq<Fact>)
    requires Descending(a) && Descending(b) && forall f :: f in a <==> f in b
    ensures a == b
    decreases |a|
  {
    BothEmpty(a, b);
    BothEmpty(b, a);
    if a != [] {
      SameHead(a, b);
      TailMembers(a);
      TailMembers(b);
      DescendingIsUnique(a[1..], b[1..]);
      assert a == [a[0]] + a[1..] && b == [b[0]] + b[1..];
    }
  }

  lemma BothEmpty(a: seq<Fact>, b: seq<Fact>)
    requires forall f :: f in a ==> f in b
    ensures b == [] ==> a == []
  {
    if a != [] {
      assert a[0] in b;
    }
  }

  lemma SameHead(a: seq<Fact>, b: seq<Fact>)
    requires Descending(a) && Descending(b) && (forall f :: f in a <==> f in b) && a != [] && b != []
    ensures a[0] == b[0]
  {
    assert a[0] in b && b[0] in a;
    var i :| 0 <= i < |b| && b[i] == a[0];
    var j :| 0 <= j < |a| && a[j] == b[0];
    assert i > 0 ==> Before(Pos(a[0]), Pos(b[0]));
    assert j > 0 ==> Before(Pos(b[0]), Pos(a[0]));
  }

  lemma TailMembers(a: seq<Fact>)
    requires Descending(a) && a != []
    ensures Descending(a[1..]) && forall f :: f in a[1..] <==> f in a && f != a[0]
  {
    forall f ensures f in a[1..] <==> f in a && f != a[0] {
      if f in a && f != a[0] {
        var i :| 0 <= i < |a| && a[i] == f;
        assert a[1..][i - 1] == f;
      }
      if f in a[1..] {
        var i :| 1 <= i < |a| && a[i] == f;
        assert Before(Pos(a[i]), Pos(a[0]));
      }
    }
  }

  // ----- The walk ends -----

  lemma {:induction false} FullPages(pages: seq<Page>, input: HistoryInput, limit: nat)
    requires Walk(pages, input, limit) && pages != []
    ensures (|pages| - 1) * limit <= |Shown(pages)|
    decreases |pages|
  {
    if |pages| > 1 {
      var n := |pages| - 2;
      WalkPrefix(pages, input, limit);
      FullPages(pages[..n + 1], input, limit);
      assert PageOk(pages, input, limit, n + 1);
      PagesBeforeLast(pages[..n + 1], input, limit);
    }
  }

  /** Every page but the last is full. */
  lemma {:induction false} PagesBeforeLast(pages: seq<Page>, input: HistoryInput, limit: nat)
    requires Walk(pages, input, limit) && pages != [] && pages[|pages| - 1].next.Some?
    ensures |Shown(pages)| == |pages| * limit
    decreases |pages|
  {
    var n := |pages| - 1;
    assert PageOk(pages, input, limit, n);
    if n > 0 {
      WalkPrefix(pages, input, limit);
      PagesBeforeLast(pages[..n], input, limit);
    } else {
      assert pages[..0] == [];
    }
    assert |pages| * limit == n * limit + limit;
  }

  lemma {:induction false} DistinctFit(a: seq<Fact>, ledger: seq<Fact>)
    requires NoDuplicates(a) && forall f :: f in a ==> f in ledger
    ensures |a| <= |ledger|
    decreases |a|
  {
    if a != [] {
      assert a[0] in ledger;
      var i :| 0 <= i < |ledger| && ledger[i] == a[0];
      var rest := Dropping(ledger, i);
      forall f | f in a[1..] ensures f in rest {
        assert f in a && f in ledger;
        var j :| 0 <= j < |ledger| && ledger[j] == f;
        var k :| 1 <= k < |a| && a[k] == f;
        assert a[0] != a[k];
        assert rest[if j < i then j else j - 1] == f;
      }
      DistinctFit(a[1..], rest);
    }
  }

  /** The number of pages is bounded by the ledger, so following Next over a fixed ledger ends. */
  lemma WalkEnds(pages: seq<Page>, input: HistoryInput, limit: nat)
    requires Walk(pages, input, limit) && pages != []
    ensures (|pages| - 1) * limit <= |pages[|pages| - 1].ledger|
  {
    WalkIsStable(pages, input, limit);
    FullPages(pages, input, limit);
    DistinctFit(Shown(pages), pages[|pages| - 1].ledger);
  }
}
