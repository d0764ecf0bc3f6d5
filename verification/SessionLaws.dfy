/** What every run guarantees about a token family. */
module SessionLaws {
  import opened Wrappers
  import opened Sessions
  import opened SessionRuns

  /** A family has at most one active session, one user and one absolute expiry 90 days after it began. */
  lemma FamiliesAreBounded(labels: seq<Label>, i: nat, j: nat, now: Instant)
    requires var rows := DoAll(EMPTY, labels).rows; i in rows && j in rows && rows[i].family == rows[j].family
    ensures var s := DoAll(EMPTY, labels);
            && (s.rows[i].state.Active? && s.rows[j].state.Active? ==> i == j)
            && s.rows[i].user == s.rows[j].user && s.rows[i].absoluteExpiresAt == s.rows[j].absoluteExpiresAt
            && s.rows[i].family in s.origins
            && (IsActiveAt(s.rows[i], now) ==> now < s.origins[s.rows[i].family].born + ABSOLUTE_LIMIT
                                               && now < s.rows[i].createdAt + IDLE_LIFETIME)
  {
    EmptyIsSound();
    RunsKeepSound(EMPTY, labels);
    var s := DoAll(EMPTY, labels);
    assert RowOk(s, i) && RowOk(s, j);
  }

  // ----- What never changes back -----

  ghost predicate Persists(s: Sys, s': Sys) {
    && s.refreshed <= s'.refreshed
    && (forall d :: d in s.issued ==> d in s'.issued && s'.issued[d] == s.issued[d])
    && forall f :: f in s.origins ==>
         && f in s'.origins && s'.origins[f].user == s.origins[f].user && s'.origins[f].born == s.origins[f].born
         && (s.origins[f].revokedAt.Some? ==> s'.origins[f].revokedAt == s.origins[f].revokedAt)
  }

  lemma LoginPersists(s: Sys, l: Label)
    requires l.Login? && Fresh(s, l)
    ensures Persists(s, DoLogin(s, l))
  {
  }

  lemma RefreshPersists(s: Sys, input: RefreshInput)
    requires Fresh(s, Refresh(input))
    ensures Persists(s, DoRefresh(s, input))
  {
  }

  lemma StepPersists(s: Sys, l: Label)
    ensures Persists(s, Do(s, l))
  {
    if Fresh(s, l) {
      match l
      case Login(_, _, _, _, _) => LoginPersists(s, l);
      case Refresh(input) => RefreshPersists(s, input);
      case _ =>
    }
  }

  /** A family's user and birth never change, and a revocation is never undone or redated. */
  lemma {:induction false} RunsPersist(s: Sys, labels: seq<Label>)
    ensures Persists(s, DoAll(s, labels))
    decreases |labels|
  {
    if labels != [] {
      var next := Do(s, labels[0]);
      StepPersists(s, labels[0]);
      RunsPersist(next, labels[1..]);
      PersistsTransitive(s, next, DoAll(next, labels[1..]));
    }
  }

  lemma PersistsTransitive(a: Sys, b: Sys, c: Sys)
    requires Persists(a, b) && Persists(b, c)
    ensures Persists(a, c)
  {
  }

  // ----- A token refreshes once -----

  lemma UsedTokenIsRefused(s: Sys, input: RefreshInput)
    requires Sound(s) && Fresh(s, Refresh(input)) && input.digest in s.refreshed
    ensures !RefreshTx(s.rows, input).1.Issued?
  {
    if RefreshTx(s.rows, input).1.Issued? {
      var id, rotation := IssuedIsAfterRotation(s, input);
    }
  }

  lemma IssuedMarksToken(s: Sys, input: RefreshInput)
    requires Sound(s) && Fresh(s, Refresh(input)) && RefreshTx(s.rows, input).1.Issued?
    ensures input.digest in Do(s, Refresh(input)).refreshed
  {
    var id, rotation := IssuedIsAfterRotation(s, input);
    assert Do(s, Refresh(input)).refreshed[|s.refreshed|] == input.digest;
  }

  /** A token that was refreshed once is refused for ever, whatever happens in between. */
  lemma EachTokenRefreshesOnce(before: seq<Label>, input: RefreshInput, between: seq<Label>, again: RefreshInput)
    requires var s := DoAll(EMPTY, before); Fresh(s, Refresh(input)) && RefreshTx(s.rows, input).1.Issued?
    requires again.digest == input.digest
    requires Fresh(DoAll(Do(DoAll(EMPTY, before), Refresh(input)), between), Refresh(again))
    ensures !RefreshTx(DoAll(Do(DoAll(EMPTY, before), Refresh(input)), between).rows, again).1.Issued?
  {
    var s := DoAll(EMPTY, before);
    EmptyIsSound();
    RunsKeepSound(EMPTY, before);
    IssuedMarksToken(s, input);
    StepKeepsSound(s, Refresh(input));
    var next := Do(s, Refresh(input));
    RunsKeepSound(next, between);
    RunsPersist(next, between);
    UsedTokenIsRefused(DoAll(next, between), again);
  }

  // ----- A revoked family stays revoked -----

  /** After a revocation every session of the family is revoked, at one instant, and none is ever refreshed again. */
  lemma RevokedFamilyIsDead(s: Sys, family: nat, labels: seq<Label>, input: RefreshInput)
    requires Sound(s) && family in s.origins && s.origins[family].revokedAt.Some?
    requires Fresh(DoAll(s, labels), Refresh(input))
    ensures var s' := DoAll(s, labels);
            && (forall id :: id in s'.rows && s'.rows[id].family == family ==>
                  s'.rows[id].state.Revoked? && s'.rows[id].revokedAt == s.origins[family].revokedAt)
            && (RefreshTx(s'.rows, input).1.Issued? ==>
                  forall id :: id in s'.rows && s'.rows[id].digest == input.digest ==> s'.rows[id].family != family)
  {
    RunsKeepSound(s, labels);
    RunsPersist(s, labels);
    var s' := DoAll(s, labels);
    forall id | id in s'.rows && s'.rows[id].family == family
      ensures s'.rows[id].state.Revoked? && s'.rows[id].revokedAt == s.origins[family].revokedAt
    {
      assert RowOk(s', id);
    }
    if RefreshTx(s'.rows, input).1.Issued? {
      var active, rotation := IssuedIsAfterRotation(s', input);
      assert s'.rows[active].state.Active?;
    }
  }

  lemma LogoutRevokes(s: Sys, digest: nat, now: Instant)
    requires Sound(s) && LogoutTx(s.rows, digest, now).1.LoggedOut?
    ensures var s', id := Do(s, Logout(digest, now)), FindByDigest(s.rows, digest).value;
            s.rows[id].family in s'.origins && s'.origins[s.rows[id].family].revokedAt == Some(now)
  {
    var id := FindByDigest(s.rows, digest).value;
    assert RowOk(s, id);
  }

  // ----- The chain of a family -----

  /** y is reached from x along replacement links. */
  ghost predicate Reaches(rows: Rows, x: nat, y: nat, steps: nat)
    decreases steps
  {
    x == y || (steps > 0 && x in rows && rows[x].replacement.Some?
               && Reaches(rows, rows[x].replacement.value, y, steps - 1))
  }

  /** The sessions of a family form one chain, in order of creation. */
  lemma {:induction false} ChainIsLinear(s: Sys, x: nat, y: nat)
    requires Sound(s) && x in s.rows && y in s.rows && s.rows[x].family == s.rows[y].family
    requires x in s.generation && y in s.generation && s.generation[x] <= s.generation[y]
    ensures Reaches(s.rows, x, y, s.generation[y] - s.generation[x]) && s.rows[x].createdAt <= s.rows[y].createdAt
    decreases s.generation[y] - s.generation[x]
  {
    if s.generation[x] == s.generation[y] {
      assert SameGeneration(s, x, y);
    } else {
      var next := LinkedNext(s, x, y);
      ChainIsLinear(s, next, y);
    }
  }

  lemma LinkedNext(s: Sys, x: nat, y: nat) returns (next: nat)
    requires Sound(s) && x in s.rows && y in s.rows && s.rows[x].family == s.rows[y].family
    requires x in s.generation && y in s.generation && s.generation[x] < s.generation[y]
    ensures s.rows[x].replacement == Some(next) && next in s.rows && s.rows[next].family == s.rows[x].family
    ensures next in s.generation && s.generation[next] == s.generation[x] + 1
    ensures s.rows[x].createdAt <= s.rows[next].createdAt
  {
    assert RowOk(s, x) && RowOk(s, y) && LinkOk(s, x) && UpToTip(s, y);
    next := s.rows[x].replacement.value;
    assert Follows(s, s.rows[x], s.rows[next]) && RowOk(s, next);
  }

  /** From any session the chain leads to the family's latest one, which is still there. */
  lemma {:induction false} TipIsLast(s: Sys, x: nat)
    requires Sound(s) && x in s.rows
    ensures s.rows[x].family in s.origins
    ensures var tip := s.origins[s.rows[x].family].tip;
            && tip in s.rows && s.rows[tip].family == s.rows[x].family
            && s.rows[x].createdAt <= s.rows[tip].createdAt
    decreases if x in s.rows && s.rows[x].family in s.origins && s.origins[s.rows[x].family].tip in s.generation
              && x in s.generation
              then s.generation[s.origins[s.rows[x].family].tip] - s.generation[x] else 0
  {
    assert RowOk(s, x) && LinkOk(s, x) && UpToTip(s, x);
    if x != s.origins[s.rows[x].family].tip {
      var next := s.rows[x].replacement.value;
      assert Follows(s, s.rows[x], s.rows[next]) && RowOk(s, next) && UpToTip(s, next);
      TipIsLast(s, next);
    }
  }

  // ----- Replay detection -----

  /** The statement revokes exactly as the domain does: row by row, and all rows or none. */
  lemma StatementRevokesAsDomain(r: Session, at: Instant, reason: string)
    requires IsValid(r) && !r.state.Revoked? && ValidReason(reason)
    ensures Revoke(r, at, reason).Success? <==> MeetsChecks(RevokedRow(r, at, reason))
    ensures Revoke(r, at, reason).Success? <==> r.createdAt <= at
    ensures Revoke(r, at, reason).Success? ==> Revoke(r, at, reason).value == RevokedRow(r, at, reason)
  {
  }

  lemma ReasonsAreValid()
    ensures ValidReason(REPLAY) && ValidReason(LOGOUT)
  {
    assert REPLAY[0] !in " \t\n\r" && LOGOUT[0] !in " \t\n\r";
  }

  lemma RevocationSucceeds(s: Sys, id: nat, at: Instant, reason: string)
    requires Sound(s) && id in s.rows && s.rows[id].family in s.origins && s.origins[s.rows[id].family].tip in s.rows
    requires ValidReason(reason)
    ensures RevokedFamily(s.rows, s.rows[id].family, at, reason).Success? <==>
            at != 0 && (s.rows[id].state.Revoked? || s.rows[s.origins[s.rows[id].family].tip].createdAt <= at)
  {
    var family := s.rows[id].family;
    var tip := s.origins[family].tip;
    assert RowOk(s, id) && RowOk(s, tip);
    TipIsLast(s, id);
    forall i | InFamily(s.rows, i, family) && !s.rows[i].state.Revoked?
      ensures !s.rows[id].state.Revoked?
              && (MeetsChecks(RevokedRow(s.rows[i], at, reason)) <==> s.rows[i].createdAt <= at)
      ensures s.rows[i].createdAt <= s.rows[tip].createdAt
    {
      assert RowOk(s, i);
      StatementRevokesAsDomain(s.rows[i], at, reason);
      TipIsLast(s, i);
    }
    assert InFamily(s.rows, tip, family);
  }

  lemma RevokedLinksResolve(s: Sys, family: nat, at: Instant, reason: string)
    requires Sound(s)
    ensures LinksResolve(FamilyRevoked(s.rows, family, at, reason))
  {
    GoodLinksResolve(s);
  }

  /** For a used token whose row is still stored: all rows of the family are revoked if the clock has reached
    * the creation of the family's latest session; otherwise the transaction fails and nothing changes. */
  lemma StoredReplay(s: Sys, id: nat, input: RefreshInput)
    requires Sound(s) && id in s.rows && s.rows[id].digest == input.digest && s.rows[id].replacement.Some?
    ensures s.rows[id].family in s.origins && s.origins[s.rows[id].family].tip in s.rows
    ensures var detected := input.now != 0
            && (s.rows[id].state.Revoked? || s.rows[s.origins[s.rows[id].family].tip].createdAt <= input.now);
            RefreshTx(s.rows, input) == if detected then
              (FamilyRevoked(s.rows, s.rows[id].family, input.now, REPLAY), Rejected)
            else (s.rows, ServiceError)
  {
    assert RowOk(s, id);
    TipIsLast(s, id);
    ReasonsAreValid();
    RevocationSucceeds(s, id, input.now, REPLAY);
    RevokedLinksResolve(s, s.rows[id].family, input.now, REPLAY);
    assert FindByDigest(s.rows, input.digest) == Some(id);
  }

  predicate Stored(rows: Rows, digest: nat) {
    exists id :: id in rows && rows[id].digest == digest
  }

  ghost predicate IsRevoked(s: Sys, family: nat) {
    family in s.origins && s.origins[family].revokedAt.Some?
  }

  /** The clock has reached the creation of the family's latest session. */
  ghost predicate ReachesTip(s: Sys, family: nat, now: Instant) {
    && now != 0 && family in s.origins && s.origins[family].tip in s.rows
    && s.rows[s.origins[family].tip].createdAt <= now
  }

  /** Presenting any used token leaves its family revoked exactly if the family was revoked before, or the token's row
    * is still stored and the clock has reached the creation of the family's latest session. If not, no row changes. */
  lemma ReplayRevokesTheFamily(s: Sys, input: RefreshInput)
    requires Sound(s) && input.digest in s.refreshed && Fresh(s, Refresh(input))
    ensures var family, s' := s.issued[input.digest], Do(s, Refresh(input));
            && family in s.origins
            && (IsRevoked(s', family) <==>
                  IsRevoked(s, family) || (Stored(s.rows, input.digest) && ReachesTip(s, family, input.now)))
            && (!IsRevoked(s', family) ==> s' == s)
            && (forall id :: id in s'.rows && s'.rows[id].family == family ==>
                  (s'.rows[id].state.Revoked? <==> IsRevoked(s', family)))
            && !RefreshTx(s.rows, input).1.Issued?
  {
    var family, s' := s.issued[input.digest], Do(s, Refresh(input));
    StepKeepsSound(s, Refresh(input));
    StepPersists(s, Refresh(input));
    UsedTokenIsRefused(s, input);
    forall id | id in s'.rows && s'.rows[id].family == family
      ensures s'.rows[id].state.Revoked? <==> IsRevoked(s', family)
    {
      assert RowOk(s', id);
    }
    if id :| id in s.rows && s.rows[id].digest == input.digest {
      assert RowOk(s, id);
      assert FindByDigest(s.rows, input.digest) == Some(id);
      TipIsLast(s, id);
      StoredReplay(s, id, input);
    } else {
      assert FindByDigest(s.rows, input.digest) == None;
    }
  }

  // ----- Cleanup forgets used tokens, but not too early -----

  /** For every family with an active session: once cleanup has deleted a replaced session, its token is refused like
    * an unknown one and nothing is revoked, whatever the clock. */
  lemma CleanupHidesReplay(s: Sys, id: nat, cutoff: Instant, input: RefreshInput)
    requires Sound(s) && id in s.rows && s.rows[id].state.Replaced? && s.rows[id].replacedAt.value < cutoff
    requires s.rows[id].digest == input.digest
    ensures var s' := Do(s, DeleteInactive(cutoff));
            && input.digest in s'.refreshed && RefreshTx(s'.rows, input) == (s'.rows, Rejected)
            && forall i :: i in s.rows && s.rows[i].state.Active? ==> i in s'.rows && s'.rows[i] == s.rows[i]
  {
    assert RowOk(s, id);
    CleanupLeavesNoGap(s, cutoff);
    var s' := Do(s, DeleteInactive(cutoff));
    assert !Stored(s'.rows, input.digest);
    assert FindByDigest(s'.rows, input.digest) == None;
  }

  /** What cleanup up to a cutoff may have forgotten: used tokens of families revoked or begun before the cutoff. */
  ghost predicate Remembers(s: Sys, cutoff: Instant) {
    forall d :: d in s.refreshed ==> Remembered(s, d, cutoff)
  }

  ghost predicate Remembered(s: Sys, digest: nat, cutoff: Instant) {
    && digest in s.issued && s.issued[digest] in s.origins
    && (Stored(s.rows, digest) || IsRevoked(s, s.issued[digest]) || s.origins[s.issued[digest]].born < cutoff)
  }

  /** No digest leaves the table. */
  ghost predicate KeepsDigests(rows: Rows, rows': Rows) {
    forall id :: id in rows ==> id in rows' && rows'[id].digest == rows[id].digest
  }

  lemma LoginKeepsDigests(s: Sys, l: Label)
    requires l.Login?
    ensures KeepsDigests(s.rows, DoLogin(s, l).rows) && DoLogin(s, l).refreshed == s.refreshed
  {
    if LoginTx(s.rows, l.user, l.id, l.family, l.digest, l.now).1.Issued? {
      var r := LoginInserts(s.rows, l);
    }
  }

  lemma RefreshKeepsDigests(s: Sys, input: RefreshInput)
    requires Sound(s) && Fresh(s, Refresh(input))
    ensures KeepsDigests(s.rows, DoRefresh(s, input).rows)
    ensures forall d :: d in DoRefresh(s, input).refreshed ==> d in s.refreshed || Stored(DoRefresh(s, input).rows, d)
  {
    if RefreshTx(s.rows, input).1.Issued? {
      var id, rotation := IssuedIsAfterRotation(s, input);
      RotationKeepsDigestsStored(s, id, rotation, DoRefresh(s, input));
    } else {
      var family := NotIssued(s, input);
      RefusalKeepsDigests(s, family, input, DoRefresh(s, input));
    }
  }

  lemma RotationKeepsDigestsStored(s: Sys, id: nat, rotation: Rotation, s': Sys)
    requires Rotates(s, id, rotation) && s' == AfterRotation(s, id, rotation) && rotation.replacement.id !in s.rows
    ensures KeepsDigests(s.rows, s'.rows)
    ensures forall d :: d in s'.refreshed ==> d in s.refreshed || Stored(s'.rows, d)
  {
    assert s'.rows[id].digest == s.rows[id].digest;
  }

  lemma RefusalKeepsDigests(s: Sys, family: nat, input: RefreshInput, s': Sys)
    requires s' == s || s' == s.(rows := FamilyRevoked(s.rows, family, input.now, REPLAY), origins := s'.origins)
    ensures KeepsDigests(s.rows, s'.rows) && s'.refreshed == s.refreshed
  {
  }

  lemma StepKeepsDigests(s: Sys, l: Label)
    requires Sound(s) && !l.DeleteInactive? && Fresh(s, l)
    ensures KeepsDigests(s.rows, Do(s, l).rows)
    ensures forall d :: d in Do(s, l).refreshed ==> d in s.refreshed || Stored(Do(s, l).rows, d)
  {
    match l
    case Login(_, _, _, _, _) => LoginKeepsDigests(s, l);
    case Refresh(input) => RefreshKeepsDigests(s, input);
    case _ =>
  }

  lemma CleanupRemembers(s: Sys, c: Instant, cutoff: Instant)
    requires Sound(s) && Remembers(s, cutoff) && c <= cutoff
    ensures Remembers(Do(s, DeleteInactive(c)), cutoff)
  {
    CleanupLeavesNoGap(s, c);
    var s' := Do(s, DeleteInactive(c));
    forall d | d in s'.refreshed ensures Remembered(s', d, cutoff) {
      assert Remembered(s, d, cutoff);
      if id :| id in s.rows && s.rows[id].digest == d {
        assert RowOk(s, id);
        assert !Inactive(s.rows[id], c) ==> s'.rows[id].digest == d;
      }
    }
  }

  lemma StepRemembers(s: Sys, l: Label, cutoff: Instant)
    requires Sound(s) && Remembers(s, cutoff) && (l.DeleteInactive? ==> l.cutoff <= cutoff)
    ensures Remembers(Do(s, l), cutoff)
  {
    if l.DeleteInactive? {
      CleanupRemembers(s, l.cutoff, cutoff);
    } else if Fresh(s, l) {
      var s' := Do(s, l);
      StepKeepsDigests(s, l);
      StepKeepsSound(s, l);
      StepPersists(s, l);
      forall d | d in s'.refreshed ensures Remembered(s', d, cutoff) {
        assert d in s.refreshed ==> Remembered(s, d, cutoff);
      }
    }
  }

  lemma {:induction false} RunsRemember(s: Sys, labels: seq<Label>, cutoff: Instant)
    requires Sound(s) && Remembers(s, cutoff)
    requires forall l :: l in labels && l.DeleteInactive? ==> l.cutoff <= cutoff
    ensures Remembers(DoAll(s, labels), cutoff)
    decreases |labels|
  {
    if labels != [] {
      StepRemembers(s, labels[0], cutoff);
      StepKeepsSound(s, labels[0]);
      RunsRemember(Do(s, labels[0]), labels[1..], cutoff);
    }
  }

  /** In a run whose cleanups stay at least the absolute lifetime behind the clock, a forgotten used token endangers
    * nobody: its family is revoked or no session of it is active any more. */
  lemma LateCleanupIsSafe(labels: seq<Label>, digest: nat, now: Instant)
    requires forall l :: l in labels && l.DeleteInactive? ==> l.cutoff + ABSOLUTE_LIMIT <= now
    requires var s := DoAll(EMPTY, labels); digest in s.refreshed && !Stored(s.rows, digest)
    ensures var s := DoAll(EMPTY, labels);
            && digest in s.issued
            && (IsRevoked(s, s.issued[digest])
                || forall id :: id in s.rows && s.rows[id].family == s.issued[digest] ==> !IsActiveAt(s.rows[id], now))
  {
    EmptyIsSound();
    RunsKeepSound(EMPTY, labels);
    RunsRemember(EMPTY, labels, now - ABSOLUTE_LIMIT);
    var s := DoAll(EMPTY, labels);
    assert Remembered(s, digest, now - ABSOLUTE_LIMIT);
    forall id | id in s.rows && s.rows[id].family == s.issued[digest] && !IsRevoked(s, s.issued[digest])
      ensures !IsActiveAt(s.rows[id], now)
    {
      assert RowOk(s, id);
    }
  }

  // ----- Exactly when a refresh and a logout succeed -----

  lemma RotationIsStored(s: Sys, id: nat, rotation: Rotation)
    requires Sound(s) && Rotates(s, id, rotation) && IsValid(rotation.replaced) && IsValid(rotation.replacement)
    ensures Rotated(s.rows, id, rotation).Success?
    ensures LinksResolve(Rotated(s.rows, id, rotation).value)
  {
    var marked := s.rows[id := rotation.replaced];
    ValidMeetsChecks(rotation.replaced);
    ValidMeetsChecks(rotation.replacement);
    assert MarkedReplaced(s.rows, id, rotation.replacement.id, rotation.replacement.createdAt)
           == Result<Rows, SessionError>.Success(marked);
    NoClash(s, id, rotation);
    RotationKeepsLinks(s, id, rotation);
    GoodLinksResolve(AfterRotation(s, id, rotation));
  }

  lemma ValidMeetsChecks(r: Session)
    requires IsValid(r)
    ensures MeetsChecks(r)
  {
  }

  lemma NoClash(s: Sys, id: nat, rotation: Rotation)
    requires Good(s) && Rotates(s, id, rotation)
    ensures !Clashes(s.rows[id := rotation.replaced], rotation.replacement)
  {
    assert RowOk(s, id);
    forall i | i in s.rows && i != id
      ensures i != rotation.replacement.id && s.rows[i].digest != rotation.replacement.digest
      ensures s.rows[i].family == rotation.replacement.family ==> !s.rows[i].state.Active?
    {
      assert RowOk(s, i);
    }
  }

  /** A refresh with a new id and token succeeds exactly for an active, unexpired session of an active
    * user within the rate limit whose clock has not fallen behind the session. */
  lemma RefreshSucceedsExactly(s: Sys, id: nat, input: RefreshInput)
    requires Sound(s) && Fresh(s, Refresh(input)) && input.newId != 0 && input.newDigest != 0
    requires id in s.rows && s.rows[id].digest == input.digest
    ensures RefreshTx(s.rows, input).1.Issued? <==>
            && IsActiveAt(s.rows[id], input.now) && s.rows[id].createdAt <= input.now && input.now != 0
            && input.userActive && input.allowed && input.credential && input.signed
  {
    var r := s.rows[id];
    assert RowOk(s, id);
    assert FindByDigest(s.rows, input.digest) == Some(id);
    PlansExactly(r, input);
    if Plan(r, input).Success? {
      PlanIsRotation(r, input, Plan(r, input).value);
      RotationIsStored(s, id, Plan(r, input).value);
    }
    IssuedNeedsPlan(s.rows, id, input);
  }

  lemma PlansExactly(r: Session, input: RefreshInput)
    requires IsValid(r) && input.newId != 0 && input.newId != r.id && input.newDigest != 0
    ensures Plan(r, input).Success? <==> IsActiveAt(r, input.now) && r.createdAt <= input.now && input.now != 0
  {
    RotationHandsOver(r, input.newId, input.newDigest, input.now,
                      MinTime(input.now + IDLE_LIFETIME, r.absoluteExpiresAt));
  }

  lemma IssuedNeedsPlan(rows: Rows, id: nat, input: RefreshInput)
    requires FindByDigest(rows, input.digest) == Some(id)
    requires Plan(rows[id], input).Success? ==>
               Rotated(rows, id, Plan(rows[id], input).value).Success?
                 && LinksResolve(Rotated(rows, id, Plan(rows[id], input).value).value)
    requires Plan(rows[id], input).Success? ==> IsActiveAt(rows[id], input.now)
    ensures RefreshTx(rows, input).1.Issued? <==>
            Plan(rows[id], input).Success? && input.userActive && input.allowed && input.credential && input.signed
  {
  }

  /** A logout succeeds exactly for an active, unexpired session created no later than the clock shows. */
  lemma LogoutSucceedsExactly(s: Sys, id: nat, now: Instant)
    requires Sound(s) && id in s.rows
    ensures LogoutTx(s.rows, s.rows[id].digest, now).1.LoggedOut? <==>
            IsActiveAt(s.rows[id], now) && now != 0 && s.rows[id].createdAt <= now
  {
    assert RowOk(s, id);
    assert FindByDigest(s.rows, s.rows[id].digest) == Some(id);
    if IsActiveAt(s.rows[id], now) {
      TipIsLast(s, id);
      ReasonsAreValid();
      RevocationSucceeds(s, id, now, LOGOUT);
      RevokedLinksResolve(s, s.rows[id].family, now, LOGOUT);
    }
  }

  // ----- A clock that lags hides a replay -----

  function Attempt(digest: nat, now: Instant, newId: nat, newDigest: nat): RefreshInput {
    RefreshInput(digest, now, true, true, true, newId, newDigest, true)
  }

  /** Login, one refresh, then the old token again on a clock still behind the refresh: nothing is revoked. */
  lemma LaggingClockHidesReplay()
    ensures var s := DoAll(EMPTY, [Login(1, 1, 1, 1, 100), Refresh(Attempt(1, 200, 2, 2))]);
            && 1 in s.rows && s.rows[1].state.Replaced? && 2 in s.rows && IsActiveAt(s.rows[2], 150)
            && RefreshTx(s.rows, Attempt(1, 150, 3, 3)) == (s.rows, ServiceError)
  {
    var login, refresh := Login(1, 1, 1, 1, 100), Refresh(Attempt(1, 200, 2, 2));
    EmptyIsSound();
    var first := Do(EMPTY, login);
    StepKeepsSound(EMPTY, login);
    FirstLogin(first);
    var second := Do(first, refresh);
    StepKeepsSound(first, refresh);
    FirstRefresh(first, second);
    assert [login, refresh][1..] == [refresh] && [refresh][1..] == [];
    assert DoAll(second, []) == second;
    assert DoAll(first, [refresh]) == second;
    StoredReplay(second, 1, Attempt(1, 150, 3, 3));
  }

  /** Login, one refresh, a cleanup of sessions replaced before 300, then the old token again on a right clock: nothing
    * is revoked and the session that replaced it can still be refreshed. */
  lemma EarlyCleanupHidesReplay()
    ensures var s := DoAll(EMPTY, [Login(1, 1, 1, 1, 100), Refresh(Attempt(1, 200, 2, 2)), DeleteInactive(300)]);
            && 1 in s.refreshed && 2 in s.rows && IsActiveAt(s.rows[2], 400)
            && RefreshTx(s.rows, Attempt(1, 400, 3, 3)) == (s.rows, Rejected)
  {
    var login, refresh, cleanup := Login(1, 1, 1, 1, 100), Refresh(Attempt(1, 200, 2, 2)), DeleteInactive(300);
    EmptyIsSound();
    var first := Do(EMPTY, login);
    StepKeepsSound(EMPTY, login);
    FirstLogin(first);
    var second := Do(first, refresh);
    StepKeepsSound(first, refresh);
    FirstRefresh(first, second);
    ThreeSteps(EMPTY, login, refresh, cleanup, first, second);
    CleanupHidesReplay(second, 1, 300, Attempt(1, 400, 3, 3));
  }

  lemma ThreeSteps(s: Sys, a: Label, b: Label, c: Label, s1: Sys, s2: Sys)
    requires Do(s, a) == s1 && Do(s1, b) == s2
    ensures DoAll(s, [a, b, c]) == Do(s2, c)
  {
    assert [a, b, c][1..] == [b, c] && [b, c][1..] == [c] && [c][1..] == [];
    assert DoAll(s2, [c]) == Do(s2, c);
    assert DoAll(s1, [b, c]) == Do(s2, c);
  }

  lemma FirstLogin(s: Sys)
    requires s == Do(EMPTY, Login(1, 1, 1, 1, 100))
    ensures s.rows == map[1 :=
                          Session(1, 1, 1, 1, Active, None, 100, None, 100 + IDLE_LIFETIME, 100 + ABSOLUTE_LIMIT, None,
                                  "")]
    ensures s.origins == map[1 := Origin(1, 100, 1, None)] && s.generation == map[1 := 0] && s.issued == map[1 := 1]
  {
  }

  lemma FirstRefresh(s: Sys, s': Sys)
    requires s.rows == map[1 :=
                           Session(1, 1, 1, 1, Active, None, 100, None, 100 + IDLE_LIFETIME, 100 + ABSOLUTE_LIMIT,
                                   None, "")]
    requires s.origins == map[1 := Origin(1, 100, 1, None)] && s.generation == map[1 := 0] && s.issued == map[1 := 1]
    requires s' == Do(s, Refresh(Attempt(1, 200, 2, 2)))
    ensures 1 in s'.rows && s'.rows[1].state.Replaced? && s'.rows[1].digest == 1 && s'.rows[1].family == 1
            && s'.rows[1].replacement.Some?
    ensures 2 in s'.rows && s'.rows[2].createdAt == 200 && IsActiveAt(s'.rows[2], 150) && IsActiveAt(s'.rows[2], 400)
    ensures s'.rows[1].replacedAt == Some(200)
    ensures 1 in s'.origins && s'.origins[1].tip == 2
  {
    assert 1 in s.rows && s.rows[1].digest == 1;
    assert FindByDigest(s.rows, 1) == Some(1);
  }
}
