/** How long a session lives, with the lifetimes as numbers: 30 days idle and 90 days from the login, in
  * microseconds. */
module SessionLifetimes {
  import opened Wrappers
  import opened Sessions
  import opened SessionRuns
  import opened SessionLaws

  /** The session may be used at t. */
  predicate IsUsable(r: Session, t: Instant) {
    r.state == Active && t < r.idleExpiresAt && t < r.absoluteExpiresAt
  }

  lemma UsableIsActive(r: Session, t: Instant)
    ensures IsUsable(r, t) <==> IsActiveAt(r, t)
  {
  }

  lemma LoginIsStored(s: Sys, l: Label)
    requires Sound(s) && l.Login? && Fresh(s, l) && LoginTx(s.rows, l.user, l.id, l.family, l.digest, l.now).1.Issued?
    ensures var s' := Do(s, l);
            && Sound(s') && l.id in s'.rows && s'.rows[l.id].digest == l.digest
            && s'.rows[l.id].user == l.user && s'.rows[l.id].family == l.family
            && s'.rows[l.id].createdAt == l.now && s'.rows[l.id].state == Active
            && s'.rows[l.id].idleExpiresAt == l.now + 2_592_000_000_000
            && s'.rows[l.id].absoluteExpiresAt == l.now + 7_776_000_000_000
  {
    var r := LoginInserts(s.rows, l);
    StepKeepsSound(s, l);
  }

  /** A login opens a session that can be used for 30 days. */
  lemma LoginLivesExactly(s: Sys, l: Label, t: Instant)
    requires Sound(s) && l.Login? && Fresh(s, l) && LoginTx(s.rows, l.user, l.id, l.family, l.digest, l.now).1.Issued?
    ensures var s' := Do(s, l);
            l.id in s'.rows && (IsUsable(s'.rows[l.id], t) <==> t < l.now + 2_592_000_000_000)
  {
    LoginIsStored(s, l);
  }

  /** The row a refresh issues: 30 days idle, cut off 90 days after the family's login. */
  lemma RefreshIsStored(s: Sys, input: RefreshInput) returns (last: Session, family: nat)
    requires Sound(s) && Fresh(s, Refresh(input)) && RefreshTx(s.rows, input).1.Issued?
    ensures last.digest == input.digest && last.family == family && family in s.origins
    ensures var s' := Do(s, Refresh(input));
            && Sound(s') && input.newId in s'.rows
            && family in s'.origins && s'.origins[family].born == s.origins[family].born
            && var r := s'.rows[input.newId];
               && r.digest == input.newDigest && r.user == last.user && r.family == family && r.createdAt == input.now
               && r.state == Active
               && r.idleExpiresAt == (if input.now + 2_592_000_000_000 < s.origins[family].born + 7_776_000_000_000
                                      then input.now + 2_592_000_000_000
                                      else s.origins[family].born + 7_776_000_000_000)
               && r.absoluteExpiresAt == s.origins[family].born + 7_776_000_000_000
  {
    var id, rotation := IssuedIsAfterRotation(s, input);
    last, family := s.rows[id], s.rows[id].family;
    assert RowOk(s, id);
    StepKeepsSound(s, Refresh(input));
    IdleOfRefresh(s, input, id, rotation);
  }

  lemma IdleOfRefresh(s: Sys, input: RefreshInput, id: nat, rotation: Rotation)
    requires Sound(s) && Rotates(s, id, rotation) && s.rows[id].digest == input.digest
    requires DoRefresh(s, input) == AfterRotation(s, id, rotation) && RefreshTx(s.rows, input).1.Issued?
    ensures input.newId == rotation.replacement.id && rotation.replacement.createdAt == input.now
    ensures var life := input.now + 2_592_000_000_000;
            rotation.replacement.idleExpiresAt
            == if life < s.rows[id].absoluteExpiresAt then life else s.rows[id].absoluteExpiresAt
  {
    var found, issued := IssuedIsRotation(s.rows, input);
    assert found == id;
    assert DoRefresh(s, input).rows[input.newId] == issued.replacement;
  }

  /** A refreshed session can be used for 30 days, but not 90 days after the family's login or later. */
  lemma RefreshLivesExactly(s: Sys, input: RefreshInput, t: Instant) returns (family: nat)
    requires Sound(s) && Fresh(s, Refresh(input)) && RefreshTx(s.rows, input).1.Issued?
    ensures family in s.origins
    ensures var s' := Do(s, Refresh(input));
            input.newId in s'.rows && s'.rows[input.newId].family == family
            && (IsUsable(s'.rows[input.newId], t) <==>
                  t < input.now + 2_592_000_000_000 && t < s.origins[family].born + 7_776_000_000_000)
  {
    var r;
    r, family := RefreshIsStored(s, input);
  }

  /** The answer to the token of a session that was neither replaced nor revoked: the first obstacle in this order,
    * with no row changed, or a new session. */
  lemma RefreshAnswersExactly(s: Sys, id: nat, input: RefreshInput)
    requires Sound(s) && Fresh(s, Refresh(input)) && input.newId != 0 && input.newDigest != 0
    requires id in s.rows && s.rows[id].digest == input.digest && s.rows[id].state in {Active, Expired}
    ensures var r, (rows, outcome) := s.rows[id], RefreshTx(s.rows, input);
            && outcome == (if !IsUsable(r, input.now) || !input.userActive then Rejected
                           else if !input.allowed then RateLimited
                           else if !input.credential then ServiceError
                           else if input.now == 0 || input.now < r.createdAt then Rejected
                           else if !input.signed then ServiceError
                           else Issued(input.newId))
            && (!outcome.Issued? ==> rows == s.rows)
  {
    assert RowOk(s, id);
    assert FindByDigest(s.rows, input.digest) == Some(id);
    PlansExactly(s.rows[id], input);
    RefreshSucceedsExactly(s, id, input);
  }

  /** A token no row knows is refused, and nothing changes. */
  lemma UnknownTokenIsRefused(s: Sys, input: RefreshInput)
    requires forall id :: id in s.rows ==> s.rows[id].digest != input.digest
    ensures RefreshTx(s.rows, input) == (s.rows, Rejected)
  {
  }

  // ----- The end of a family -----

  /** Exactly the sessions of the family that were not revoked before are now, with this time and reason. */
  predicate IsStamped(rows: Rows, rows': Rows, family: nat, at: Instant, reason: string) {
    && rows'.Keys == rows.Keys
    && forall id :: id in rows ==>
         rows'[id] == if rows[id].family == family && rows[id].state != Revoked
                      then rows[id].(state := Revoked, revokedAt := Some(at), reason := reason) else rows[id]
  }

  /** No unrevoked session of the family is younger than the stamp. */
  predicate MayStamp(rows: Rows, family: nat, at: Instant) {
    && at != 0
    && forall id :: id in rows && rows[id].family == family && rows[id].state != Revoked ==> rows[id].createdAt <= at
  }

  lemma RevocationStamps(s: Sys, family: nat, at: Instant, reason: string)
    requires Sound(s) && ValidReason(reason)
    ensures var revoked := RevokedFamily(s.rows, family, at, reason);
            && (revoked.Success? <==> MayStamp(s.rows, family, at))
            && (revoked.Success? ==>
                  IsStamped(s.rows, revoked.value, family, at, reason) && LinksResolve(revoked.value))
  {
    forall id | InFamily(s.rows, id, family) && !s.rows[id].state.Revoked?
      ensures MeetsChecks(RevokedRow(s.rows[id], at, reason)) <==> s.rows[id].createdAt <= at
    {
      assert RowOk(s, id);
      StatementRevokesAsDomain(s.rows[id], at, reason);
    }
    RevokedLinksResolve(s, family, at, reason);
  }

  /** The answer to the token of a session that was replaced or revoked: its whole family is revoked as a reuse,
    * unless the clock is behind one of the sessions; then nothing changes. */
  lemma UsedTokenAnswersExactly(s: Sys, id: nat, input: RefreshInput)
    requires Sound(s) && id in s.rows && s.rows[id].digest == input.digest && s.rows[id].state in {Replaced, Revoked}
    ensures var (rows, outcome) := RefreshTx(s.rows, input);
            if MayStamp(s.rows, s.rows[id].family, input.now)
            then outcome == Rejected && IsStamped(s.rows, rows, s.rows[id].family, input.now, "refresh_token_reuse")
            else outcome == ServiceError && rows == s.rows
  {
    ReasonsAreValid();
    assert FindByDigest(s.rows, input.digest) == Some(id);
    RevocationStamps(s, s.rows[id].family, input.now, REPLAY);
  }

  /** The answer to a logout: an active session ends its family, any other token changes nothing. */
  lemma LogoutAnswersExactly(s: Sys, id: nat, now: Instant)
    requires Sound(s) && id in s.rows
    ensures var (rows, outcome) := LogoutTx(s.rows, s.rows[id].digest, now);
            if IsUsable(s.rows[id], now) && MayStamp(s.rows, s.rows[id].family, now)
            then outcome == LoggedOut && IsStamped(s.rows, rows, s.rows[id].family, now, "current_session_logout")
            else outcome == (if IsUsable(s.rows[id], now) then ServiceError else Rejected) && rows == s.rows
  {
    ReasonsAreValid();
    assert FindByDigest(s.rows, s.rows[id].digest) == Some(id);
    RevocationStamps(s, s.rows[id].family, now, LOGOUT);
  }

  // ----- The new token -----

  /** The new token refreshes in its turn exactly while the session lives and the clock has not gone back, its user
    * is active and the limiter and the signer agree. */
  lemma IssuedTokenRefreshesExactly(s: Sys, input: RefreshInput, next: RefreshInput) returns (family: nat)
    requires Sound(s) && Fresh(s, Refresh(input)) && RefreshTx(s.rows, input).1.Issued?
    requires Fresh(Do(s, Refresh(input)), Refresh(next)) && next.newId != 0 && next.newDigest != 0
    requires next.digest == input.newDigest
    ensures family in s.origins
    ensures RefreshTx(Do(s, Refresh(input)).rows, next).1.Issued? <==>
            && input.now <= next.now && next.now != 0
            && next.now < input.now + 2_592_000_000_000 && next.now < s.origins[family].born + 7_776_000_000_000
            && next.userActive && next.allowed && next.credential && next.signed
  {
    var r;
    r, family := RefreshIsStored(s, input);
    RefreshSucceedsExactly(Do(s, Refresh(input)), input.newId, next);
  }

  /** So does the token of a login. */
  lemma LoginTokenRefreshesExactly(s: Sys, l: Label, next: RefreshInput)
    requires Sound(s) && l.Login? && Fresh(s, l) && LoginTx(s.rows, l.user, l.id, l.family, l.digest, l.now).1.Issued?
    requires Fresh(Do(s, l), Refresh(next)) && next.newId != 0 && next.newDigest != 0 && next.digest == l.digest
    ensures RefreshTx(Do(s, l).rows, next).1.Issued? <==>
            && l.now <= next.now && next.now != 0 && next.now < l.now + 2_592_000_000_000
            && next.userActive && next.allowed && next.credential && next.signed
  {
    LoginIsStored(s, l);
    RefreshSucceedsExactly(Do(s, l), l.id, next);
  }

  /** A login succeeds exactly with ids and a token that are set, at a set time. */
  lemma LoginSucceedsExactly(s: Sys, l: Label)
    requires Sound(s) && l.Login? && Fresh(s, l)
    ensures LoginTx(s.rows, l.user, l.id, l.family, l.digest, l.now).1.Issued? <==>
            l.user != 0 && l.id != 0 && l.family != 0 && l.digest != 0 && l.now != 0
  {
    forall i | i in s.rows ensures i != l.id && s.rows[i].digest != l.digest && s.rows[i].family != l.family {
      assert RowOk(s, i);
    }
    GoodLinksResolve(s);
  }
}
