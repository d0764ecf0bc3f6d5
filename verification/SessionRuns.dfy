/** Token families over whole runs of logins, refreshes, logouts, expiry marking and cleanup.
  *
  * Each transaction is one step. A journal beside the table remembers every family's origin, the
  * generation of every session, the family of every digest ever issued and the digests used up.
  */
module SessionRuns {
  import opened Wrappers
  import opened Sessions

  datatype Origin = Origin(user: nat, born: Instant, tip: nat, revokedAt: Option<Instant>)

  datatype Sys = Sys(
    rows: Rows,
    origins: map<nat, Origin>,
    generation: map<nat, nat>,
    issued: map<nat, nat>,
    refreshed: seq<nat>)

  datatype Label =
    | Login(user: nat, id: nat, family: nat, digest: nat, now: Instant)
    | Refresh(input: RefreshInput)
    | Logout(digest: nat, now: Instant)
    | MarkExpired(asOf: Instant)
    | DeleteInactive(cutoff: Instant)

  const EMPTY: Sys := Sys(map[], map[], map[], map[], [])

  /** Ids and tokens are drawn at random: they never repeat. */
  predicate Fresh(s: Sys, l: Label) {
    match l
    case Login(_, id, family, digest, _) => id !in s.generation && family !in s.origins && digest !in s.issued
    case Refresh(input) => input.newId !in s.generation && input.newDigest !in s.issued
    case _ => true
  }

  /** The journal entry of a revocation; a family is revoked once. */
  function Revoking(s: Sys, family: nat, at: Instant): map<nat, Origin> {
    if family in s.origins && s.origins[family].revokedAt.None?
    then s.origins[family := s.origins[family].(revokedAt := Some(at))]
    else s.origins
  }

  ghost function DoLogin(s: Sys, l: Label): Sys
    requires l.Login?
  {
    var (rows, outcome) := LoginTx(s.rows, l.user, l.id, l.family, l.digest, l.now);
    if !outcome.Issued? then s
    else Sys(rows, s.origins[l.family := Origin(l.user, l.now, l.id, None)], s.generation[l.id := 0],
             s.issued[l.digest := l.family], s.refreshed)
  }

  ghost function DoRefresh(s: Sys, input: RefreshInput): Sys {
    var (rows, outcome) := RefreshTx(s.rows, input);
    var found := FindByDigest(s.rows, input.digest);
    if found.None? then s
    else
      var family := s.rows[found.value].family;
      if outcome.Issued? && family in s.origins && found.value in s.generation then
        Sys(rows, s.origins[family := s.origins[family].(tip := input.newId)],
            s.generation[input.newId := s.generation[found.value] + 1], s.issued[input.newDigest := family],
            s.refreshed + [input.digest])
      else if outcome.Rejected? && (s.rows[found.value].state.Replaced? || s.rows[found.value].state.Revoked?) then
        s.(rows := rows, origins := Revoking(s, family, input.now))
      else s
  }

  ghost function DoLogout(s: Sys, digest: nat, now: Instant): Sys {
    var (rows, outcome) := LogoutTx(s.rows, digest, now);
    if !outcome.LoggedOut? then s
    else s.(rows := rows, origins := Revoking(s, s.rows[FindByDigest(s.rows, digest).value].family, now))
  }

  ghost function Do(s: Sys, l: Label): Sys {
    if !Fresh(s, l) then s
    else match l
      case Login(_, _, _, _, _) => DoLogin(s, l)
      case Refresh(input) => DoRefresh(s, input)
      case Logout(digest, now) => DoLogout(s, digest, now)
      case MarkExpired(asOf) => s.(rows := MarkedExpired(s.rows, asOf))
      case DeleteInactive(cutoff) => s.(rows := Cleanup(s.rows, cutoff))
  }

  ghost function DoAll(s: Sys, labels: seq<Label>): Sys
    decreases |labels|
  {
    if labels == [] then s else DoAll(Do(s, labels[0]), labels[1..])
  }

  // ----- The invariant -----

  ghost predicate BelongsTo(r: Session, o: Origin) {
    && r.user == o.user && r.absoluteExpiresAt == o.born + ABSOLUTE_LIMIT && o.born <= r.createdAt
    && r.idleExpiresAt <= r.createdAt + IDLE_LIFETIME
    && (r.replacement.None? <==> r.id == o.tip)
    && (r.state.Revoked? <==> o.revokedAt.Some?)
    && (r.state.Revoked? ==> r.revokedAt == o.revokedAt)
  }

  /** What the lifecycle rules say about the optional fields and the order of instants. */
  predicate Shape(r: Session) {
    && (r.replacement.Some? <==> r.replacedAt.Some?)
    && (r.replacedAt.Some? ==> r.createdAt <= r.replacedAt.value)
    && r.createdAt < r.absoluteExpiresAt
    && (r.state.Active? || r.state.Expired? ==> r.replacement.None?)
    && (r.state.Replaced? ==> r.replacement.Some?)
    && (r.state.Revoked? <==> r.revokedAt.Some?)
  }

  lemma ValidShape(r: Session)
    requires IsValid(r)
    ensures Shape(r)
  {
  }

  ghost predicate RowOk(s: Sys, id: nat)
    requires id in s.rows
  {
    var r := s.rows[id];
    && r.id == id && Shape(r) && id in s.generation && r.digest in s.issued && s.issued[r.digest] == r.family
    && r.family in s.origins && BelongsTo(r, s.origins[r.family])
  }

  ghost predicate RowsOk(s: Sys) {
    forall id :: id in s.rows ==> RowOk(s, id)
  }

  /** Every stored row is one the domain would accept. */
  ghost predicate AllValid(rows: Rows) {
    forall id :: id in rows ==> IsValid(rows[id])
  }

  /** A replacement is the next generation of the same family, created when its predecessor was replaced. */
  ghost predicate Follows(s: Sys, r: Session, next: Session) {
    && next.family == r.family && r.replacedAt == Some(next.createdAt)
    && r.id in s.generation && next.id in s.generation && s.generation[next.id] == s.generation[r.id] + 1
  }

  ghost predicate LinkOk(s: Sys, id: nat)
    requires id in s.rows
  {
    var next := s.rows[id].replacement;
    next.Some? ==> next.value in s.rows && Follows(s, s.rows[id], s.rows[next.value])
  }

  ghost predicate LinksOk(s: Sys) {
    forall id :: id in s.rows ==> LinkOk(s, id)
  }

  predicate SameGeneration(s: Sys, i: nat, j: nat) {
    && i in s.rows && j in s.rows && i in s.generation && j in s.generation
    && s.rows[i].family == s.rows[j].family && s.generation[i] == s.generation[j]
  }

  predicate UpToTip(s: Sys, id: nat)
    requires id in s.rows
  {
    id in s.generation && s.rows[id].family in s.origins ==>
      var tip := s.origins[s.rows[id].family].tip; tip in s.generation && s.generation[id] <= s.generation[tip]
  }

  ghost predicate GenerationsOk(s: Sys) {
    && (forall i, j :: SameGeneration(s, i, j) ==> i == j)
    && (forall id :: id in s.rows ==> UpToTip(s, id))
  }

  ghost predicate RefreshedOk(s: Sys) {
    && (forall i, j :: 0 <= i < j < |s.refreshed| ==> s.refreshed[i] != s.refreshed[j])
    && (forall d :: d in s.refreshed ==> d in s.issued && s.issued[d] in s.origins)
    && (forall id :: id in s.rows ==> (s.rows[id].digest in s.refreshed <==> s.rows[id].replacement.Some?))
  }

  ghost predicate Good(s: Sys) {
    RowsOk(s) && UniqueDigests(s.rows) && LinksOk(s) && GenerationsOk(s) && RefreshedOk(s)
  }

  lemma GoodLinksResolve(s: Sys)
    requires LinksOk(s)
    ensures LinksResolve(s.rows)
  {
    forall id | id in s.rows && s.rows[id].replacement.Some?
      ensures s.rows[id].replacement.value in s.rows && s.rows[s.rows[id].replacement.value].family == s.rows[id].family
    {
      assert LinkOk(s, id);
    }
  }

  // ----- Login -----

  /** A family's first session. */
  ghost predicate IsFirst(r: Session, l: Label) {
    && l.Login? && r.id == l.id && r.family == l.family && r.user == l.user && r.digest == l.digest
    && r.createdAt == l.now && r.state.Active? && r.absoluteExpiresAt == l.now + ABSOLUTE_LIMIT
    && r.idleExpiresAt == l.now + IDLE_LIFETIME && IsValid(r)
  }

  lemma LoginInserts(rows: Rows, l: Label) returns (r: Session)
    requires l.Login? && LoginTx(rows, l.user, l.id, l.family, l.digest, l.now).1.Issued?
    ensures IsFirst(r, l) && l.id !in rows
            && LoginTx(rows, l.user, l.id, l.family, l.digest, l.now).0 == rows[l.id := r]
  {
    r := NewActive(l.id, l.family, l.user, l.digest, l.now, l.now + IDLE_LIFETIME, l.now + ABSOLUTE_LIMIT).value;
  }

  ghost function AfterLogin(s: Sys, l: Label, r: Session): Sys
    requires l.Login?
  {
    Sys(s.rows[l.id := r], s.origins[l.family := Origin(l.user, l.now, l.id, None)], s.generation[l.id := 0],
        s.issued[l.digest := l.family], s.refreshed)
  }

  lemma LoginKeepsRows(s: Sys, l: Label, r: Session)
    requires RowsOk(s) && UniqueDigests(s.rows) && l.Login? && Fresh(s, l) && IsFirst(r, l) && Shape(r)
    ensures RowsOk(AfterLogin(s, l, r)) && UniqueDigests(AfterLogin(s, l, r).rows)
  {
    var s' := AfterLogin(s, l, r);
    forall id | id in s'.rows ensures RowOk(s', id) {
      assert id != l.id ==> RowOk(s, id);
    }
    forall i, j | i in s'.rows && j in s'.rows && s'.rows[i].digest == s'.rows[j].digest ensures i == j {
      assert i != l.id ==> RowOk(s, i);
      assert j != l.id ==> RowOk(s, j);
    }
  }

  lemma LoginKeepsLinks(s: Sys, l: Label, r: Session)
    requires RowsOk(s) && LinksOk(s) && GenerationsOk(s) && RefreshedOk(s)
    requires l.Login? && Fresh(s, l) && IsFirst(r, l) && Shape(r)
    ensures LinksOk(AfterLogin(s, l, r)) && GenerationsOk(AfterLogin(s, l, r)) && RefreshedOk(AfterLogin(s, l, r))
  {
    var s' := AfterLogin(s, l, r);
    forall id | id in s'.rows ensures LinkOk(s', id) && UpToTip(s', id) {
      if id != l.id { assert RowOk(s, id) && LinkOk(s, id) && UpToTip(s, id); }
    }
    forall i, j | SameGeneration(s', i, j) ensures i == j {
      assert i != l.id ==> RowOk(s, i);
      assert j != l.id ==> RowOk(s, j);
      assert i != l.id && j != l.id ==> SameGeneration(s, i, j);
    }
  }

  lemma LoginKeepsGood(s: Sys, l: Label)
    requires Good(s) && l.Login? && Fresh(s, l)
    ensures Good(DoLogin(s, l)) && (AllValid(s.rows) ==> AllValid(DoLogin(s, l).rows))
  {
    if LoginTx(s.rows, l.user, l.id, l.family, l.digest, l.now).1.Issued? {
      var r := LoginInserts(s.rows, l);
      ValidShape(r);
      LoginKeepsRows(s, l, r);
      LoginKeepsLinks(s, l, r);
    }
  }

  // ----- Rotation -----

  ghost predicate IsRotation(r: Session, rotation: Rotation) {
    var last, next := rotation.replaced, rotation.replacement;
    && r.state.Active?
    && last == r.(state := Replaced, replacement := Some(next.id), replacedAt := Some(next.createdAt))
    && next.family == r.family && next.user == r.user && next.absoluteExpiresAt == r.absoluteExpiresAt
    && next.state.Active? && r.createdAt <= next.createdAt && next.idleExpiresAt <= next.createdAt + IDLE_LIFETIME
    && Shape(last) && Shape(next)
  }

  /** An issued refresh is the rotation of the active session under the presented digest. */
  lemma PlanIsRotation(r: Session, input: RefreshInput, rotation: Rotation)
    requires IsValid(r) && Plan(r, input) == Result<Rotation, SessionError>.Success(rotation)
    ensures IsRotation(r, rotation) && IsValid(rotation.replaced) && IsValid(rotation.replacement)
            && IsActiveAt(r, input.now)
    ensures rotation.replacement.id == input.newId && rotation.replacement.digest == input.newDigest
  {
    RotationHandsOver(r, input.newId, input.newDigest, input.now,
                      MinTime(input.now + IDLE_LIFETIME, r.absoluteExpiresAt));
    ValidShape(rotation.replaced);
    ValidShape(rotation.replacement);
  }

  lemma RotatedRows(rows: Rows, id: nat, rotation: Rotation)
    requires id in rows && IsRotation(rows[id], rotation) && Rotated(rows, id, rotation).Success?
    ensures Rotated(rows, id, rotation).value
            == rows[id := rotation.replaced][rotation.replacement.id := rotation.replacement]
    ensures rotation.replacement.id !in rows
  {
  }

  lemma IssuedIsRotation(rows: Rows, input: RefreshInput) returns (id: nat, rotation: Rotation)
    requires AllValid(rows) && RefreshTx(rows, input).1.Issued?
    ensures id in rows && FindByDigest(rows, input.digest) == Some(id) && rows[id].digest == input.digest
    ensures IsRotation(rows[id], rotation) && IsValid(rotation.replaced) && IsValid(rotation.replacement)
    ensures rotation.replacement.id == input.newId && input.newId !in rows
            && rotation.replacement.digest == input.newDigest
    ensures IsActiveAt(rows[id], input.now)
    ensures RefreshTx(rows, input).0 == rows[id := rotation.replaced][input.newId := rotation.replacement]
  {
    id := FindByDigest(rows, input.digest).value;
    rotation := Plan(rows[id], input).value;
    PlanIsRotation(rows[id], input, rotation);
    RotatedRows(rows, id, rotation);
  }

  /** The state after a rotation. */
  ghost function AfterRotation(s: Sys, id: nat, rotation: Rotation): Sys
    requires id in s.rows && id in s.generation && s.rows[id].family in s.origins
  {
    var next := rotation.replacement;
    Sys(s.rows[id := rotation.replaced][next.id := next],
        s.origins[next.family := s.origins[s.rows[id].family].(tip := next.id)],
        s.generation[next.id := s.generation[id] + 1], s.issued[next.digest := next.family],
        s.refreshed + [s.rows[id].digest])
  }

  ghost predicate Rotates(s: Sys, id: nat, rotation: Rotation) {
    && id in s.rows && RowOk(s, id) && IsRotation(s.rows[id], rotation)
    && rotation.replacement.id !in s.generation && rotation.replacement.digest !in s.issued
  }

  lemma RotationKeepsRows(s: Sys, id: nat, rotation: Rotation)
    requires RowsOk(s) && Rotates(s, id, rotation)
    ensures RowsOk(AfterRotation(s, id, rotation))
  {
    var s' := AfterRotation(s, id, rotation);
    forall i | i in s'.rows ensures RowOk(s', i) {
      if i != id && i != rotation.replacement.id {
        assert RowOk(s, i) && s.rows[i].replacement != Some(rotation.replacement.id) ==> RowOk(s, i);
        assert s.rows[i].family == s.rows[id].family ==> s.rows[i].replacement.Some?;
      }
    }
  }

  lemma RotationKeepsDigests(s: Sys, id: nat, rotation: Rotation)
    requires RowsOk(s) && UniqueDigests(s.rows) && Rotates(s, id, rotation)
    ensures UniqueDigests(AfterRotation(s, id, rotation).rows)
  {
    var s' := AfterRotation(s, id, rotation);
    forall i, j | i in s'.rows && j in s'.rows && s'.rows[i].digest == s'.rows[j].digest ensures i == j {
      assert i in s.rows ==> RowOk(s, i);
      assert j in s.rows ==> RowOk(s, j);
    }
  }

  lemma RotationKeepsLinks(s: Sys, id: nat, rotation: Rotation)
    requires RowsOk(s) && LinksOk(s) && Rotates(s, id, rotation)
    ensures LinksOk(AfterRotation(s, id, rotation))
  {
    var s' := AfterRotation(s, id, rotation);
    forall i | i in s'.rows ensures LinkOk(s', i) {
      if i in s.rows {
        assert RowOk(s, i) && LinkOk(s, i);
        if s.rows[i].replacement.Some? { assert RowOk(s, s.rows[i].replacement.value); }
      }
    }
  }

  lemma RotationKeepsGenerations(s: Sys, id: nat, rotation: Rotation)
    requires RowsOk(s) && GenerationsOk(s) && Rotates(s, id, rotation)
    ensures GenerationsOk(AfterRotation(s, id, rotation))
  {
    var s' := AfterRotation(s, id, rotation);
    assert s.origins[s.rows[id].family].tip == id;
    forall i | i in s'.rows ensures UpToTip(s', i) {
      if i in s.rows { assert RowOk(s, i) && UpToTip(s, i); }
    }
    forall i, j | SameGeneration(s', i, j) ensures i == j {
      assert i in s.rows ==> RowOk(s, i) && UpToTip(s, i);
      assert j in s.rows ==> RowOk(s, j) && UpToTip(s, j);
      assert i in s.rows && j in s.rows ==> SameGeneration(s, i, j);
    }
  }

  lemma RotationKeepsRefreshed(s: Sys, id: nat, rotation: Rotation)
    requires RowsOk(s) && UniqueDigests(s.rows) && RefreshedOk(s) && Rotates(s, id, rotation)
    ensures RefreshedOk(AfterRotation(s, id, rotation))
  {
    var s' := AfterRotation(s, id, rotation);
    assert s.rows[id].digest !in s.refreshed;
    forall i | i in s'.rows && s'.rows[i].digest in s'.refreshed ensures s'.rows[i].replacement.Some? {
      assert i in s.rows ==> RowOk(s, i);
    }
  }

  // ----- Steps that only touch state, or delete -----

  /** Rows may change state or go, but keep their identity and their links. */
  ghost predicate Retouched(rows: Rows, rows': Rows) {
    forall id :: id in rows' ==>
      && id in rows && rows'[id].id == rows[id].id && rows'[id].family == rows[id].family
        && rows'[id].digest == rows[id].digest
      && rows'[id].replacement == rows[id].replacement && rows'[id].replacedAt == rows[id].replacedAt
        && rows'[id].createdAt == rows[id].createdAt
  }

  ghost predicate SameTips(origins: map<nat, Origin>, origins': map<nat, Origin>) {
    origins'.Keys == origins.Keys && forall f :: f in origins ==> origins'[f].tip == origins[f].tip
  }

  lemma RetouchedKeepsLinks(s: Sys, rows': Rows, origins': map<nat, Origin>)
    requires UniqueDigests(s.rows) && LinksOk(s) && GenerationsOk(s) && RefreshedOk(s)
    requires Retouched(s.rows, rows') && SameTips(s.origins, origins')
    requires forall id :: id in rows' && rows'[id].replacement.Some? ==> rows'[id].replacement.value in rows'
    ensures var s' := s.(rows := rows', origins := origins');
            UniqueDigests(rows') && LinksOk(s') && GenerationsOk(s') && RefreshedOk(s')
  {
    var s' := s.(rows := rows', origins := origins');
    forall id | id in rows' ensures LinkOk(s', id) && UpToTip(s', id) {
      assert LinkOk(s, id) && UpToTip(s, id);
    }
    forall i, j | SameGeneration(s', i, j) ensures i == j {
      assert SameGeneration(s, i, j);
    }
  }

  lemma RevokedFamilyIs(rows: Rows, family: nat, at: Instant, reason: string)
    requires RevokedFamily(rows, family, at, reason).Success?
    ensures at != 0
    ensures forall id :: id in rows && rows[id].family == family && !rows[id].state.Revoked? ==>
              MeetsChecks(RevokedRow(rows[id], at, reason))
  {
    assert forall id :: id in rows && rows[id].family == family ==> InFamily(rows, id, family);
  }

  lemma RevokedRowIsValid(r: Session, at: Instant, reason: string)
    requires IsValid(r) && !r.state.Revoked? && MeetsChecks(RevokedRow(r, at, reason))
    ensures IsValid(RevokedRow(r, at, reason))
  {
  }

  lemma RevocationKeepsRows(s: Sys, family: nat, at: Instant, reason: string)
    requires RowsOk(s) && family in s.origins
    ensures RowsOk(s.(rows := FamilyRevoked(s.rows, family, at, reason), origins := Revoking(s, family, at)))
  {
    var s' := s.(rows := FamilyRevoked(s.rows, family, at, reason), origins := Revoking(s, family, at));
    forall id | id in s'.rows ensures RowOk(s', id) {
      assert RowOk(s, id);
    }
  }

  lemma RevocationKeepsValid(rows: Rows, family: nat, at: Instant, reason: string)
    requires AllValid(rows) && RevokedFamily(rows, family, at, reason).Success?
    ensures AllValid(FamilyRevoked(rows, family, at, reason))
  {
    var rows' := FamilyRevoked(rows, family, at, reason);
    RevokedFamilyIs(rows, family, at, reason);
    forall id | id in rows' ensures IsValid(rows'[id]) {
      if rows'[id] != rows[id] { RevokedRowIsValid(rows[id], at, reason); }
    }
  }

  lemma RevocationKeepsGood(s: Sys, family: nat, at: Instant, reason: string)
    requires Good(s) && AllValid(s.rows) && family in s.origins
    requires RevokedFamily(s.rows, family, at, reason).Success?
    ensures Good(s.(rows := FamilyRevoked(s.rows, family, at, reason), origins := Revoking(s, family, at)))
    ensures AllValid(FamilyRevoked(s.rows, family, at, reason))
  {
    RevocationKeepsRows(s, family, at, reason);
    GoodLinksResolve(s);
    RetouchedKeepsLinks(s, FamilyRevoked(s.rows, family, at, reason), Revoking(s, family, at));
    RevocationKeepsValid(s.rows, family, at, reason);
  }

  lemma ExpiredRowIsValid(r: Session)
    requires IsValid(r) && r.state.Active?
    ensures IsValid(r.(state := Expired))
  {
  }

  lemma ExpiryKeepsRows(s: Sys, asOf: Instant)
    requires RowsOk(s)
    ensures RowsOk(s.(rows := MarkedExpired(s.rows, asOf)))
  {
    var s' := s.(rows := MarkedExpired(s.rows, asOf));
    forall id | id in s'.rows ensures RowOk(s', id) {
      assert RowOk(s, id);
    }
  }

  lemma ExpiryKeepsValid(rows: Rows, asOf: Instant)
    requires AllValid(rows)
    ensures AllValid(MarkedExpired(rows, asOf))
  {
    var rows' := MarkedExpired(rows, asOf);
    forall id | id in rows' ensures IsValid(rows'[id]) {
      if rows'[id] != rows[id] { ExpiredRowIsValid(rows[id]); }
    }
  }

  lemma ExpiryKeepsGood(s: Sys, asOf: Instant)
    requires Good(s) && AllValid(s.rows)
    ensures Good(s.(rows := MarkedExpired(s.rows, asOf))) && AllValid(MarkedExpired(s.rows, asOf))
  {
    GoodLinksResolve(s);
    RetouchedKeepsLinks(s, MarkedExpired(s.rows, asOf), s.origins);
    ExpiryKeepsRows(s, asOf);
    ExpiryKeepsValid(s.rows, asOf);
  }

  /** If a replacement is old enough to delete, so is the session it replaced. */
  lemma InactiveFromTheStart(s: Sys, id: nat, cutoff: Instant)
    requires RowsOk(s) && LinksOk(s) && id in s.rows && s.rows[id].replacement.Some?
    ensures s.rows[id].replacement.value in s.rows
    ensures Inactive(s.rows[s.rows[id].replacement.value], cutoff) ==> Inactive(s.rows[id], cutoff)
  {
    assert LinkOk(s, id) && RowOk(s, id) && RowOk(s, s.rows[id].replacement.value);
  }

  /** Deleting before any cutoff leaves no surviving session whose replacement is gone, so it always commits. */
  lemma CleanupLeavesNoGap(s: Sys, cutoff: Instant)
    requires RowsOk(s) && LinksOk(s)
    ensures LinksResolve(WithoutInactive(s.rows, cutoff))
    ensures Cleanup(s.rows, cutoff) == WithoutInactive(s.rows, cutoff)
  {
    GoodLinksResolve(s);
    forall id | id in s.rows && s.rows[id].replacement.Some? && !Inactive(s.rows[id], cutoff)
      ensures s.rows[id].replacement.value in WithoutInactive(s.rows, cutoff)
    {
      InactiveFromTheStart(s, id, cutoff);
    }
  }

  lemma CleanupKeepsGood(s: Sys, cutoff: Instant)
    requires Good(s)
    ensures Good(s.(rows := Cleanup(s.rows, cutoff)))
    ensures AllValid(s.rows) ==> AllValid(Cleanup(s.rows, cutoff))
  {
    CleanupLeavesNoGap(s, cutoff);
    var rows' := Cleanup(s.rows, cutoff);
    RetouchedKeepsLinks(s, rows', s.origins);
    forall id | id in rows' ensures RowOk(s.(rows := rows'), id) {
      assert RowOk(s, id);
    }
  }

  // ----- Every step, every run -----

  ghost predicate Sound(s: Sys) {
    Good(s) && AllValid(s.rows)
  }

  lemma IssuedIsAfterRotation(s: Sys, input: RefreshInput) returns (id: nat, rotation: Rotation)
    requires RowsOk(s) && AllValid(s.rows) && Fresh(s, Refresh(input)) && RefreshTx(s.rows, input).1.Issued?
    ensures Rotates(s, id, rotation) && IsValid(rotation.replaced) && IsValid(rotation.replacement)
    ensures s.rows[id].digest == input.digest && rotation.replacement.digest == input.newDigest
            && IsActiveAt(s.rows[id], input.now)
    ensures DoRefresh(s, input) == AfterRotation(s, id, rotation)
  {
    id, rotation := IssuedIsRotation(s.rows, input);
    assert RowOk(s, id);
  }

  lemma RotationKeepsGood(s: Sys, id: nat, rotation: Rotation)
    requires Good(s) && Rotates(s, id, rotation)
    ensures Good(AfterRotation(s, id, rotation))
  {
    RotationKeepsRows(s, id, rotation);
    RotationKeepsDigests(s, id, rotation);
    RotationKeepsLinks(s, id, rotation);
    RotationKeepsGenerations(s, id, rotation);
    RotationKeepsRefreshed(s, id, rotation);
  }

  lemma IssuedKeepsSound(s: Sys, input: RefreshInput)
    requires Sound(s) && Fresh(s, Refresh(input)) && RefreshTx(s.rows, input).1.Issued?
    ensures Sound(DoRefresh(s, input))
  {
    var id, rotation := IssuedIsAfterRotation(s, input);
    RotationKeepsGood(s, id, rotation);
    RotationKeepsValid(s, id, rotation);
  }

  lemma RotationKeepsValid(s: Sys, id: nat, rotation: Rotation)
    requires AllValid(s.rows) && Rotates(s, id, rotation) && IsValid(rotation.replaced) && IsValid(rotation.replacement)
    ensures AllValid(AfterRotation(s, id, rotation).rows)
  {
    var rows' := AfterRotation(s, id, rotation).rows;
    forall i | i in rows' ensures IsValid(rows'[i]) {
      assert i in s.rows || i == rotation.replacement.id;
    }
  }

  /** A refresh that issues nothing changes nothing, or revokes the family of a used token. */
  lemma NotIssued(s: Sys, input: RefreshInput) returns (family: nat)
    requires !RefreshTx(s.rows, input).1.Issued?
    ensures DoRefresh(s, input) == s
            || (RevokedFamily(s.rows, family, input.now, REPLAY).Success?
                && (exists id :: InFamily(s.rows, id, family))
                && DoRefresh(s, input)
                  == s.(rows := FamilyRevoked(s.rows, family, input.now, REPLAY),
                        origins := Revoking(s, family, input.now)))
  {
    var found := FindByDigest(s.rows, input.digest);
    family := 0;
    if found.Some? {
      family := s.rows[found.value].family;
      assert InFamily(s.rows, found.value, family);
    }
  }

  lemma RefreshKeepsSound(s: Sys, input: RefreshInput)
    requires Sound(s) && Fresh(s, Refresh(input))
    ensures Sound(DoRefresh(s, input))
  {
    if RefreshTx(s.rows, input).1.Issued? {
      IssuedKeepsSound(s, input);
    } else {
      var family := NotIssued(s, input);
      if DoRefresh(s, input) != s {
        var id :| InFamily(s.rows, id, family);
        assert RowOk(s, id);
        RevocationKeepsGood(s, family, input.now, REPLAY);
      }
    }
  }

  lemma LogoutKeepsSound(s: Sys, digest: nat, now: Instant)
    requires Sound(s)
    ensures Sound(DoLogout(s, digest, now))
  {
    if LogoutTx(s.rows, digest, now).1.LoggedOut? {
      var id := FindByDigest(s.rows, digest).value;
      assert RowOk(s, id);
      RevocationKeepsGood(s, s.rows[id].family, now, LOGOUT);
    }
  }

  lemma StepKeepsSound(s: Sys, l: Label)
    requires Sound(s)
    ensures Sound(Do(s, l))
  {
    if Fresh(s, l) {
      match l
      case Login(_, _, _, _, _) => LoginKeepsGood(s, l);
      case Refresh(input) => RefreshKeepsSound(s, input);
      case Logout(digest, now) => LogoutKeepsSound(s, digest, now);
      case MarkExpired(asOf) => ExpiryKeepsGood(s, asOf);
      case DeleteInactive(cutoff) => CleanupKeepsGood(s, cutoff);
    }
  }

  lemma EmptyIsSound()
    ensures Sound(EMPTY)
  {
  }

  lemma {:induction false} RunsKeepSound(s: Sys, labels: seq<Label>)
    requires Sound(s)
    ensures Sound(DoAll(s, labels))
    decreases |labels|
  {
    if labels != [] {
      StepKeepsSound(s, labels[0]);
      RunsKeepSound(Do(s, labels[0]), labels[1..]);
    }
  }
}
