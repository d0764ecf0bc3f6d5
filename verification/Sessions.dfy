/** Refresh sessions: the domain rules, the table statements and the transactions over them.
  *
  * Ids and token digests are naturals with 0 for the zero value; digests are injective in the token.
  * Instants are microseconds, as stored; 0 is the unset time.
  */
module Sessions {
  import opened Wrappers

  type Instant = int

  const DAY: int := 24 * 3600 * 1_000_000
  const IDLE_LIFETIME: int := 30 * DAY
  const ABSOLUTE_LIMIT: int := 90 * DAY
  const LOGOUT := "current_session_logout"
  const REPLAY := "refresh_token_reuse"

  datatype State = Active | Replaced | Revoked | Expired

  datatype Session = Session(
    id: nat,
    family: nat,
    user: nat,
    digest: nat,
    state: State,
    replacement: Option<nat>,
    createdAt: Instant,
    replacedAt: Option<Instant>,
    idleExpiresAt: Instant,
    absoluteExpiresAt: Instant,
    revokedAt: Option<Instant>,
    reason: string)

  datatype SessionError =
    | InvalidSession
    | InvalidReplacement
    | InvalidRevocation
    | SessionReplaced
    | SessionRevoked
    | SessionExpired
    | Conflict

  // ----- The domain rules -----

  predicate IsBlank(text: string) {
    forall i :: 0 <= i < |text| ==> text[i] in " \t\n\r"
  }

  predicate ValidReason(reason: string) {
    !IsBlank(reason) && |reason| <= 128
  }

  function ValidateLifecycle(s: Session): Option<SessionError> {
    var hasReplacement := s.replacement.Some? || s.replacedAt.Some?;
    var hasRevocation := s.revokedAt.Some? || s.reason != "";
    if s.replacement == Some(0) then Some(InvalidReplacement)
    else if s.replacement == Some(s.id) then Some(InvalidReplacement)
    else if s.replacement.None? != s.replacedAt.None? then Some(InvalidSession)
    else if s.replacedAt.Some? && s.replacedAt.value < s.createdAt then Some(InvalidSession)
    else if s.revokedAt.None? != (s.reason == "") then Some(InvalidRevocation)
    else if s.revokedAt.Some?
      && (s.revokedAt.value < s.createdAt || !ValidReason(s.reason)) then Some(InvalidRevocation)
    else match s.state
      case Active => if hasReplacement || hasRevocation then Some(InvalidSession) else None
      case Expired => if hasReplacement || hasRevocation then Some(InvalidSession) else None
      case Replaced => if !hasReplacement || hasRevocation then Some(InvalidSession) else None
      case Revoked => if !hasRevocation then Some(InvalidSession) else None
  }

  function NewRefreshSession(s: Session): (r: Result<Session, SessionError>)
    ensures r.Success? ==> r.value == s
  {
    if s.id == 0 || s.family == 0 || s.user == 0 || s.digest == 0 then Failure(InvalidSession)
    else if s.createdAt == 0 || s.idleExpiresAt <= s.createdAt || s.absoluteExpiresAt <= s.createdAt
      || s.idleExpiresAt > s.absoluteExpiresAt
    then Failure(InvalidSession)
    else
      var error := ValidateLifecycle(s);
      if error.Some? then Failure(error.value) else Success(s)
  }

  predicate IsValid(s: Session) {
    NewRefreshSession(s).Success?
  }

  function NewActive(
    id: nat, family: nat, user: nat, digest: nat, createdAt: Instant, idle: Instant,
    absolute: Instant): Result<Session, SessionError> {
    NewRefreshSession(Session(id, family, user, digest, Active, None, createdAt, None, idle, absolute, None, ""))
  }

  predicate IsExpiredAt(s: Session, now: Instant) {
    s.state.Expired? || now >= s.idleExpiresAt || now >= s.absoluteExpiresAt
  }

  predicate IsActiveAt(s: Session, now: Instant) {
    s.state.Active? && !IsExpiredAt(s, now)
  }

  function ReplacementEligibility(s: Session, now: Instant): Option<SessionError> {
    match s.state
    case Replaced => Some(SessionReplaced)
    case Revoked => Some(SessionRevoked)
    case Expired => Some(SessionExpired)
    case Active => if IsExpiredAt(s, now) then Some(SessionExpired) else None
  }

  datatype Rotation = Rotation(replaced: Session, replacement: Session)

  function PlanReplacement(
    s: Session, id: nat, digest: nat, now: Instant, idle: Instant): Result<Rotation, SessionError> {
    var ineligible := ReplacementEligibility(s, now);
    if ineligible.Some? then Failure(ineligible.value)
    else if id == 0 || id == s.id then Failure(InvalidReplacement)
    else
      var replacement := NewActive(id, s.family, s.user, digest, now, idle, s.absoluteExpiresAt);
      if replacement.Failure? then Failure(InvalidReplacement)
      else
        var replaced := NewRefreshSession(s.(state := Replaced, replacement := Some(id), replacedAt := Some(now),
                                             revokedAt := None, reason := ""));
        if replaced.Failure? then Failure(replaced.error)
        else Success(Rotation(replaced.value, replacement.value))
  }

  function Revoke(s: Session, at: Instant, reason: string): Result<Session, SessionError> {
    if s.state.Revoked? then Failure(SessionRevoked)
    else if at < s.createdAt || !ValidReason(reason) then Failure(InvalidRevocation)
    else NewRefreshSession(s.(state := Revoked, revokedAt := Some(at), reason := reason))
  }

  /** A rotation keeps family, user and absolute expiry, and hands over at one instant. */
  lemma RotationHandsOver(s: Session, id: nat, digest: nat, now: Instant, idle: Instant)
    requires IsValid(s)
    ensures PlanReplacement(s, id, digest, now, idle).Success? <==>
            IsActiveAt(s, now) && id != 0 && id != s.id && digest != 0 && now != 0
            && s.createdAt <= now < idle <= s.absoluteExpiresAt
    ensures PlanReplacement(s, id, digest, now, idle).Success? ==>
              var Rotation(last, next) := PlanReplacement(s, id, digest, now, idle).value;
              && IsValid(last) && IsValid(next) && !IsActiveAt(last, now) && IsActiveAt(next, now)
              && last.replacement == Some(next.id) && last.replacedAt == Some(next.createdAt)
              && next.family == last.family == s.family && next.user == last.user == s.user
              && next.absoluteExpiresAt == last.absoluteExpiresAt == s.absoluteExpiresAt
              && last == s.(state := Replaced, replacement := last.replacement, replacedAt := last.replacedAt)
  {
  }

  // ----- The table -----

  type Rows = map<nat, Session>

  /** The check constraints of the table. */
  predicate MeetsChecks(s: Session) {
    && s.replacement != Some(s.id)
    && s.createdAt < s.idleExpiresAt <= s.absoluteExpiresAt
    && (s.replacedAt.Some? ==> s.createdAt <= s.replacedAt.value)
    && (s.revokedAt.Some? ==> s.createdAt <= s.revokedAt.value)
    && (s.reason != "" ==> ValidReason(s.reason))
    && match s.state
       case Active => s.replacement.None? && s.replacedAt.None? && s.revokedAt.None? && s.reason == ""
       case Expired => s.replacement.None? && s.replacedAt.None? && s.revokedAt.None? && s.reason == ""
       case Replaced => s.replacement.Some? && s.replacedAt.Some? && s.revokedAt.None? && s.reason == ""
       case Revoked => s.revokedAt.Some? && s.reason != ""
  }

  ghost predicate UniqueDigests(rows: Rows) {
    forall i, j :: i in rows && j in rows && rows[i].digest == rows[j].digest ==> i == j
  }

  /** The deferred foreign key, checked when a transaction commits. */
  predicate LinksResolve(rows: Rows) {
    forall id :: id in rows && rows[id].replacement.Some? ==>
      rows[id].replacement.value in rows && rows[rows[id].replacement.value].family == rows[id].family
  }

  /** The unique indexes on id, digest and active family. */
  predicate Clashes(rows: Rows, s: Session) {
    s.id in rows || exists id ::
      id in rows && (rows[id].digest == s.digest || (rows[id].family == s.family && rows[id].state.Active?))
  }

  function Inserted(rows: Rows, s: Session): Result<Rows, SessionError> {
    if Clashes(rows, s) || !MeetsChecks(s) then Failure(Conflict) else Success(rows[s.id := s])
  }

  function MarkedReplaced(rows: Rows, id: nat, replacement: nat, at: Instant): Result<Rows, SessionError> {
    if id !in rows || !rows[id].state.Active? then Failure(Conflict)
    else
      var s := rows[id].(state := Replaced, replacement := Some(replacement), replacedAt := Some(at));
      if !MeetsChecks(s) then Failure(Conflict) else Success(rows[id := s])
  }

  function RevokedRow(s: Session, at: Instant, reason: string): Session {
    s.(state := Revoked, revokedAt := Some(at), reason := reason)
  }

  predicate InFamily(rows: Rows, id: nat, family: nat) {
    id in rows && rows[id].family == family
  }

  function FamilyRevoked(rows: Rows, family: nat, at: Instant, reason: string): Rows {
    map id | id in rows ::
      if rows[id].family == family && !rows[id].state.Revoked? then RevokedRow(rows[id], at, reason) else rows[id]
  }

  /** One refused row fails the whole statement. */
  function RevokedFamily(rows: Rows, family: nat, at: Instant, reason: string): Result<Rows, SessionError> {
    if at == 0 then Failure(InvalidRevocation)
    else if exists id ::
              && id in rows && InFamily(rows, id, family) && !rows[id].state.Revoked?
              && !MeetsChecks(RevokedRow(rows[id], at, reason))
    then Failure(Conflict)
    else Success(FamilyRevoked(rows, family, at, reason))
  }

  function MarkedExpired(rows: Rows, asOf: Instant): Rows {
    map id | id in rows ::
      if rows[id].state.Active? && (rows[id].idleExpiresAt <= asOf || rows[id].absoluteExpiresAt <= asOf)
      then rows[id].(state := Expired) else rows[id]
  }

  predicate Inactive(s: Session, cutoff: Instant) {
    || (s.state.Replaced? && s.replacedAt.Some? && s.replacedAt.value < cutoff)
    || (s.state.Revoked? && s.revokedAt.Some? && s.revokedAt.value < cutoff)
    || (s.state.Expired? && s.absoluteExpiresAt < cutoff)
  }

  function WithoutInactive(rows: Rows, cutoff: Instant): Rows {
    map id | id in rows && !Inactive(rows[id], cutoff) :: rows[id]
  }

  ghost function FindByDigest(rows: Rows, digest: nat): (found: Option<nat>)
    ensures found.Some? ==> found.value in rows && rows[found.value].digest == digest
    ensures found.None? ==> forall id :: id in rows ==> rows[id].digest != digest
  {
    if id :| id in rows && rows[id].digest == digest then Some(id) else None
  }

  // ----- The transactions -----

  datatype Outcome = Issued(session: nat) | Rejected | RateLimited | LoggedOut | ServiceError

  /** What a refresh reads from its surroundings. */
  datatype RefreshInput = RefreshInput(
    digest: nat, now: Instant, userActive: bool, allowed: bool, credential: bool, newId: nat, newDigest: nat,
    signed: bool)

  function MinTime(a: Instant, b: Instant): Instant {
    if a < b then a else b
  }

  function Plan(s: Session, input: RefreshInput): Result<Rotation, SessionError> {
    PlanReplacement(s, input.newId, input.newDigest, input.now, MinTime(input.now + IDLE_LIFETIME, s.absoluteExpiresAt))
  }

  function Commit(before: Rows, after: Result<Rows, SessionError>, outcome: Outcome): (Rows, Outcome) {
    if after.Success? && LinksResolve(after.value) then (after.value, outcome) else (before, ServiceError)
  }

  function Rotated(rows: Rows, id: nat, rotation: Rotation): Result<Rows, SessionError> {
    var marked := MarkedReplaced(rows, id, rotation.replacement.id, rotation.replacement.createdAt);
    if marked.Failure? then marked else Inserted(marked.value, rotation.replacement)
  }

  ghost function RefreshTx(rows: Rows, input: RefreshInput): (Rows, Outcome) {
    var found := FindByDigest(rows, input.digest);
    if found.None? then (rows, Rejected)
    else
      var s := rows[found.value];
      if s.state.Replaced? || s.state.Revoked? then
        Commit(rows, RevokedFamily(rows, s.family, input.now, REPLAY), Rejected)
      else if IsExpiredAt(s, input.now) || !input.userActive then (rows, Rejected)
      else if !input.allowed then (rows, RateLimited)
      else if !input.credential then (rows, ServiceError)
      else
        var plan := Plan(s, input);
        if plan.Failure? then (rows, Rejected)
        else if !input.signed then (rows, ServiceError)
        else Commit(rows, Rotated(rows, found.value, plan.value), Issued(input.newId))
  }

  function LoginTx(rows: Rows, user: nat, id: nat, family: nat, digest: nat, now: Instant): (Rows, Outcome) {
    var session := NewActive(id, family, user, digest, now, now + IDLE_LIFETIME, now + ABSOLUTE_LIMIT);
    if session.Failure? then (rows, ServiceError)
    else Commit(rows, Inserted(rows, session.value), Issued(id))
  }

  ghost function LogoutTx(rows: Rows, digest: nat, now: Instant): (Rows, Outcome) {
    var found := FindByDigest(rows, digest);
    if found.None? || !IsActiveAt(rows[found.value], now) then (rows, Rejected)
    else Commit(rows, RevokedFamily(rows, rows[found.value].family, now, LOGOUT), LoggedOut)
  }

  function Cleanup(rows: Rows, cutoff: Instant): Rows {
    if LinksResolve(WithoutInactive(rows, cutoff)) then WithoutInactive(rows, cutoff) else rows
  }

  // ----- The same transactions, statement by statement -----

  class Store {
    var rows: Rows

    constructor ()
      ensures rows == map[]
    {
      rows := map[];
    }

    method LockByDigest(digest: nat) returns (found: Option<nat>)
      requires UniqueDigests(rows)
      ensures found == FindByDigest(rows, digest)
    {
      if id :| id in rows && rows[id].digest == digest {
        found := Some(id);
      } else {
        found := None;
      }
    }

    method Insert(s: Session) returns (error: Option<SessionError>)
      modifies this
      ensures error.None? <==> Inserted(old(rows), s).Success?
      ensures rows == if error.None? then Inserted(old(rows), s).value else old(rows)
      ensures rows == if error.None? then old(rows)[s.id := s] else old(rows)
      ensures s.id in old(rows) || (exists id :: id in old(rows) && old(rows)[id].digest == s.digest) ==> error.Some?
    {
      if Clashes(rows, s) || !MeetsChecks(s) {
        return Some(Conflict);
      }
      rows := rows[s.id := s];
      error := None;
    }

    method MarkReplaced(id: nat, replacement: nat, at: Instant) returns (error: Option<SessionError>)
      modifies this
      ensures error.None? <==> MarkedReplaced(old(rows), id, replacement, at).Success?
      ensures rows == if error.None? then MarkedReplaced(old(rows), id, replacement, at).value else old(rows)
      ensures error.None? ==>
                && id in old(rows) && old(rows)[id].state == Active
                && rows == old(rows)[id := old(rows)[id].(state := Replaced, replacement := Some(replacement),
                                                          replacedAt := Some(at))]
    {
      if id !in rows || !rows[id].state.Active? {
        return Some(Conflict);
      }
      var s := rows[id].(state := Replaced, replacement := Some(replacement), replacedAt := Some(at));
      if !MeetsChecks(s) {
        return Some(Conflict);
      }
      rows := rows[id := s];
      error := None;
    }

    /** Row by row; the first refused row undoes the statement. */
    method RevokeFamily(family: nat, at: Instant, reason: string) returns (error: Option<SessionError>)
      modifies this
      ensures error.None? <==> RevokedFamily(old(rows), family, at, reason).Success?
      ensures rows == if error.None? then RevokedFamily(old(rows), family, at, reason).value else old(rows)
      ensures error.None? ==>
                && rows.Keys == old(rows).Keys
                && forall id :: id in rows ==>
                     rows[id] == if old(rows)[id].family == family && old(rows)[id].state != Revoked
                                 then old(rows)[id].(state := Revoked, revokedAt := Some(at), reason := reason)
                                 else old(rows)[id]
    {
      if at == 0 {
        return Some(InvalidRevocation);
      }
      var saved := rows;
      var rest := rows.Keys;
      while rest != {}
        invariant rest <= saved.Keys && rows.Keys == saved.Keys
        invariant forall id :: id in rest ==> rows[id] == saved[id]
        invariant forall id :: id in saved && id !in rest ==> rows[id] == FamilyRevoked(saved, family, at, reason)[id]
        invariant forall id ::
                    id in saved && id !in rest && saved[id].family == family && !saved[id].state.Revoked? ==>
                    MeetsChecks(rows[id])
        decreases rest
      {
        var id :| id in rest;
        if rows[id].family == family && !rows[id].state.Revoked? {
          var s := rows[id].(state := Revoked, revokedAt := Some(at), reason := reason);
          if !MeetsChecks(s) {
            rows := saved;
            assert InFamily(saved, id, family);
            return Some(Conflict);
          }
          rows := rows[id := s];
        }
        rest := rest - {id};
      }
      error := None;
    }

    method MarkExpired(asOf: Instant)
      modifies this
      ensures rows == MarkedExpired(old(rows), asOf)
      ensures rows.Keys == old(rows).Keys
      ensures forall id :: id in rows ==>
                var r := old(rows)[id];
                rows[id] == if r.state == Active && (r.idleExpiresAt <= asOf || r.absoluteExpiresAt <= asOf)
                            then r.(state := Expired) else r
    {
      var saved := rows;
      var rest := rows.Keys;
      while rest != {}
        invariant rest <= saved.Keys && rows.Keys == saved.Keys
        invariant forall id :: id in rest ==> rows[id] == saved[id]
        invariant forall id :: id in saved && id !in rest ==> rows[id] == MarkedExpired(saved, asOf)[id]
        decreases rest
      {
        var id :| id in rest;
        if rows[id].state.Active? && (rows[id].idleExpiresAt <= asOf || rows[id].absoluteExpiresAt <= asOf) {
          rows := rows[id := rows[id].(state := Expired)];
        }
        rest := rest - {id};
      }
    }

    method DeleteInactiveBefore(cutoff: Instant) returns (error: Option<SessionError>)
      modifies this
      ensures rows == Cleanup(old(rows), cutoff)
      ensures error.None? <==> LinksResolve(WithoutInactive(old(rows), cutoff))
      ensures error.None? ==>
                forall id :: id in old(rows) ==>
                  var r := old(rows)[id];
                  && (id in rows ==> rows[id] == r)
                  && (id !in rows <==>
                        || (r.state == Replaced && r.replacedAt.Some? && r.replacedAt.value < cutoff)
                        || (r.state == Revoked && r.revokedAt.Some? && r.revokedAt.value < cutoff)
                        || (r.state == Expired && r.absoluteExpiresAt < cutoff))
    {
      var saved := rows;
      var rest := rows.Keys;
      while rest != {}
        invariant rest <= rows.Keys <= saved.Keys
        invariant forall id :: id in rows ==> rows[id] == saved[id]
        invariant forall id :: id in saved && id !in rest ==> (id in rows <==> !Inactive(saved[id], cutoff))
        decreases rest
      {
        var id :| id in rest;
        if Inactive(rows[id], cutoff) {
          rows := rows - {id};
        }
        rest := rest - {id};
      }
      assert rows == WithoutInactive(saved, cutoff);
      if !LinksResolve(rows) {
        rows := saved;
        return Some(Conflict);
      }
      error := None;
    }

    /** Commits unless a statement failed or a link dangles. */
    method Finish(saved: Rows, error: Option<SessionError>, outcome: Outcome) returns (settled: Outcome)
      modifies this
      ensures (rows, settled)
              == Commit(saved, if error.None? then Success(old(rows)) else Failure(error.value), outcome)
    {
      if error.Some? || !LinksResolve(rows) {
        rows := saved;
        return ServiceError;
      }
      settled := outcome;
    }

    method CreateLoginSession(user: nat, id: nat, family: nat, digest: nat, now: Instant) returns (outcome: Outcome)
      modifies this
      ensures (rows, outcome) == LoginTx(old(rows), user, id, family, digest, now)
    {
      var session := NewActive(id, family, user, digest, now, now + IDLE_LIFETIME, now + ABSOLUTE_LIMIT);
      if session.Failure? {
        return ServiceError;
      }
      var saved := rows;
      var error := Insert(session.value);
      outcome := Finish(saved, error, Issued(id));
    }

    method Refresh(input: RefreshInput) returns (outcome: Outcome)
      requires UniqueDigests(rows)
      modifies this
      ensures (rows, outcome) == RefreshTx(old(rows), input)
    {
      var saved := rows;
      var error;
      var found := LockByDigest(input.digest);
      if found.None? {
        return Rejected;
      }
      var s := rows[found.value];
      if s.state.Replaced? || s.state.Revoked? {
        error := RevokeFamily(s.family, input.now, REPLAY);
        outcome := Finish(saved, error, Rejected);
        return;
      }
      if IsExpiredAt(s, input.now) || !input.userActive {
        return Rejected;
      }
      if !input.allowed {
        return RateLimited;
      }
      if !input.credential {
        return ServiceError;
      }
      var plan := Plan(s, input);
      if plan.Failure? {
        return Rejected;
      }
      if !input.signed {
        return ServiceError;
      }
      error := MarkReplaced(found.value, plan.value.replacement.id, plan.value.replacement.createdAt);
      if error.None? {
        error := Insert(plan.value.replacement);
      }
      outcome := Finish(saved, error, Issued(input.newId));
    }

    method Logout(digest: nat, now: Instant) returns (outcome: Outcome)
      requires UniqueDigests(rows)
      modifies this
      ensures (rows, outcome) == LogoutTx(old(rows), digest, now)
    {
      var saved := rows;
      var found := LockByDigest(digest);
      if found.None? || !IsActiveAt(rows[found.value], now) {
        return Rejected;
      }
      var error := RevokeFamily(rows[found.value].family, now, LOGOUT);
      outcome := Finish(saved, error, LoggedOut);
    }
  }
}
