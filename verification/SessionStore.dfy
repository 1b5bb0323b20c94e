/**
 The refresh-session table: one function per database access, and a service
 class whose methods are the whole calls when nothing interleaves.

 Encryption is symbolic: a sealed text opens under the associated data it was
 sealed with and under nothing else.  Token hashes are symbolic and injective.
 */
module SessionStore {
  import opened Prelude
  import opened WidgetContext

  datatype TokenHash = TokenHash(token: string)

  /** Associated data of a session's ciphertext. */
  datatype SessionAad = SessionAad(id: string, context: Context)

  datatype Sealed = Sealed(plain: string, aad: SessionAad)

  function Open(s: Sealed, aad: SessionAad): Option<string> {
    if s.aad == aad then Some(s.plain) else None
  }

  function AadFor(id: string, context: Context, le: Collation): SessionAad {
    SessionAad(id, Normalize(context, le))
  }

  datatype Row = Row(context: Context, accessTokenHash: TokenHash, refreshToken: Sealed, expiresAt: int, revokedAt: Option<int>)

  type Table = map<string, Row>

  datatype SessionError =
    | SessionNotFound
    | SessionRevoked
    | SessionExpired
    | AccessTokenMismatch
    | SessionContextMismatch
    | SessionIntegrityFailed
    | SessionConflict

  datatype Loaded = Loaded(context: Context, refreshToken: string)

  /** What a rotation carries from its read to its conditional write; checkedAt is the clock in the where clause. */
  datatype Rotation = Rotation(
    id: string, tenantId: string, previous: TokenHash, next: TokenHash, refreshToken: Sealed, expiresAt: Option<int>, checkedAt: int)

  /** at is the clock in the data of the update. */
  datatype Revocation = Revocation(id: string, tenantId: string, at: int)

  function ContextOf(row: Row, le: Collation): Context {
    Normalize(row.context, le)
  }

  /** assertUsable on the row found under id. */
  function FindUsable(rows: Table, id: string, now: int): Result<Row, SessionError> {
    if id !in rows then Err(SessionNotFound)
    else if rows[id].revokedAt.Some? then Err(SessionRevoked)
    else if rows[id].expiresAt <= now then Err(SessionExpired)
    else Ok(rows[id])
  }

  function NewRow(id: string, context: Context, accessToken: string, refreshToken: string, expiresAt: int, le: Collation): Row {
    var normal := Normalize(context, le);
    Row(normal, TokenHash(accessToken), Sealed(refreshToken, AadFor(id, normal, le)), expiresAt, None)
  }

  function LoadRow(rows: Table, now: int, id: string, accessToken: string, expected: Context, le: Collation)
    : Result<Loaded, SessionError>
  {
    match FindUsable(rows, id, now)
    case Err(e) => Err(e)
    case Ok(row) =>
      if row.accessTokenHash != TokenHash(accessToken) then Err(AccessTokenMismatch)
      else if !ContextMatches(ContextOf(row, le), expected, le) then Err(SessionContextMismatch)
      else match Open(row.refreshToken, AadFor(id, ContextOf(row, le), le))
           case None => Err(SessionIntegrityFailed)
           case Some(refreshToken) => Ok(Loaded(ContextOf(row, le), refreshToken))
  }

  /** The read half of a rotation. */
  function PrepareRotation(rows: Table, now: int, id: string, accessToken: string, context: Context,
                           newAccess: string, newRefresh: string, expiresAt: Option<int>, le: Collation)
    : Result<Rotation, SessionError>
  {
    match FindUsable(rows, id, now)
    case Err(e) => Err(e)
    case Ok(row) =>
      if row.accessTokenHash != TokenHash(accessToken) then Err(SessionConflict)
      else if !ContextMatches(ContextOf(row, le), context, le) then Err(SessionContextMismatch)
      else Ok(Rotation(id, context.tenantId, TokenHash(accessToken), TokenHash(newAccess),
                       Sealed(newRefresh, AadFor(id, ContextOf(row, le), le)), expiresAt, now))
  }

  /** The where clause of the conditional update, built when the row had been read. */
  predicate RotationApplies(rows: Table, r: Rotation) {
    && r.id in rows
    && rows[r.id].context.tenantId == r.tenantId
    && rows[r.id].accessTokenHash == r.previous
    && rows[r.id].revokedAt.None?
    && rows[r.id].expiresAt > r.checkedAt
  }

  function RotatedRow(row: Row, r: Rotation): Row {
    row.(accessTokenHash := r.next, refreshToken := r.refreshToken, expiresAt := r.expiresAt.GetOr(row.expiresAt))
  }

  /** The write half of a rotation: an unmatched where clause changes nothing. */
  function ApplyRotation(rows: Table, r: Rotation): Table {
    if RotationApplies(rows, r) then rows[r.id := RotatedRow(rows[r.id], r)] else rows
  }

  function PrepareRevocation(rows: Table, now: int, id: string, expected: Context, le: Collation)
    : Result<Revocation, SessionError>
  {
    match FindUsable(rows, id, now)
    case Err(e) => Err(e)
    case Ok(row) =>
      if !ContextMatches(ContextOf(row, le), expected, le) then Err(SessionContextMismatch)
      else Ok(Revocation(id, expected.tenantId, now))
  }

  /** The refusals that load, rotation and revocation share, in their order. */
  predicate Unusable(rows: Table, id: string, now: int, error: SessionError) {
    if id !in rows then error == SessionNotFound
    else if rows[id].revokedAt.Some? then error == SessionRevoked
    else rows[id].expiresAt <= now && error == SessionExpired
  }

  /** Each refusal of the three operations has its own cause; a spent token is a mismatch for a read and a conflict for a rotation. */
  lemma RefusalsAre(rows: Table, now: int, id: string, access: string, context: Context,
                    newAccess: string, newRefresh: string, expiresAt: Option<int>, le: Collation)
    ensures
      var load := LoadRow(rows, now, id, access, context, le);
      var rotation := PrepareRotation(rows, now, id, access, context, newAccess, newRefresh, expiresAt, le);
      var revocation := PrepareRevocation(rows, now, id, context, le);
      if id in rows && rows[id].revokedAt.None? && now < rows[id].expiresAt then
        var row := rows[id];
        var spent, other := row.accessTokenHash != TokenHash(access), Normalize(row.context, le) != Normalize(context, le);
        && (load == Err(AccessTokenMismatch) <==> spent)
        && (load == Err(SessionContextMismatch) <==> !spent && other)
        && (load == Err(SessionIntegrityFailed) <==> !spent && !other && row.refreshToken.aad != SessionAad(id, Normalize(row.context, le)))
        && (load.Err? ==> load.error in {AccessTokenMismatch, SessionContextMismatch, SessionIntegrityFailed})
        && (rotation == Err(SessionConflict) <==> spent)
        && (rotation == Err(SessionContextMismatch) <==> !spent && other)
        && (rotation.Err? ==> rotation.error in {SessionConflict, SessionContextMismatch})
        && (revocation.Err? <==> other) && (other ==> revocation.error == SessionContextMismatch)
      else
        && load.Err? && rotation.Err? && revocation.Err?
        && load.error == rotation.error == revocation.error && Unusable(rows, id, now, load.error)
  {
    hide Normalize;
    if id in rows {
      NormalizeIdempotent(rows[id].context, le);
      ContextMatchesIff(ContextOf(rows[id], le), context, le);
    }
  }

  predicate RevocationApplies(rows: Table, r: Revocation) {
    r.id in rows && rows[r.id].context.tenantId == r.tenantId && rows[r.id].revokedAt.None?
  }

  function ApplyRevocation(rows: Table, r: Revocation): Table {
    if RevocationApplies(rows, r) then rows[r.id := rows[r.id].(revokedAt := Some(r.at))] else rows
  }

  /** What every row written by create or rotate satisfies: normal context, ciphertext bound to id and context. */
  ghost predicate RowIntact(id: string, row: Row, le: Collation) {
    && row.context == Normalize(row.context, le)
    && row.refreshToken.aad == AadFor(id, row.context, le)
  }

  ghost predicate Intact(rows: Table, le: Collation) {
    forall id | id in rows :: RowIntact(id, rows[id], le)
  }

  /** In an intact table, load succeeds exactly on a usable row with the right token and the right context up to order. */
  lemma LoadSucceedsIff(rows: Table, now: int, id: string, accessToken: string, expected: Context, le: Collation)
    requires Intact(rows, le)
    ensures LoadRow(rows, now, id, accessToken, expected, le).Ok?
        <==> && id in rows && rows[id].revokedAt.None? && rows[id].expiresAt > now
             && rows[id].accessTokenHash == TokenHash(accessToken)
             && SameBinding(rows[id].context, expected)
             && SamePermissions(rows[id].context.authorization, expected.authorization)
             && SameTieOrder(rows[id].context.authorization, expected.authorization, le)
    ensures LoadRow(rows, now, id, accessToken, expected, le) != Err(SessionIntegrityFailed)
    ensures LoadRow(rows, now, id, accessToken, expected, le).Ok? ==>
              LoadRow(rows, now, id, accessToken, expected, le).value
              == Loaded(rows[id].context, rows[id].refreshToken.plain)
  {
    hide Normalize, NormalizeAuthorization, ContextMatches, SameBinding, SamePermissions, SameTieOrder, AadFor;
    if id in rows {
      assert RowIntact(id, rows[id], le);
      ContextMatchesIff(rows[id].context, expected, le);
      NormalizeEqualIff(rows[id].context, expected, le);
    }
  }

  /** A ciphertext moved in from any other session never opens. */
  lemma MovedCiphertextFails(rows: Table, now: int, id: string, other: string, accessToken: string, expected: Context, le: Collation)
    requires Intact(rows, le) && id in rows && other in rows && id != other
    ensures LoadRow(rows[id := rows[id].(refreshToken := rows[other].refreshToken)], now, id, accessToken, expected, le).Err?
  {
    assert RowIntact(id, rows[id], le) && RowIntact(other, rows[other], le);
  }

  /** A created session answers its own access token with its own refresh token, for the same context and no other. */
  lemma CreateThenLoad(rows: Table, id: string, context: Context, accessToken: string, refreshToken: string, expiresAt: int,
                       now: int, expected: Context, le: Collation)
    requires Intact(rows, le) && now < expiresAt
    ensures
      var after := rows[id := NewRow(id, context, accessToken, refreshToken, expiresAt, le)];
      && Intact(after, le)
      && LoadRow(after, now, id, accessToken, expected, le)
         == if Normalize(expected, le) == Normalize(context, le)
            then Ok(Loaded(Normalize(context, le), refreshToken)) else Err(SessionContextMismatch)
  {
    NormalizeIdempotent(context, le);
    hide NormalizeAuthorization;
    var after := rows[id := NewRow(id, context, accessToken, refreshToken, expiresAt, le)];
    forall o | o in after ensures RowIntact(o, after[o], le) {
      if o != id { assert RowIntact(o, rows[o], le); }
    }
  }

  /** A rotation keeps every other row and the binding, hands the new pair over and retires the old token. */
  lemma RotateThenLoad(rows: Table, now: int, later: int, id: string, current: string, context: Context,
                       newAccess: string, newRefresh: string, expiresAt: Option<int>, le: Collation)
    requires Intact(rows, le)
    requires PrepareRotation(rows, now, id, current, context, newAccess, newRefresh, expiresAt, le).Ok?
    requires RotationApplies(rows, PrepareRotation(rows, now, id, current, context, newAccess, newRefresh, expiresAt, le).value)
    ensures
      var r := PrepareRotation(rows, now, id, current, context, newAccess, newRefresh, expiresAt, le).value;
      var after := ApplyRotation(rows, r);
      && Intact(after, le)
      && after == rows[id := after[id]]
      && after[id].context == rows[id].context
      && after[id].expiresAt == expiresAt.GetOr(rows[id].expiresAt)
      && (after[id].expiresAt > later ==>
            LoadRow(after, later, id, newAccess, context, le) == Ok(Loaded(rows[id].context, newRefresh)))
      && (newAccess != current ==> LoadRow(after, later, id, current, context, le).Err?)
  {
    hide Normalize;
    assert RowIntact(id, rows[id], le);
    var after := ApplyRotation(rows, PrepareRotation(rows, now, id, current, context, newAccess, newRefresh, expiresAt, le).value);
    assert RowIntact(id, after[id], le);
    forall o | o in after ensures RowIntact(o, after[o], le) {
      if o != id { assert RowIntact(o, rows[o], le); }
    }
  }

  lemma RevokeThenLoad(rows: Table, r: Revocation, now: int, token: string, expected: Context, le: Collation)
    requires Intact(rows, le) && RevocationApplies(rows, r)
    ensures Intact(ApplyRevocation(rows, r), le)
    ensures LoadRow(ApplyRevocation(rows, r), now, r.id, token, expected, le) == Err(SessionRevoked)
  {
    hide Normalize;
    var after := ApplyRevocation(rows, r);
    forall o | o in after ensures RowIntact(o, after[o], le) { assert RowIntact(o, rows[o], le); }
  }

  class RefreshSessionService {
    var rows: Table
    const le: Collation

    constructor (le: Collation)
      ensures this.le == le && rows == map[] && Intact(rows, le)
    {
      this.le := le;
      rows := map[];
    }

    /** A taken id is a unique violation: nothing is written. */
    method Create(id: string, context: Context, accessToken: string, refreshToken: string, expiresAt: int)
      returns (created: bool)
      modifies this
      ensures created == (id !in old(rows))
      ensures rows == if created then old(rows)[id := NewRow(id, context, accessToken, refreshToken, expiresAt, le)] else old(rows)
    {
      if id in rows {
        return false;
      }
      var normal := Normalize(context, le);
      var ciphertext := Sealed(refreshToken, AadFor(id, normal, le));
      rows := rows[id := Row(normal, TokenHash(accessToken), ciphertext, expiresAt, None)];
      created := true;
    }

    method Load(id: string, accessToken: string, expected: Context, now: int) returns (r: Result<Loaded, SessionError>)
      ensures r == LoadRow(rows, now, id, accessToken, expected, le)
    {
      if id !in rows { return Err(SessionNotFound); }
      var session := rows[id];
      if session.revokedAt.Some? { return Err(SessionRevoked); }
      if session.expiresAt <= now { return Err(SessionExpired); }
      if session.accessTokenHash != TokenHash(accessToken) { return Err(AccessTokenMismatch); }
      var context := ContextOf(session, le);
      if !ContextMatches(context, expected, le) { return Err(SessionContextMismatch); }
      var plain := Open(session.refreshToken, AadFor(id, context, le));
      if plain.None? { return Err(SessionIntegrityFailed); }
      return Ok(Loaded(context, plain.value));
    }

    /** A rotation with nothing in between its read and its write. */
    method Rotate(id: string, currentAccessToken: string, context: Context, newAccessToken: string,
                  newRefreshToken: string, expiresAt: Option<int>, now: int)
      returns (r: Result<string, SessionError>)
      requires Intact(rows, le)
      modifies this
      ensures r.Ok? <==>
              && id in old(rows) && old(rows)[id].revokedAt.None? && old(rows)[id].expiresAt > now
              && old(rows)[id].accessTokenHash == TokenHash(currentAccessToken)
              && Normalize(context, le) == old(rows)[id].context
      ensures r.Ok? ==> r.value == newAccessToken
      ensures
        var prepared := PrepareRotation(old(rows), now, id, currentAccessToken, context, newAccessToken, newRefreshToken, expiresAt, le);
        && (prepared.Err? ==> r == Err(prepared.error))
        && (prepared.Ok? && r.Err? ==> r == Err(SessionConflict))
        && rows == if prepared.Ok? && r.Ok? then ApplyRotation(old(rows), prepared.value) else old(rows)
    {
      hide NormalizeAuthorization;
      if id !in rows { return Err(SessionNotFound); }
      assert RowIntact(id, rows[id], le);
      var session := rows[id];
      if session.revokedAt.Some? { return Err(SessionRevoked); }
      if session.expiresAt <= now { return Err(SessionExpired); }
      var previousHash := TokenHash(currentAccessToken);
      if session.accessTokenHash != previousHash { return Err(SessionConflict); }
      var bound := ContextOf(session, le);
      if !ContextMatches(bound, context, le) { return Err(SessionContextMismatch); }
      var encrypted := Sealed(newRefreshToken, AadFor(id, bound, le));
      var update := Rotation(id, context.tenantId, previousHash, TokenHash(newAccessToken), encrypted, expiresAt, now);
      if !RotationApplies(rows, update) { return Err(SessionConflict); }
      rows := rows[id := session.(accessTokenHash := update.next, refreshToken := encrypted,
                                  expiresAt := expiresAt.GetOr(session.expiresAt))];
      return Ok(newAccessToken);
    }

    /** A revocation with nothing in between its read and its write. */
    method Revoke(id: string, expected: Context, now: int) returns (r: Result<(), SessionError>)
      requires Intact(rows, le)
      modifies this
      ensures r.Ok? <==>
              && id in old(rows) && old(rows)[id].revokedAt.None? && old(rows)[id].expiresAt > now
              && Normalize(expected, le) == old(rows)[id].context
      ensures r.Err? ==> PrepareRevocation(old(rows), now, id, expected, le) == Err(r.error)
      ensures rows == if r.Ok? then ApplyRevocation(old(rows), Revocation(id, expected.tenantId, now)) else old(rows)
    {
      hide NormalizeAuthorization;
      if id !in rows { return Err(SessionNotFound); }
      assert RowIntact(id, rows[id], le);
      var session := rows[id];
      if session.revokedAt.Some? { return Err(SessionRevoked); }
      if session.expiresAt <= now { return Err(SessionExpired); }
      if !ContextMatches(ContextOf(session, le), expected, le) { return Err(SessionContextMismatch); }
      if session.context.tenantId != expected.tenantId { return Err(SessionConflict); }
      rows := rows[id := session.(revokedAt := Some(now))];
      return Ok(());
    }
  }
}
