/**
 Every interleaving of widget authorisations, refreshes and revocations over the
 session table.  A refresh is four awaits on the database or the upstream
 server; between any two of them any other call may run.

 `history` and `revokedAfter` are auxiliary: the token pairs each session has
 been given, in order, and how many of them there were when it was revoked.  No
 step reads them.
 */
module SessionProtocol {
  import opened Prelude
  import opened StableSort
  import opened WidgetContext
  import opened SessionStore

  /** claims(t) is what is signed inside token t; le is the collation of endpoint pairs. */
  datatype Env = Env(claims: string -> Identity, le: Collation)

  /** One committed create (previous = None) or rotation of a session; at is when it was checked, validUntil the expiry it was committed on. */
  datatype Install = Install(
    previous: Option<TokenHash>, token: string, refreshToken: string, at: int, validUntil: int, caller: Option<nat>)

  datatype Call =
    | RefreshStarted(id: string, token: string)
    | RefreshVerified(id: string, token: string, context: Context)
    | RefreshLoaded(id: string, token: string, loaded: Loaded)
    | RefreshExchanged(id: string, token: string, loaded: Loaded, newAccess: string, newRefresh: string, expiresAt: Option<int>)
    | RefreshPrepared(token: string, rotation: Rotation, newAccess: string)
    | RefreshDone(id: string, token: string, newAccess: string, position: nat)
    | RevokeStarted(id: string, expected: Context)
    | RevokePrepared(revocation: Revocation)
    | RevokeDone(id: string)
    | Failed

  datatype State = State(
    rows: Table, now: int, calls: map<nat, Call>, history: map<string, seq<Install>>, revokedAfter: map<string, nat>)

  /** What the outside world answers to the await a call is blocked on. */
  datatype Reply = Rejected | Accepted(access: string, refresh: Option<string>, expiresAt: Option<int>)

  datatype Action =
    | Tick(elapsed: nat)
    | Authorize(id: string, tenantId: string, access: string, refresh: string, expiresAt: int)
    | Begin(pid: nat, call: Call)
    | Advance(pid: nat, reply: Reply)

  const Initial := State(map[], 0, map[], map[], map[])

  function Move(s: State, pid: nat, call: Call): State {
    s.(calls := s.calls[pid := call])
  }

  function CommitRotation(s: State, pid: nat, token: string, r: Rotation, newAccess: string): State
    requires RotationApplies(s.rows, r)
  {
    var past := if r.id in s.history then s.history[r.id] else [];
    var entry := Install(Some(r.previous), newAccess, r.refreshToken.plain, r.checkedAt, s.rows[r.id].expiresAt, Some(pid));
    s.(rows := ApplyRotation(s.rows, r),
       calls := s.calls[pid := RefreshDone(r.id, token, newAccess, |past|)],
       history := s.history[r.id := past + [entry]])
  }

  function CommitRevocation(s: State, pid: nat, r: Revocation): State
    requires RevocationApplies(s.rows, r)
  {
    s.(rows := ApplyRevocation(s.rows, r),
       calls := s.calls[pid := RevokeDone(r.id)],
       revokedAfter := s.revokedAfter[r.id := if r.id in s.history then |s.history[r.id]| else 0])
  }

  /** The session row has been read and the presented token verified (or not). */
  function AfterRead(env: Env, s: State, id: string, token: string, reply: Reply): Call {
    if id !in s.rows || reply.Rejected? then Failed
    else RefreshVerified(id, token, SessionContext(s.rows[id].context.tenantId, env.claims(token)))
  }

  function AfterLoad(env: Env, s: State, id: string, token: string, context: Context): Call {
    match LoadRow(s.rows, s.now, id, token, context, env.le)
    case Err(_) => Failed
    case Ok(loaded) => RefreshLoaded(id, token, loaded)
  }

  /** The upstream server has answered and the new token's claims have been compared with the session's. */
  function AfterUpstream(env: Env, id: string, token: string, loaded: Loaded, reply: Reply): Call {
    match reply
    case Rejected => Failed
    case Accepted(access, refresh, expiresAt) =>
      if Canonical(SessionContext(loaded.context.tenantId, env.claims(access)), env.le) != Canonical(loaded.context, env.le)
      then Failed
      else RefreshExchanged(id, token, loaded, access, refresh.GetOr(loaded.refreshToken), expiresAt)
  }

  function AfterPrepare(env: Env, s: State, call: Call): Call
    requires call.RefreshExchanged?
  {
    match PrepareRotation(s.rows, s.now, call.id, call.token, call.loaded.context, call.newAccess, call.newRefresh, call.expiresAt, env.le)
    case Err(_) => Failed
    case Ok(r) => RefreshPrepared(call.token, r, call.newAccess)
  }

  function AfterRevokeRead(env: Env, s: State, id: string, expected: Context): Call {
    match PrepareRevocation(s.rows, s.now, id, expected, env.le)
    case Err(_) => Failed
    case Ok(r) => RevokePrepared(r)
  }

  /** The next state of a call whose next step only reads. */
  function NextCall(env: Env, s: State, call: Call, reply: Reply): Call {
    match call
    case RefreshStarted(id, token) => AfterRead(env, s, id, token, reply)
    case RefreshVerified(id, token, context) => AfterLoad(env, s, id, token, context)
    case RefreshLoaded(id, token, loaded) => AfterUpstream(env, id, token, loaded, reply)
    case RefreshExchanged(_, _, _, _, _, _) => AfterPrepare(env, s, call)
    case RevokeStarted(id, expected) => AfterRevokeRead(env, s, id, expected)
    case _ => call
  }

  /** One call runs from the await it is blocked on to the next one. */
  function AdvanceCall(env: Env, s: State, pid: nat, reply: Reply): State
    requires pid in s.calls
  {
    match s.calls[pid]
    case RefreshPrepared(token, r, newAccess) =>
      if RotationApplies(s.rows, r) then CommitRotation(s, pid, token, r, newAccess) else Move(s, pid, Failed)
    case RevokePrepared(r) =>
      if RevocationApplies(s.rows, r) then CommitRevocation(s, pid, r) else Move(s, pid, Failed)
    case RefreshDone(_, _, _, _) => s
    case RevokeDone(_) => s
    case Failed => s
    case call => Move(s, pid, NextCall(env, s, call, reply))
  }

  function CreateSession(env: Env, s: State, id: string, tenantId: string, access: string, refresh: string, expiresAt: int): State
    requires id !in s.rows
  {
    var context := SessionContext(tenantId, env.claims(access));
    s.(rows := s.rows[id := NewRow(id, context, access, refresh, expiresAt, env.le)],
       history := s.history[id := [Install(None, access, refresh, s.now, expiresAt, None)]])
  }

  function Step(env: Env, s: State, a: Action): State {
    match a
    case Tick(elapsed) => s.(now := s.now + elapsed)
    case Authorize(id, tenantId, access, refresh, expiresAt) =>
      if id in s.rows then s else CreateSession(env, s, id, tenantId, access, refresh, expiresAt)
    case Begin(pid, call) =>
      if pid in s.calls || !(call.RefreshStarted? || call.RevokeStarted?) then s else Move(s, pid, call)
    case Advance(pid, reply) =>
      if pid in s.calls then AdvanceCall(env, s, pid, reply) else s
  }

  function Run(env: Env, s: State, actions: seq<Action>): State
    decreases |actions|
  {
    if actions == [] then s else Step(env, Run(env, s, actions[..|actions| - 1]), actions[|actions| - 1])
  }

  // ---- what every reachable state keeps ----

  ghost predicate Grants(env: Env, token: string, context: Context) {
    Normalize(SessionContext(context.tenantId, env.claims(token)), env.le) == context
  }

  ghost predicate Linked(h: seq<Install>, i: nat)
    requires 0 < i < |h|
  {
    && h[i].previous == Some(TokenHash(h[i - 1].token))
    && h[i].at < h[i].validUntil
    && h[i].caller.Some?
  }

  ghost predicate Chain(h: seq<Install>) {
    && |h| > 0
    && h[0].previous.None?
    && h[0].caller.None?
    && forall i | 0 < i < |h| :: Linked(h, i)
  }

  /** A session row agrees with the last pair installed in it. */
  ghost predicate SessionOk(env: Env, id: string, row: Row, h: seq<Install>, revokedAfter: Option<nat>) {
    && RowIntact(id, row, env.le)
    && Chain(h)
    && row.accessTokenHash == TokenHash(h[|h| - 1].token)
    && row.refreshToken.plain == h[|h| - 1].refreshToken
    && (forall i | 0 <= i < |h| :: Grants(env, h[i].token, row.context))
    && (row.revokedAt.Some? <==> revokedAfter.Some?)
    && (revokedAfter.Some? ==> revokedAfter.value == |h|)
  }

  function RevokedAfter(s: State, id: string): Option<nat> {
    if id in s.revokedAfter then Some(s.revokedAfter[id]) else None
  }

  ghost predicate CallOk(env: Env, s: State, pid: nat, call: Call) {
    match call
    case RefreshLoaded(id, token, loaded) => id in s.rows && loaded.context == s.rows[id].context
    case RefreshExchanged(id, token, loaded, newAccess, _, _) =>
      id in s.rows && loaded.context == s.rows[id].context && Grants(env, newAccess, loaded.context)
    case RefreshPrepared(token, r, newAccess) =>
      && r.id in s.rows
      && r.previous == TokenHash(token) && r.next == TokenHash(newAccess)
      && r.refreshToken.aad == AadFor(r.id, s.rows[r.id].context, env.le)
      && Grants(env, newAccess, s.rows[r.id].context)
    case RefreshDone(id, token, newAccess, position) =>
      && id in s.history && 0 < position < |s.history[id]|
      && s.history[id][position].caller == Some(pid)
      && s.history[id][position].previous == Some(TokenHash(token))
      && s.history[id][position].token == newAccess
    case _ => true
  }

  /** An installed pair belongs to the finished call that installed it. */
  ghost predicate InstallOwned(s: State, id: string, i: nat)
    requires id in s.history && i < |s.history[id]|
  {
    var caller := s.history[id][i].caller;
    caller.Some? ==>
      && caller.value in s.calls && s.calls[caller.value].RefreshDone?
      && s.calls[caller.value].id == id && s.calls[caller.value].position == i
  }

  ghost predicate SessionsOk(env: Env, s: State)
    requires s.history.Keys == s.rows.Keys
  {
    forall id | id in s.rows :: SessionOk(env, id, s.rows[id], s.history[id], RevokedAfter(s, id))
  }

  ghost predicate CallsOk(env: Env, s: State) {
    forall pid | pid in s.calls :: CallOk(env, s, pid, s.calls[pid])
  }

  ghost predicate InstallsOwned(s: State) {
    forall id, i | id in s.history && 0 <= i < |s.history[id]| :: InstallOwned(s, id, i)
  }

  ghost predicate Inv(env: Env, s: State) {
    && s.history.Keys == s.rows.Keys
    && SessionsOk(env, s)
    && CallsOk(env, s)
    && InstallsOwned(s)
    && s.revokedAfter.Keys <= s.rows.Keys
  }

  /** Sessions are never removed or rebound, and installed pairs are never rewritten. */
  ghost predicate Extends(s: State, t: State) {
    forall id | id in s.rows ::
      && id in t.rows && t.rows[id].context == s.rows[id].context
      && (id in s.history ==> id in t.history && s.history[id] <= t.history[id])
  }

  lemma CallOkExtends(env: Env, s: State, t: State, pid: nat, call: Call)
    requires s.history.Keys == s.rows.Keys && Extends(s, t) && CallOk(env, s, pid, call)
    ensures CallOk(env, t, pid, call)
  {
  }

  lemma MoveKeepsInv(env: Env, s: State, pid: nat, call: Call)
    requires Inv(env, s) && CallOk(env, s, pid, call) && !call.RefreshDone?
    requires pid in s.calls ==> !s.calls[pid].RefreshDone?
    ensures Inv(env, Move(s, pid, call)) && Extends(s, Move(s, pid, call))
  {
    hide SessionOk, Grants, AadFor;
    var t := Move(s, pid, call);
    forall q | q in t.calls ensures CallOk(env, t, q, t.calls[q]) {
      CallOkExtends(env, s, t, q, t.calls[q]);
    }
    forall id | id in t.rows ensures SessionOk(env, id, t.rows[id], t.history[id], RevokedAfter(t, id)) { assert SessionOk(env, id, s.rows[id], s.history[id], RevokedAfter(s, id)); }
    forall id, i | id in t.history && 0 <= i < |t.history[id]| ensures InstallOwned(t, id, i) {
      assert InstallOwned(s, id, i);
    }
  }

  lemma NewSessionOk(env: Env, id: string, tenantId: string, access: string, refresh: string, at: int, expiresAt: int)
    ensures
      var row := NewRow(id, SessionContext(tenantId, env.claims(access)), access, refresh, expiresAt, env.le);
      SessionOk(env, id, row, [Install(None, access, refresh, at, expiresAt, None)], None)
  {
    NormalizeIdempotent(SessionContext(tenantId, env.claims(access)), env.le);
    hide NormalizeAuthorization;
  }

  lemma AddingSessionKeepsInv(env: Env, s: State, id: string, row: Row, first: Install)
    requires Inv(env, s) && id !in s.rows
    requires SessionOk(env, id, row, [first], None) && first.caller.None?
    ensures
      var t := s.(rows := s.rows[id := row], history := s.history[id := [first]]);
      Inv(env, t) && Extends(s, t)
  {
    hide SessionOk, CallOk;
    var t := s.(rows := s.rows[id := row], history := s.history[id := [first]]);
    assert Extends(s, t) && t.history.Keys == t.rows.Keys;
    assert SessionsOk(env, t) by {
      hide CallsOk, InstallsOwned, Extends;
      forall o | o in t.rows ensures SessionOk(env, o, t.rows[o], t.history[o], RevokedAfter(t, o)) {
        if o != id { assert SessionOk(env, o, s.rows[o], s.history[o], RevokedAfter(s, o)); }
      }
    }
    assert CallsOk(env, t) by {
      hide SessionsOk, InstallsOwned, Extends;
      forall q | q in t.calls ensures CallOk(env, t, q, t.calls[q]) { CallOkExtends(env, s, t, q, t.calls[q]); }
    }
    assert InstallsOwned(t) by {
      hide SessionsOk, CallsOk, Extends;
      forall o, i | o in t.history && 0 <= i < |t.history[o]| ensures InstallOwned(t, o, i) {
        if o != id { assert InstallOwned(s, o, i); }
      }
    }
  }

  lemma CreateKeepsInv(env: Env, s: State, id: string, tenantId: string, access: string, refresh: string, expiresAt: int)
    requires Inv(env, s) && id !in s.rows
    ensures
      var t := CreateSession(env, s, id, tenantId, access, refresh, expiresAt);
      Inv(env, t) && Extends(s, t)
  {
    hide Inv, SessionOk, NewRow, SessionContext;
    NewSessionOk(env, id, tenantId, access, refresh, s.now, expiresAt);
    var row := NewRow(id, SessionContext(tenantId, env.claims(access)), access, refresh, expiresAt, env.le);
    AddingSessionKeepsInv(env, s, id, row, Install(None, access, refresh, s.now, expiresAt, None));
  }

  lemma RotatedSessionOk(env: Env, id: string, row: Row, h: seq<Install>, r: Rotation, entry: Install)
    requires SessionOk(env, id, row, h, None)
    requires row.accessTokenHash == r.previous && r.next == TokenHash(entry.token)
    requires r.refreshToken == Sealed(entry.refreshToken, AadFor(id, row.context, env.le))
    requires entry.previous == Some(r.previous) && entry.at < entry.validUntil && entry.caller.Some?
    requires Grants(env, entry.token, row.context)
    ensures SessionOk(env, id, RotatedRow(row, r), h + [entry], None)
  {
    hide Grants, AadFor, Normalize;
    var g := h + [entry];
    forall i | 0 < i < |g| ensures Linked(g, i) {
      if i < |h| { assert Linked(h, i); }
    }
    forall i | 0 <= i < |g| ensures Grants(env, g[i].token, row.context) {
      if i < |h| { assert Grants(env, h[i].token, row.context); }
    }
  }

  /** What a committed rotation does to the state. */
  lemma RotationCommits(s: State, pid: nat, token: string, r: Rotation, newAccess: string)
    requires s.history.Keys == s.rows.Keys && RotationApplies(s.rows, r)
    ensures
      var t := CommitRotation(s, pid, token, r, newAccess);
      var h := s.history[r.id];
      var entry := Install(Some(r.previous), newAccess, r.refreshToken.plain, r.checkedAt, s.rows[r.id].expiresAt, Some(pid));
      && t == s.(rows := s.rows[r.id := RotatedRow(s.rows[r.id], r)], history := s.history[r.id := h + [entry]],
                 calls := s.calls[pid := RefreshDone(r.id, token, newAccess, |h|)])
      && r.id in s.rows && Extends(s, t) && t.history.Keys == t.rows.Keys && entry.at < entry.validUntil
  {
  }

  lemma RotationCallsOk(env: Env, s: State, pid: nat, token: string, r: Rotation, newAccess: string)
    requires Inv(env, s) && pid in s.calls && s.calls[pid] == RefreshPrepared(token, r, newAccess)
    requires RotationApplies(s.rows, r)
    ensures CallsOk(env, CommitRotation(s, pid, token, r, newAccess))
  {
    hide SessionsOk, InstallsOwned, CallOk, CommitRotation, RotationApplies, Extends, Grants;
    RotationCommits(s, pid, token, r, newAccess);
    var t := CommitRotation(s, pid, token, r, newAccess);
    assert CallOk(env, s, pid, s.calls[pid]);
    forall q | q in t.calls ensures CallOk(env, t, q, t.calls[q]) {
      if q == pid {
        FirstInstallExists(env, s, r.id);
        DoneIsOk(env, s, t, pid, token, r, newAccess);
      } else {
        assert CallOk(env, s, q, s.calls[q]);
        CallOkExtends(env, s, t, q, t.calls[q]);
      }
    }
  }

  lemma FirstInstallExists(env: Env, s: State, id: string)
    requires Inv(env, s) && id in s.rows
    ensures |s.history[id]| > 0
  {
    hide CallsOk, InstallsOwned, RowIntact, Grants;
    assert SessionOk(env, id, s.rows[id], s.history[id], RevokedAfter(s, id));
  }

  lemma DoneIsOk(env: Env, s: State, t: State, pid: nat, token: string, r: Rotation, newAccess: string)
    requires s.history.Keys == s.rows.Keys && r.id in s.rows && |s.history[r.id]| > 0
    requires CallOk(env, s, pid, RefreshPrepared(token, r, newAccess))
    requires r.id in t.history && |t.history[r.id]| == |s.history[r.id]| + 1
    requires
      var entry := t.history[r.id][|s.history[r.id]|];
      entry.caller == Some(pid) && entry.previous == Some(r.previous) && entry.token == newAccess
    ensures CallOk(env, t, pid, RefreshDone(r.id, token, newAccess, |s.history[r.id]|))
  {
    hide Grants, AadFor;
  }

  lemma RotationSessionsOk(env: Env, s: State, pid: nat, token: string, r: Rotation, newAccess: string)
    requires Inv(env, s) && pid in s.calls && s.calls[pid] == RefreshPrepared(token, r, newAccess)
    requires RotationApplies(s.rows, r)
    ensures
      var t := CommitRotation(s, pid, token, r, newAccess);
      t.history.Keys == t.rows.Keys && SessionsOk(env, t)
  {
    hide InstallsOwned, SessionOk, CommitRotation, RotatedRow, Extends, Grants, AadFor;
    RotationCommits(s, pid, token, r, newAccess);
    var t := CommitRotation(s, pid, token, r, newAccess);
    assert CallOk(env, s, pid, s.calls[pid]);
    assert SessionOk(env, r.id, s.rows[r.id], s.history[r.id], RevokedAfter(s, r.id));
    var h, g := s.history[r.id], t.history[r.id];
    ActiveSession(env, r.id, s.rows[r.id], h, RevokedAfter(s, r.id));
    RotatedSessionOk(env, r.id, s.rows[r.id], h, r, g[|h|]);
    forall id | id in t.rows ensures SessionOk(env, id, t.rows[id], t.history[id], RevokedAfter(t, id)) {
      if id != r.id { assert SessionOk(env, id, s.rows[id], s.history[id], RevokedAfter(s, id)); }
    }
  }

  lemma RotationInstallsOwned(env: Env, s: State, pid: nat, token: string, r: Rotation, newAccess: string)
    requires Inv(env, s) && pid in s.calls && s.calls[pid] == RefreshPrepared(token, r, newAccess)
    requires RotationApplies(s.rows, r)
    ensures InstallsOwned(CommitRotation(s, pid, token, r, newAccess))
  {
    hide SessionsOk, CallsOk, CommitRotation, RotationApplies, Extends;
    RotationCommits(s, pid, token, r, newAccess);
    var t := CommitRotation(s, pid, token, r, newAccess);
    forall o, i | o in t.history && 0 <= i < |t.history[o]| ensures InstallOwned(t, o, i) {
      if i < |s.history[o]| { assert InstallOwned(s, o, i); }
    }
  }

  lemma RotationKeepsInv(env: Env, s: State, pid: nat, token: string, r: Rotation, newAccess: string)
    requires Inv(env, s) && pid in s.calls && s.calls[pid] == RefreshPrepared(token, r, newAccess)
    requires RotationApplies(s.rows, r)
    ensures
      var t := CommitRotation(s, pid, token, r, newAccess);
      Inv(env, t) && Extends(s, t)
  {
    hide SessionsOk, CallsOk, InstallsOwned, CommitRotation, RotationApplies, Extends;
    RotationCommits(s, pid, token, r, newAccess);
    RotationCallsOk(env, s, pid, token, r, newAccess);
    RotationSessionsOk(env, s, pid, token, r, newAccess);
    RotationInstallsOwned(env, s, pid, token, r, newAccess);
  }

  lemma ActiveSession(env: Env, id: string, row: Row, h: seq<Install>, revoked: Option<nat>)
    requires SessionOk(env, id, row, h, revoked) && row.revokedAt.None?
    ensures |h| > 0 && revoked.None?
  {
  }

  lemma RevokedSessionOk(env: Env, id: string, row: Row, h: seq<Install>, at: int)
    requires SessionOk(env, id, row, h, None)
    ensures SessionOk(env, id, row.(revokedAt := Some(at)), h, Some(|h|))
  {
  }

  /** What a committed revocation does to the state. */
  lemma RevocationCommits(s: State, pid: nat, r: Revocation)
    requires s.history.Keys == s.rows.Keys && RevocationApplies(s.rows, r)
    ensures
      var t := CommitRevocation(s, pid, r);
      && r.id in s.rows && s.rows[r.id].revokedAt.None? && Extends(s, t)
      && t == s.(rows := s.rows[r.id := s.rows[r.id].(revokedAt := Some(r.at))], calls := s.calls[pid := RevokeDone(r.id)],
                 revokedAfter := s.revokedAfter[r.id := |s.history[r.id]|])
  {
  }

  lemma RevocationSessionsOk(env: Env, s: State, pid: nat, r: Revocation)
    requires Inv(env, s) && RevocationApplies(s.rows, r)
    ensures
      var t := CommitRevocation(s, pid, r);
      t.history.Keys == t.rows.Keys && SessionsOk(env, t)
  {
    hide CallsOk, InstallsOwned, SessionOk, CommitRevocation, RevocationApplies, Extends;
    RevocationCommits(s, pid, r);
    var t := CommitRevocation(s, pid, r);
    assert SessionOk(env, r.id, s.rows[r.id], s.history[r.id], RevokedAfter(s, r.id));
    ActiveSession(env, r.id, s.rows[r.id], s.history[r.id], RevokedAfter(s, r.id));
    RevokedSessionOk(env, r.id, s.rows[r.id], s.history[r.id], r.at);
    forall o | o in t.rows ensures SessionOk(env, o, t.rows[o], t.history[o], RevokedAfter(t, o)) {
      if o != r.id { assert SessionOk(env, o, s.rows[o], s.history[o], RevokedAfter(s, o)); }
    }
  }

  lemma RevocationCallsOk(env: Env, s: State, pid: nat, r: Revocation)
    requires Inv(env, s) && RevocationApplies(s.rows, r)
    ensures CallsOk(env, CommitRevocation(s, pid, r))
  {
    hide SessionsOk, InstallsOwned, CallOk, CommitRevocation, RevocationApplies, Extends;
    RevocationCommits(s, pid, r);
    var t := CommitRevocation(s, pid, r);
    forall q | q in t.calls ensures CallOk(env, t, q, t.calls[q]) {
      if q == pid { RevokeDoneOk(env, t, pid, r.id); } else { CallOkExtends(env, s, t, q, t.calls[q]); }
    }
  }

  lemma RevocationInstallsOwned(env: Env, s: State, pid: nat, r: Revocation)
    requires Inv(env, s) && pid in s.calls && s.calls[pid] == RevokePrepared(r) && RevocationApplies(s.rows, r)
    ensures InstallsOwned(CommitRevocation(s, pid, r))
  {
    hide SessionsOk, CallsOk, CommitRevocation, RevocationApplies, Extends;
    RevocationCommits(s, pid, r);
    var t := CommitRevocation(s, pid, r);
    forall o, i | o in t.history && 0 <= i < |t.history[o]| ensures InstallOwned(t, o, i) { assert InstallOwned(s, o, i); }
  }

  lemma RevocationKeepsInv(env: Env, s: State, pid: nat, r: Revocation)
    requires Inv(env, s) && pid in s.calls && s.calls[pid] == RevokePrepared(r)
    requires RevocationApplies(s.rows, r)
    ensures Inv(env, CommitRevocation(s, pid, r)) && Extends(s, CommitRevocation(s, pid, r))
  {
    hide SessionsOk, CallsOk, InstallsOwned, CommitRevocation, RevocationApplies, Extends;
    RevocationCommits(s, pid, r);
    RevocationSessionsOk(env, s, pid, r);
    RevocationCallsOk(env, s, pid, r);
    RevocationInstallsOwned(env, s, pid, r);
  }

  lemma RevokeDoneOk(env: Env, s: State, pid: nat, id: string)
    ensures CallOk(env, s, pid, RevokeDone(id))
  {
  }

  lemma AfterLoadOk(env: Env, s: State, pid: nat, id: string, token: string, context: Context)
    requires Inv(env, s)
    ensures CallOk(env, s, pid, AfterLoad(env, s, id, token, context))
  {
    hide Normalize, Inv;
    if id in s.rows { SessionIsIntact(env, s, id); }
  }

  lemma AfterUpstreamOk(env: Env, s: State, pid: nat, id: string, token: string, loaded: Loaded, reply: Reply)
    requires Inv(env, s) && CallOk(env, s, pid, RefreshLoaded(id, token, loaded))
    ensures CallOk(env, s, pid, AfterUpstream(env, id, token, loaded, reply))
  {
    hide Grants, Canonical, Inv, SessionContext, Normalize, AadFor;
    SessionIsIntact(env, s, id);
    if reply.Accepted? { RefreshedContextChecked(env, loaded.context, reply); }
  }

  lemma AfterPrepareOk(env: Env, s: State, pid: nat, call: Call)
    requires Inv(env, s) && call.RefreshExchanged? && CallOk(env, s, pid, call)
    ensures CallOk(env, s, pid, AfterPrepare(env, s, call))
  {
    hide Grants, Normalize, Inv;
    SessionIsIntact(env, s, call.id);
  }

  lemma SessionIsIntact(env: Env, s: State, id: string)
    requires Inv(env, s) && id in s.rows
    ensures RowIntact(id, s.rows[id], env.le)
  {
    hide RowIntact, CallOk;
  }

  lemma CallIsOk(env: Env, s: State, pid: nat)
    requires Inv(env, s) && pid in s.calls
    ensures CallOk(env, s, pid, s.calls[pid])
  {
    hide CallOk, SessionOk;
  }

  /** A call that neither finishes a refresh nor writes a row only has to justify its own next state. */
  lemma NextCallOk(env: Env, s: State, pid: nat, reply: Reply)
    requires Inv(env, s) && pid in s.calls && !s.calls[pid].RefreshDone?
    ensures CallOk(env, s, pid, NextCall(env, s, s.calls[pid], reply)) && !NextCall(env, s, s.calls[pid], reply).RefreshDone?
  {
    hide Inv, SessionContext, Canonical, LoadRow, PrepareRotation, PrepareRevocation, Grants, AadFor;
    CallIsOk(env, s, pid);
    match s.calls[pid]
    case RefreshVerified(id, token, context) => AfterLoadOk(env, s, pid, id, token, context);
    case RefreshLoaded(id, token, loaded) => AfterUpstreamOk(env, s, pid, id, token, loaded, reply);
    case RefreshExchanged(_, _, _, _, _, _) => AfterPrepareOk(env, s, pid, s.calls[pid]);
    case _ =>
  }

  lemma AdvanceKeepsInv(env: Env, s: State, pid: nat, reply: Reply)
    requires Inv(env, s) && pid in s.calls
    ensures Inv(env, AdvanceCall(env, s, pid, reply)) && Extends(s, AdvanceCall(env, s, pid, reply))
  {
    hide Inv, CallOk, NextCall;
    match s.calls[pid]
    case RefreshPrepared(token, r, newAccess) =>
      if RotationApplies(s.rows, r) {
        RotationKeepsInv(env, s, pid, token, r, newAccess);
      } else {
        FailureKeepsInv(env, s, pid);
      }
    case RevokePrepared(r) =>
      if RevocationApplies(s.rows, r) {
        RevocationKeepsInv(env, s, pid, r);
      } else {
        FailureKeepsInv(env, s, pid);
      }
    case RefreshDone(_, _, _, _) =>
    case RevokeDone(_) =>
    case Failed =>
    case call =>
      NextCallOk(env, s, pid, reply);
      MoveKeepsInv(env, s, pid, NextCall(env, s, call, reply));
  }

  lemma FailureKeepsInv(env: Env, s: State, pid: nat)
    requires Inv(env, s) && pid in s.calls && !s.calls[pid].RefreshDone?
    ensures Inv(env, Move(s, pid, Failed)) && Extends(s, Move(s, pid, Failed))
  {
    hide SessionOk, Grants, AadFor;
    MoveKeepsInv(env, s, pid, Failed);
  }

  /** The refresh call's canonical comparison with a stored context implies the store's normal form. */
  lemma RefreshedContextChecked(env: Env, stored: Context, reply: Reply)
    requires stored == Normalize(stored, env.le) && reply.Accepted?
    ensures Canonical(SessionContext(stored.tenantId, env.claims(reply.access)), env.le) == Canonical(stored, env.le)
        ==> Grants(env, reply.access, stored)
  {
    var refreshed := SessionContext(stored.tenantId, env.claims(reply.access));
    assert stored.authorization.endpointPairs == Sort(NormalizePairs(stored.authorization.endpointPairs), env.le);
    SortedPairsHaveNoEmptyPreset(stored.authorization.endpointPairs, env.le);
    CanonicalIsNormalize(stored, env.le);
    CanonicalIsNormalize(refreshed, env.le);
  }

  lemma TickKeepsInv(env: Env, s: State, elapsed: nat)
    requires Inv(env, s)
    ensures Inv(env, s.(now := s.now + elapsed)) && Extends(s, s.(now := s.now + elapsed))
  {
    hide SessionOk, Grants, AadFor;
    var t := s.(now := s.now + elapsed);
    forall q | q in t.calls ensures CallOk(env, t, q, t.calls[q]) { CallOkExtends(env, s, t, q, t.calls[q]); }
    forall id, i | id in t.history && 0 <= i < |t.history[id]| ensures InstallOwned(t, id, i) {
      assert InstallOwned(s, id, i);
    }
  }

  lemma BeginKeepsInv(env: Env, s: State, pid: nat, call: Call)
    requires Inv(env, s) && pid !in s.calls && (call.RefreshStarted? || call.RevokeStarted?)
    ensures Inv(env, Move(s, pid, call)) && Extends(s, Move(s, pid, call))
  {
    hide SessionOk, Grants, AadFor;
    MoveKeepsInv(env, s, pid, call);
  }

  lemma StepKeepsInv(env: Env, s: State, a: Action)
    requires Inv(env, s)
    ensures Inv(env, Step(env, s, a)) && Extends(s, Step(env, s, a))
  {
    hide Inv, AdvanceCall, CreateSession;
    match a
    case Tick(elapsed) => TickKeepsInv(env, s, elapsed);
    case Authorize(id, tenantId, access, refresh, expiresAt) =>
      if id !in s.rows { CreateKeepsInv(env, s, id, tenantId, access, refresh, expiresAt); }
    case Begin(pid, call) =>
      if pid !in s.calls && (call.RefreshStarted? || call.RevokeStarted?) { BeginKeepsInv(env, s, pid, call); }
    case Advance(pid, reply) =>
      if pid in s.calls { AdvanceKeepsInv(env, s, pid, reply); }
  }

  /**
   The clock of the where clause is read before the write.  So whether a
   prepared rotation commits does not depend on how long the write takes, and a
   row that expires in between is still rotated.
   */
  lemma LateRotationStillCommits(env: Env, s: State, pid: nat, elapsed: nat, reply: Reply)
    requires pid in s.calls && s.calls[pid].RefreshPrepared?
    ensures
      var t := Step(env, Step(env, s, Tick(elapsed)), Advance(pid, reply));
      pid in t.calls && (t.calls[pid].RefreshDone? <==> RotationApplies(s.rows, s.calls[pid].rotation))
  {
    hide ApplyRotation, RotationApplies;
  }

  lemma {:induction false} RunKeepsInv(env: Env, s: State, actions: seq<Action>)
    requires Inv(env, s)
    ensures Inv(env, Run(env, s, actions)) && Extends(s, Run(env, s, actions))
    decreases |actions|
  {
    hide Inv, Step;
    if actions != [] {
      RunKeepsInv(env, s, actions[..|actions| - 1]);
      StepKeepsInv(env, Run(env, s, actions[..|actions| - 1]), actions[|actions| - 1]);
    }
  }
}
