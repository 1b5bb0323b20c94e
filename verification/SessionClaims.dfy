/**
 The session protocol in terms of what is signed inside the tokens: which claims
 a session is bound to, and what one refresh or revocation does when nothing
 interleaves.
 */
module SessionClaims {
  import opened Prelude
  import opened StableSort
  import opened Permutations
  import opened WidgetContext
  import opened SessionStore
  import opened SessionProtocol
  import SessionResults

  // ---- claims ----

  /** A pair as three texts: no preset and an empty preset are one permission. */
  function PairText(p: EndpointPair): (string, string, string) {
    (p.widgetKey, p.dataEndpointKey, match p.queryPresetKey case None => "" case Some(preset) => preset)
  }

  function PairTexts(ps: seq<EndpointPair>): (r: seq<(string, string, string)>)
    ensures |r| == |ps|
  {
    seq(|ps|, i requires 0 <= i < |ps| => PairText(ps[i]))
  }

  /** The same person, app and configuration, and the same permissions in any order. */
  predicate SameClaims(c: Identity, d: Identity) {
    && c.sub == d.sub && c.identityId == d.identityId && c.identityType == d.identityType
    && c.appCode == d.appCode && c.configSnapshotId == d.configSnapshotId && c.scope == d.scope
    && multiset(c.authorization.widgetKeys) == multiset(d.authorization.widgetKeys)
    && multiset(c.authorization.dataEndpointKeys) == multiset(d.authorization.dataEndpointKeys)
    && multiset(PairTexts(c.authorization.endpointPairs)) == multiset(PairTexts(d.authorization.endpointPairs))
  }

  /** A stored context says of its user what the claims say. */
  predicate BoundTo(context: Context, c: Identity) {
    && context.userId == c.sub && context.identityId == c.identityId && context.identityType == c.identityType
    && context.appCode == c.appCode && context.configSnapshotId == c.configSnapshotId && context.scope == c.scope
    && multiset(context.authorization.widgetKeys) == multiset(c.authorization.widgetKeys)
    && multiset(context.authorization.dataEndpointKeys) == multiset(c.authorization.dataEndpointKeys)
    && multiset(PairTexts(context.authorization.endpointPairs)) == multiset(PairTexts(c.authorization.endpointPairs))
  }

  lemma PairTextsWithout(ps: seq<EndpointPair>, j: nat)
    requires j < |ps|
    ensures PairTexts(Without(ps, j)) == Without(PairTexts(ps), j)
    ensures PairTexts(ps)[j] == PairText(ps[j])
  {
    hide PairText;
  }

  lemma {:induction false} PermutedTexts(ps: seq<EndpointPair>, qs: seq<EndpointPair>)
    requires multiset(ps) == multiset(qs)
    ensures multiset(PairTexts(ps)) == multiset(PairTexts(qs))
    decreases |ps|
  {
    hide PairText;
    if ps == [] {
      assert |multiset(qs)| == 0;
    } else {
      hide PairTexts, Without;
      assert ps[0] in multiset(qs);
      var j :| 0 <= j < |qs| && qs[j] == ps[0];
      PermutedWithout(ps, 0, qs, j);
      PermutedTexts(Without(ps, 0), Without(qs, j));
      PairTextsWithout(ps, 0);
      PairTextsWithout(qs, j);
      PermutedWithout(PairTexts(ps), 0, PairTexts(qs), j);
    }
  }

  lemma PresetsAreTexts(ps: seq<EndpointPair>)
    ensures PairTexts(NormalizePairs(ps)) == PairTexts(ps)
  {
  }

  /** A token that grants a context carries exactly the claims the context holds. */
  lemma GrantedIsBound(env: Env, token: string, context: Context)
    requires Grants(env, token, context)
    ensures BoundTo(context, env.claims(token))
  {
    var granted := SessionContext(context.tenantId, env.claims(token));
    var ps := NormalizePairs(granted.authorization.endpointPairs);
    assert context.authorization == NormalizeAuthorization(granted.authorization, env.le);
    hide Sort;
    PermutedTexts(Sort(ps, env.le), ps);
    PresetsAreTexts(granted.authorization.endpointPairs);
    PresetsAreTexts(env.claims(token).authorization.endpointPairs);
  }

  /** Nothing else is compared: with a collation that ties no two pairs, the claims decide. */
  lemma GrantsIffBound(env: Env, token: string, context: Context)
    requires Separates(env.le) && context == Normalize(context, env.le)
    ensures Grants(env, token, context) <==> BoundTo(context, env.claims(token))
  {
    hide Normalize, SessionContext, BoundTo;
    if Grants(env, token, context) { GrantedIsBound(env, token, context); }
    if BoundTo(context, env.claims(token)) {
      SessionOfBound(env, token, context);
      NormalizeEqualIffPermuted(SessionContext(context.tenantId, env.claims(token)), context, env.le);
    }
  }

  lemma SessionOfBound(env: Env, token: string, context: Context)
    requires BoundTo(context, env.claims(token)) && context == Normalize(context, env.le)
    ensures
      var c := SessionContext(context.tenantId, env.claims(token));
      SameBinding(c, context) && SamePermissions(c.authorization, context.authorization)
  {
    hide Sort, PairTexts;
    var c := SessionContext(context.tenantId, env.claims(token));
    var ps, qs := c.authorization.endpointPairs, context.authorization.endpointPairs;
    PresetsAreTexts(env.claims(token).authorization.endpointPairs);
    PresetsAreTexts(ps);
    PresetsAreTexts(qs);
    NormalPresets(ps);
    NormalPresets(qs);
    hide NormalizePairs, NoEmptyPresets;
    TextsDecide(NormalizePairs(ps), NormalizePairs(qs));
  }

  predicate NoEmptyPresets(ps: seq<EndpointPair>) {
    forall i | 0 <= i < |ps| :: ps[i].queryPresetKey != Some("")
  }

  lemma NormalPresets(ps: seq<EndpointPair>)
    ensures NoEmptyPresets(NormalizePairs(ps))
  {
  }

  lemma FewerPresets(ps: seq<EndpointPair>, j: nat)
    requires NoEmptyPresets(ps) && j < |ps|
    ensures NoEmptyPresets(Without(ps, j))
  {
  }

  lemma TextDecides(p: EndpointPair, q: EndpointPair)
    requires PairText(p) == PairText(q) && p.queryPresetKey != Some("") && q.queryPresetKey != Some("")
    ensures p == q
  {
  }

  /** Without empty presets the texts determine the pairs. */
  lemma {:induction false} TextsDecide(ps: seq<EndpointPair>, qs: seq<EndpointPair>)
    requires multiset(PairTexts(ps)) == multiset(PairTexts(qs)) && NoEmptyPresets(ps) && NoEmptyPresets(qs)
    ensures multiset(ps) == multiset(qs)
    decreases |ps|
  {
    hide PairText;
    if ps == [] {
      assert |multiset(PairTexts(qs))| == 0;
    } else {
      hide PairTexts, Without;
      assert PairTexts(ps)[0] in multiset(PairTexts(qs));
      var j :| 0 <= j < |PairTexts(qs)| && PairTexts(qs)[j] == PairTexts(ps)[0];
      PairTextsWithout(ps, 0);
      PairTextsWithout(qs, j);
      TextDecides(ps[0], qs[j]);
      PermutedWithout(PairTexts(ps), 0, PairTexts(qs), j);
      FewerPresets(ps, 0);
      FewerPresets(qs, j);
      TextsDecide(Without(ps, 0), Without(qs, j));
      PermutedWithout(ps, 0, qs, j);
    }
  }

  // ---- every run ----

  /** In every run a session is bound to the claims of every token ever installed in it, the first one included. */
  lemma SessionIsBoundToItsTokens(env: Env, actions: seq<Action>, id: string, i: nat)
    requires id in Run(env, Initial, actions).history && i < |Run(env, Initial, actions).history[id]|
    ensures
      var s := Run(env, Initial, actions);
      id in s.rows && BoundTo(s.rows[id].context, env.claims(s.history[id][i].token))
  {
    hide Run, RowIntact, Chain, BoundTo, Grants, CallOk;
    SessionResults.Reachable(env, actions);
    SessionResults.ReachableSession(env, actions, id);
    var s := Run(env, Initial, actions);
    assert Grants(env, s.history[id][i].token, s.rows[id].context);
    GrantedIsBound(env, s.history[id][i].token, s.rows[id].context);
  }

  /** So all of them carry the same verified claims: one person, one configuration, one set of permissions. */
  lemma ClaimsNeverChange(env: Env, actions: seq<Action>, id: string, i: nat, j: nat)
    requires id in Run(env, Initial, actions).history
    requires i < |Run(env, Initial, actions).history[id]| && j < |Run(env, Initial, actions).history[id]|
    ensures
      var h := Run(env, Initial, actions).history[id];
      SameClaims(env.claims(h[i].token), env.claims(h[j].token))
  {
    hide Run;
    SessionIsBoundToItsTokens(env, actions, id, i);
    SessionIsBoundToItsTokens(env, actions, id, j);
  }

  /** A session is created for the tenant of the credential and the claims of the token, with the pair and the expiry given. */
  lemma CreatedSession(env: Env, s: State, id: string, tenantId: string, access: string, refresh: string, expiresAt: int)
    requires id !in s.rows
    ensures
      var t := Step(env, s, Authorize(id, tenantId, access, refresh, expiresAt));
      && id in t.rows && t.rows == s.rows[id := t.rows[id]]
      && t.rows[id].context.tenantId == tenantId && BoundTo(t.rows[id].context, env.claims(access))
      && t.rows[id].accessTokenHash == TokenHash(access) && t.rows[id].refreshToken.plain == refresh
      && t.rows[id].expiresAt == expiresAt && t.rows[id].revokedAt.None?
      && t.now == s.now && t.calls == s.calls && t.revokedAfter == s.revokedAfter
      && id in t.history && t.history == s.history[id := [Install(None, access, refresh, s.now, expiresAt, None)]]
  {
    hide BoundTo, NormalizeAuthorization, AadFor;
    var t := Step(env, s, Authorize(id, tenantId, access, refresh, expiresAt));
    NormalizeIdempotent(SessionContext(tenantId, env.claims(access)), env.le);
    GrantedIsBound(env, access, t.rows[id].context);
  }

  // ---- one call with nothing interleaved ----

  /** The call arrives, and its own five steps follow. */
  function Refreshed(env: Env, s: State, pid: nat, id: string, token: string, verified: Reply, upstream: Reply): State {
    var s0 := Step(env, s, Begin(pid, RefreshStarted(id, token)));
    var s1 := Step(env, s0, Advance(pid, verified));
    var s2 := Step(env, s1, Advance(pid, Rejected));
    var s3 := Step(env, s2, Advance(pid, upstream));
    var s4 := Step(env, s3, Advance(pid, Rejected));
    Step(env, s4, Advance(pid, Rejected))
  }

  predicate Reads(call: Call) {
    call.RefreshStarted? || call.RefreshVerified? || call.RefreshLoaded? || call.RefreshExchanged? || call.RevokeStarted?
  }

  /** A step of a call that only reads, whatever that call was before. */
  lemma ReadStep(env: Env, s: State, pid: nat, call: Call, reply: Reply)
    requires Reads(call)
    ensures Step(env, Move(s, pid, call), Advance(pid, reply)) == Move(s, pid, NextCall(env, s, call, reply))
  {
    hide NextCall;
    SameReads(env, s, Move(s, pid, call), call, reply);
  }

  lemma SameReads(env: Env, s: State, t: State, call: Call, reply: Reply)
    requires t.rows == s.rows && t.now == s.now
    ensures NextCall(env, t, call, reply) == NextCall(env, s, call, reply)
  {
    hide LoadRow, PrepareRotation, PrepareRevocation, SessionContext, Canonical;
  }

  lemma EndedStays(env: Env, s: State, pid: nat, reply: Reply)
    ensures Step(env, Move(s, pid, Failed), Advance(pid, reply)) == Move(s, pid, Failed)
  {
    hide NextCall, CommitRotation, CommitRevocation, RotationApplies, RevocationApplies;
  }

  /** The row a refresh may use: there, not revoked, not expired, and last handed the token shown. */
  predicate Refreshable(s: State, id: string, token: string) {
    id in s.rows && s.rows[id].revokedAt.None? && s.now < s.rows[id].expiresAt && s.rows[id].accessTokenHash == TokenHash(token)
  }

  lemma LastTokenGrants(env: Env, s: State, id: string, token: string)
    requires Inv(env, s) && Refreshable(s, id, token)
    ensures Grants(env, token, s.rows[id].context) && RowIntact(id, s.rows[id], env.le)
  {
    hide CallsOk, InstallsOwned, Grants, RowIntact, Linked;
    assert SessionOk(env, id, s.rows[id], s.history[id], RevokedAfter(s, id));
    var h := s.history[id];
    assert Grants(env, h[|h| - 1].token, s.rows[id].context);
  }

  /** The first two reads: the token shown is verified, and the row is loaded with its refresh token. */
  lemma LoneLoad(env: Env, s: State, id: string, token: string, verified: Reply)
    requires Inv(env, s)
    ensures
      var read := AfterRead(env, s, id, token, verified);
      && (read.RefreshVerified? <==> id in s.rows && verified.Accepted?)
      && (!read.RefreshVerified? ==> read == Failed)
      && (read.RefreshVerified? ==>
            && read.id == id && read.token == token
            && AfterLoad(env, s, id, token, read.context)
               == if Refreshable(s, id, token)
                  then RefreshLoaded(id, token, Loaded(s.rows[id].context, s.rows[id].refreshToken.plain)) else Failed)
  {
    hide Inv, Normalize, SessionContext;
    if id in s.rows {
      SessionIsIntact(env, s, id);
      if Refreshable(s, id, token) {
        LastTokenGrants(env, s, id, token);
        ContextMatchesIff(s.rows[id].context, SessionContext(s.rows[id].context.tenantId, env.claims(token)), env.le);
      }
    }
  }

  /** The upstream's pair is taken if its claims are still the session's. */
  lemma LoneUpstream(env: Env, s: State, id: string, token: string, upstream: Reply)
    requires Inv(env, s) && id in s.rows
    ensures
      var loaded := Loaded(s.rows[id].context, s.rows[id].refreshToken.plain);
      AfterUpstream(env, id, token, loaded, upstream)
      == if upstream.Accepted? && Grants(env, upstream.access, s.rows[id].context)
         then RefreshExchanged(id, token, loaded, upstream.access,
                               if upstream.refresh.Some? then upstream.refresh.value else s.rows[id].refreshToken.plain, upstream.expiresAt)
         else Failed
  {
    hide Inv, Canonical;
    SessionIsIntact(env, s, id);
    if upstream.Accepted? { CanonicalIffGrants(env, s.rows[id].context, upstream.access); }
  }

  lemma CanonicalIffGrants(env: Env, stored: Context, access: string)
    requires stored == Normalize(stored, env.le)
    ensures Canonical(SessionContext(stored.tenantId, env.claims(access)), env.le) == Canonical(stored, env.le) <==> Grants(env, access, stored)
  {
    var refreshed := SessionContext(stored.tenantId, env.claims(access));
    assert stored.authorization.endpointPairs == Sort(NormalizePairs(stored.authorization.endpointPairs), env.le);
    SortedPairsHaveNoEmptyPreset(stored.authorization.endpointPairs, env.le);
    CanonicalIsNormalize(stored, env.le);
    CanonicalIsNormalize(refreshed, env.le);
  }

  /** The read before the write finds the row as it was, and the write applies. */
  lemma LonePrepare(env: Env, s: State, call: Call)
    requires Inv(env, s) && call.RefreshExchanged? && Refreshable(s, call.id, call.token) && call.loaded.context == s.rows[call.id].context
    ensures
      var prepared := AfterPrepare(env, s, call);
      && prepared.RefreshPrepared? && prepared.token == call.token && prepared.newAccess == call.newAccess
      && RotationApplies(s.rows, prepared.rotation)
      && prepared.rotation == Rotation(call.id, s.rows[call.id].context.tenantId, TokenHash(call.token), TokenHash(call.newAccess),
                                       Sealed(call.newRefresh, s.rows[call.id].refreshToken.aad), call.expiresAt, s.now)
  {
    hide Inv, Normalize;
    SessionIsIntact(env, s, call.id);
    ContextMatchesIff(s.rows[call.id].context, call.loaded.context, env.le);
  }

  /** The write: what was prepared is committed if its where clause matches. */
  lemma CommitStep(env: Env, s: State, pid: nat, token: string, r: Rotation, newAccess: string, reply: Reply)
    requires RotationApplies(s.rows, r)
    ensures Step(env, Move(s, pid, RefreshPrepared(token, r, newAccess)), Advance(pid, reply)) == CommitRotation(s, pid, token, r, newAccess)
  {
    hide NextCall, RotationApplies;
    var u := Move(s, pid, RefreshPrepared(token, r, newAccess));
    assert u.rows == s.rows && u.history == s.history;
  }

  predicate Succeeds(env: Env, s: State, id: string, token: string, verified: Reply, upstream: Reply) {
    && verified.Accepted? && Refreshable(s, id, token) && upstream.Accepted?
    && Normalize(SessionContext(s.rows[id].context.tenantId, env.claims(upstream.access)), env.le) == s.rows[id].context
  }

  function LoneRotation(s: State, id: string, token: string, upstream: Reply): Rotation
    requires id in s.rows && upstream.Accepted?
  {
    Rotation(id, s.rows[id].context.tenantId, TokenHash(token), TokenHash(upstream.access),
             Sealed(if upstream.refresh.Some? then upstream.refresh.value else s.rows[id].refreshToken.plain, s.rows[id].refreshToken.aad),
             upstream.expiresAt, s.now)
  }

  /** What the call has come to after its three reads. */
  lemma LoneReads(env: Env, s: State, pid: nat, id: string, token: string, verified: Reply, upstream: Reply) returns (call: Call)
    requires Inv(env, s)
    ensures
      var s1 := Step(env, Move(s, pid, RefreshStarted(id, token)), Advance(pid, verified));
      Step(env, Step(env, s1, Advance(pid, Rejected)), Advance(pid, upstream)) == Move(s, pid, call)
    ensures
      if Succeeds(env, s, id, token, verified, upstream) then
        call == RefreshExchanged(id, token, Loaded(s.rows[id].context, s.rows[id].refreshToken.plain), upstream.access,
                                 LoneRotation(s, id, token, upstream).refreshToken.plain, upstream.expiresAt)
      else call == Failed
  {
    hide Inv, Step, AfterRead, AfterLoad, AfterUpstream, SessionContext, Normalize, Refreshable;
    ReadStep(env, s, pid, RefreshStarted(id, token), verified);
    LoneLoad(env, s, id, token, verified);
    call := AfterRead(env, s, id, token, verified);
    if call.RefreshVerified? {
      ReadStep(env, s, pid, call, Rejected);
      call := AfterLoad(env, s, id, token, call.context);
      if Refreshable(s, id, token) {
        RefreshableIsThere(s, id, token);
        ReadStep(env, s, pid, call, upstream);
        LoneUpstream(env, s, id, token, upstream);
        call := AfterUpstream(env, id, token, call.loaded, upstream);
      } else {
        EndedStays(env, s, pid, upstream);
      }
    } else {
      EndedStays(env, s, pid, Rejected);
      EndedStays(env, s, pid, upstream);
      if Refreshable(s, id, token) { RefreshableIsThere(s, id, token); }
    }
  }

  lemma RefreshableIsThere(s: State, id: string, token: string)
    requires Refreshable(s, id, token)
    ensures id in s.rows
  {
  }

  lemma LoneCommit(env: Env, s: State, pid: nat, id: string, token: string, verified: Reply, upstream: Reply)
    requires Inv(env, s) && pid !in s.calls
    ensures
      Refreshed(env, s, pid, id, token, verified, upstream)
      == if Succeeds(env, s, id, token, verified, upstream) && RotationApplies(s.rows, LoneRotation(s, id, token, upstream))
         then CommitRotation(s, pid, token, LoneRotation(s, id, token, upstream), upstream.access)
         else Move(s, pid, Failed)
    ensures Succeeds(env, s, id, token, verified, upstream) ==> RotationApplies(s.rows, LoneRotation(s, id, token, upstream))
  {
    hide Inv, AfterPrepare, Refreshable, RotationApplies, CommitRotation, SessionContext, Normalize;
    assert Step(env, s, Begin(pid, RefreshStarted(id, token))) == Move(s, pid, RefreshStarted(id, token));
    hide Step;
    var call := LoneReads(env, s, pid, id, token, verified, upstream);
    if Succeeds(env, s, id, token, verified, upstream) {
      ReadStep(env, s, pid, call, Rejected);
      LonePrepare(env, s, call);
      var prepared := AfterPrepare(env, s, call);
      CommitStep(env, s, pid, token, prepared.rotation, upstream.access, Rejected);
    } else {
      EndedStays(env, s, pid, Rejected);
    }
  }

  /** What a successful refresh leaves in the row: the upstream's token, and its refresh token and expiry if it sent them. */
  predicate TookOver(before: Row, after: Row, upstream: Reply)
    requires upstream.Accepted?
  {
    && after.context == before.context && after.revokedAt.None?
    && after.accessTokenHash == TokenHash(upstream.access)
    && after.refreshToken.aad == before.refreshToken.aad
    && after.refreshToken.plain == (match upstream.refresh case Some(refresh) => refresh case None => before.refreshToken.plain)
    && after.expiresAt == (match upstream.expiresAt case Some(at) => at case None => before.expiresAt)
  }

  /**
   A refresh with nothing interleaved, in any state the protocol reaches.  It
   succeeds exactly if the token shown verifies and is the last one installed in
   a session that is neither revoked nor expired, and the upstream returns a
   token with the session's claims.  Then the session holds what the upstream
   sent, the call answers the new token, and nothing else changes.  Otherwise no
   row changes at all.
   */
  lemma LoneRefresh(env: Env, s: State, pid: nat, id: string, token: string, verified: Reply, upstream: Reply, t: State)
    requires Inv(env, s) && pid !in s.calls
    requires t == Refreshed(env, s, pid, id, token, verified, upstream)
    ensures pid in t.calls && (t.calls[pid].RefreshDone? <==> Succeeds(env, s, id, token, verified, upstream))
    ensures t.calls[pid].RefreshDone? ==>
              && t.calls[pid].id == id && t.calls[pid].newAccess == upstream.access && BoundTo(s.rows[id].context, env.claims(upstream.access))
              && id in t.rows && t.rows == s.rows[id := t.rows[id]] && TookOver(s.rows[id], t.rows[id], upstream)
    ensures !t.calls[pid].RefreshDone? ==> t == s.(calls := s.calls[pid := Failed])
  {
    hide Inv, Refreshed, RotationApplies, SessionContext, Normalize, BoundTo;
    LoneCommit(env, s, pid, id, token, verified, upstream);
    if Succeeds(env, s, id, token, verified, upstream) { SuccessIsBound(env, s, id, token, verified, upstream); }
  }

  lemma SuccessIsBound(env: Env, s: State, id: string, token: string, verified: Reply, upstream: Reply)
    requires Succeeds(env, s, id, token, verified, upstream)
    ensures BoundTo(s.rows[id].context, env.claims(upstream.access))
  {
    hide Normalize, BoundTo;
    GrantedIsBound(env, upstream.access, s.rows[id].context);
  }

  /** A refresh whose upstream returns a token of somebody else, or with another configuration or permission, never succeeds. */
  lemma OtherClaimsAreRefused(env: Env, s: State, pid: nat, id: string, token: string, verified: Reply, upstream: Reply, t: State)
    requires Inv(env, s) && pid !in s.calls && t == Refreshed(env, s, pid, id, token, verified, upstream)
    requires upstream.Accepted? && !SameClaims(env.claims(upstream.access), env.claims(token))
    ensures t == s.(calls := s.calls[pid := Failed])
  {
    hide Inv, Refreshed, BoundTo;
    LoneRefresh(env, s, pid, id, token, verified, upstream, t);
    if Succeeds(env, s, id, token, verified, upstream) {
      LastTokenGrants(env, s, id, token);
      GrantedIsBound(env, token, s.rows[id].context);
      BoundAlike(s.rows[id].context, env.claims(token), env.claims(upstream.access));
      assert false;
    }
  }

  lemma BoundAlike(context: Context, c: Identity, d: Identity)
    requires BoundTo(context, c) && BoundTo(context, d)
    ensures SameClaims(d, c)
  {
  }

  /** A revocation with nothing interleaved stamps the row exactly if it is usable and of the expected context, and does nothing else. */
  lemma LoneRevocation(env: Env, s: State, pid: nat, id: string, expected: Context, t: State)
    requires Inv(env, s) && pid !in s.calls
    requires t == Step(env, Step(env, Step(env, s, Begin(pid, RevokeStarted(id, expected))), Advance(pid, Rejected)), Advance(pid, Rejected))
    ensures pid in t.calls
    ensures t.calls[pid].RevokeDone? <==>
              && id in s.rows && s.rows[id].revokedAt.None? && s.now < s.rows[id].expiresAt
              && Normalize(expected, env.le) == s.rows[id].context
    ensures t.rows == if t.calls[pid].RevokeDone? then s.rows[id := s.rows[id].(revokedAt := Some(s.now))] else s.rows
    ensures t.history == s.history && t.now == s.now && (t.calls[pid].RevokeDone? || t.calls[pid] == Failed)
  {
    hide Inv, Normalize;
    assert Step(env, s, Begin(pid, RevokeStarted(id, expected))) == Move(s, pid, RevokeStarted(id, expected));
    hide Step;
    ReadStep(env, s, pid, RevokeStarted(id, expected), Rejected);
    LoneRevokeRead(env, s, id, expected);
    var call := AfterRevokeRead(env, s, id, expected);
    if call.RevokePrepared? { StampStep(env, s, pid, call.revocation, Rejected); } else { EndedStays(env, s, pid, Rejected); }
  }

  lemma LoneRevokeRead(env: Env, s: State, id: string, expected: Context)
    requires Inv(env, s)
    ensures
      AfterRevokeRead(env, s, id, expected)
      == if id in s.rows && s.rows[id].revokedAt.None? && s.now < s.rows[id].expiresAt && Normalize(expected, env.le) == s.rows[id].context
         then RevokePrepared(Revocation(id, s.rows[id].context.tenantId, s.now)) else Failed
  {
    hide Inv, NormalizeAuthorization;
    if id in s.rows {
      SessionIsIntact(env, s, id);
      ContextMatchesIff(s.rows[id].context, expected, env.le);
    }
  }

  lemma StampStep(env: Env, s: State, pid: nat, r: Revocation, reply: Reply)
    requires r.id in s.rows && s.rows[r.id].context.tenantId == r.tenantId && s.rows[r.id].revokedAt.None?
    ensures
      var t := Step(env, Move(s, pid, RevokePrepared(r)), Advance(pid, reply));
      && t.rows == s.rows[r.id := s.rows[r.id].(revokedAt := Some(r.at))] && t.history == s.history && t.now == s.now
      && pid in t.calls && t.calls[pid] == RevokeDone(r.id)
  {
    hide NextCall;
    assert Move(s, pid, RevokePrepared(r)).rows == s.rows;
  }

  // ---- the clock ----

  function Elapsed(actions: seq<Action>): nat {
    if actions == [] then 0
    else Elapsed(actions[..|actions| - 1]) + match actions[|actions| - 1] case Tick(elapsed) => elapsed case _ => 0
  }

  /** The clock shows the time passed, whatever the calls did meanwhile. */
  lemma {:induction false} ClockIs(env: Env, actions: seq<Action>)
    ensures Run(env, Initial, actions).now == Elapsed(actions)
    decreases |actions|
  {
    hide PrepareRotation, PrepareRevocation, LoadRow, NewRow, RotationApplies, RevocationApplies, NextCall;
    if actions != [] { ClockIs(env, actions[..|actions| - 1]); }
  }
}
