/** What holds of widget sessions in every run, whatever the interleaving. */
module SessionResults {
  import opened Prelude
  import opened WidgetContext
  import opened SessionStore
  import opened SessionProtocol

  lemma Reachable(env: Env, actions: seq<Action>)
    ensures Inv(env, Run(env, Initial, actions))
  {
    hide SessionOk, CallOk;
    assert Inv(env, Initial);
    RunKeepsInv(env, Initial, actions);
  }

  lemma ReachableSession(env: Env, actions: seq<Action>, id: string)
    requires id in Run(env, Initial, actions).rows
    ensures
      var s := Run(env, Initial, actions);
      id in s.history && SessionOk(env, id, s.rows[id], s.history[id], RevokedAfter(s, id))
  {
    hide SessionOk, CallOk, Run;
    Reachable(env, actions);
  }

  /**
   Committed rotations form a chain: the first pair comes from the authorisation,
   every later one replaced exactly the hash installed just before it, on a row
   that had not expired; the row holds the last pair, and nothing was installed
   after the revocation.
   */
  lemma RotationsFormAChain(env: Env, actions: seq<Action>, id: string)
    requires id in Run(env, Initial, actions).rows
    ensures
      var s := Run(env, Initial, actions);
      && id in s.history && |s.history[id]| > 0
      && s.history[id][0].previous.None?
      && (forall i | 0 < i < |s.history[id]| ::
            && s.history[id][i].previous == Some(TokenHash(s.history[id][i - 1].token))
            && s.history[id][i].at < s.history[id][i].validUntil)
      && s.rows[id].accessTokenHash == TokenHash(s.history[id][|s.history[id]| - 1].token)
      && (s.rows[id].revokedAt.Some? <==> id in s.revokedAfter)
      && (id in s.revokedAfter ==> s.revokedAfter[id] == |s.history[id]|)
  {
    hide Run, RowIntact, Grants;
    ReachableSession(env, actions, id);
    var h := Run(env, Initial, actions).history[id];
    forall i | 0 < i < |h| ensures h[i].previous == Some(TokenHash(h[i - 1].token)) && h[i].at < h[i].validUntil {
      assert Linked(h, i);
    }
  }

  /** With fresh new tokens, no two refreshes that both succeed presented the same access token. */
  lemma EachTokenIsSpentOnce(env: Env, actions: seq<Action>, p: nat, q: nat)
    requires p in Run(env, Initial, actions).calls && q in Run(env, Initial, actions).calls
    requires var s := Run(env, Initial, actions);
             && s.calls[p].RefreshDone? && s.calls[q].RefreshDone?
             && s.calls[p].id == s.calls[q].id && s.calls[p].token == s.calls[q].token
    requires var s := Run(env, Initial, actions);
             s.calls[p].id in s.history ==>
               forall i, j | 0 <= i < j < |s.history[s.calls[p].id]| ::
                 s.history[s.calls[p].id][i].token != s.history[s.calls[p].id][j].token
    ensures p == q
  {
    hide Run, Grants, RowIntact;
    Reachable(env, actions);
    var s := Run(env, Initial, actions);
    assert CallOk(env, s, p, s.calls[p]) && CallOk(env, s, q, s.calls[q]);
    var id, i, j := s.calls[p].id, s.calls[p].position, s.calls[q].position;
    assert SessionOk(env, id, s.rows[id], s.history[id], RevokedAfter(s, id));
    assert Linked(s.history[id], i) && Linked(s.history[id], j);
    assert s.history[id][i - 1].token == s.history[id][j - 1].token;
  }

  /**
   In every reachable state load succeeds exactly on a usable row, with the last
   installed access token and with the session's context up to list order; it
   returns the refresh token installed together with that access token, and the
   integrity check never fails.
   */
  lemma LoadInAnyRun(env: Env, actions: seq<Action>, id: string, token: string, expected: Context)
    ensures
      var s := Run(env, Initial, actions);
      var r := LoadRow(s.rows, s.now, id, token, expected, env.le);
      && r != Err(SessionIntegrityFailed)
      && (r.Ok? <==>
            && id in s.rows && id in s.history && |s.history[id]| > 0
            && id !in s.revokedAfter && s.now < s.rows[id].expiresAt
            && token == s.history[id][|s.history[id]| - 1].token
            && SameBinding(s.rows[id].context, expected)
            && SamePermissions(s.rows[id].context.authorization, expected.authorization)
            && SameTieOrder(s.rows[id].context.authorization, expected.authorization, env.le))
      && (r.Ok? ==> r.value == Loaded(s.rows[id].context, s.history[id][|s.history[id]| - 1].refreshToken))
  {
    hide Run, Grants, LoadRow, SameTieOrder, NormalizePairs, RowIntact, CallOk, InstallOwned;
    Reachable(env, actions);
    var s := Run(env, Initial, actions);
    forall o | o in s.rows ensures RowIntact(o, s.rows[o], env.le) {
      assert SessionOk(env, o, s.rows[o], s.history[o], RevokedAfter(s, o));
    }
    LoadSucceedsIff(s.rows, s.now, id, token, expected, env.le);
    if id in s.rows { assert SessionOk(env, id, s.rows[id], s.history[id], RevokedAfter(s, id)); }
  }

  /**
   Every access token ever handed out for a session, by the authorisation or by
   any refresh, carries the same context: same identity, same configuration,
   the same permissions in any order.
   */
  lemma ContextNeverChanges(env: Env, actions: seq<Action>, id: string, i: nat, j: nat)
    requires id in Run(env, Initial, actions).rows && id in Run(env, Initial, actions).history
    requires i < |Run(env, Initial, actions).history[id]| && j < |Run(env, Initial, actions).history[id]|
    ensures
      var s := Run(env, Initial, actions);
      var tenantId := s.rows[id].context.tenantId;
      var c := SessionContext(tenantId, env.claims(s.history[id][i].token));
      var d := SessionContext(tenantId, env.claims(s.history[id][j].token));
      SameBinding(c, d) && SamePermissions(c.authorization, d.authorization) && SameTieOrder(c.authorization, d.authorization, env.le)
  {
    hide Run, Normalize, SessionContext, RowIntact, Chain;
    ReachableSession(env, actions, id);
    var s := Run(env, Initial, actions);
    var context := s.rows[id].context;
    assert Grants(env, s.history[id][i].token, context) && Grants(env, s.history[id][j].token, context);
    NormalizeEqualIff(SessionContext(context.tenantId, env.claims(s.history[id][i].token)),
                      SessionContext(context.tenantId, env.claims(s.history[id][j].token)), env.le);
  }

  /** A refresh that succeeded answered with a token its session really installed, for the token it was shown. */
  lemma RefreshAnswersAreInstalled(env: Env, actions: seq<Action>, p: nat)
    requires p in Run(env, Initial, actions).calls && Run(env, Initial, actions).calls[p].RefreshDone?
    ensures
      var s := Run(env, Initial, actions);
      var call := s.calls[p];
      && call.id in s.history && 0 < call.position < |s.history[call.id]|
      && s.history[call.id][call.position].token == call.newAccess
      && s.history[call.id][call.position - 1].token == call.token
  {
    hide Run, Grants, RowIntact;
    Reachable(env, actions);
    var s := Run(env, Initial, actions);
    var call := s.calls[p];
    assert CallOk(env, s, p, call);
    assert SessionOk(env, call.id, s.rows[call.id], s.history[call.id], RevokedAfter(s, call.id));
    assert Linked(s.history[call.id], call.position);
  }

  /** A call that ends in an error leaves every session, and the record of what was installed, as it found them. */
  lemma LosingCallChangesNothing(env: Env, s: State, pid: nat, reply: Reply)
    requires pid in s.calls && AdvanceCall(env, s, pid, reply).calls[pid] == Failed
    ensures AdvanceCall(env, s, pid, reply).rows == s.rows
    ensures AdvanceCall(env, s, pid, reply).history == s.history
    ensures AdvanceCall(env, s, pid, reply).revokedAfter == s.revokedAfter
  {
    hide NextCall;
  }

  lemma {:induction false} RunAppend(env: Env, s: State, a: seq<Action>, b: seq<Action>)
    ensures Run(env, s, a + b) == Run(env, Run(env, s, a), b)
    decreases |b|
  {
    hide Step;
    if b == [] {
      assert a + b == a;
    } else {
      RunAppend(env, s, a, b[..|b| - 1]);
      assert (a + b)[..|a + b| - 1] == a + b[..|b| - 1];
    }
  }

  /** Whatever runs later, installed pairs are never rewritten and sessions are never rebound. */
  lemma HistoryOnlyGrows(env: Env, a: seq<Action>, b: seq<Action>)
    ensures Extends(Run(env, Initial, a), Run(env, Initial, a + b))
  {
    hide Inv, Extends;
    Reachable(env, a);
    RunAppend(env, Initial, a, b);
    RunKeepsInv(env, Run(env, Initial, a), b);
  }

  lemma RevokedStaysRevoked(env: Env, s: State, a: Action, id: string)
    requires Inv(env, s) && id in s.revokedAfter
    ensures id in Step(env, s, a).revokedAfter && Step(env, s, a).revokedAfter[id] == s.revokedAfter[id]
  {
    hide NextCall, CallOk, Grants, RowIntact, Chain, InstallOwned;
    assert SessionOk(env, id, s.rows[id], s.history[id], RevokedAfter(s, id));
  }

  lemma {:induction false} RevocationPersists(env: Env, s: State, actions: seq<Action>, id: string)
    requires Inv(env, s) && id in s.revokedAfter
    ensures id in Run(env, s, actions).revokedAfter && Run(env, s, actions).revokedAfter[id] == s.revokedAfter[id]
    decreases |actions|
  {
    hide Step, Inv;
    if actions != [] {
      var before := actions[..|actions| - 1];
      RevocationPersists(env, s, before, id);
      RunKeepsInv(env, s, before);
      RevokedStaysRevoked(env, Run(env, s, before), actions[|actions| - 1], id);
    }
  }

  /** Once a session is revoked no run installs anything in it again, including rotations already past their read. */
  lemma NothingInstalledAfterRevocation(env: Env, a: seq<Action>, b: seq<Action>, id: string)
    requires id in Run(env, Initial, a).revokedAfter
    ensures
      var s, t := Run(env, Initial, a), Run(env, Initial, a + b);
      id in s.history && id in t.history && t.history[id] == s.history[id]
  {
    hide Run, SessionOk, CallOk, InstallOwned;
    Reachable(env, a);
    Reachable(env, a + b);
    RunAppend(env, Initial, a, b);
    var s, t := Run(env, Initial, a), Run(env, Initial, a + b);
    RevocationPersists(env, s, b, id);
    RotationsFormAChain(env, a, id);
    RotationsFormAChain(env, a + b, id);
    HistoryOnlyGrows(env, a, b);
    assert s.history[id] <= t.history[id];
  }
}
