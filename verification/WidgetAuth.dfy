/**
 Authorisation, refresh and revocation of widgets together.  The exchange
 protocol and the session protocol advance on one clock, and the transaction
 that ends an exchange writes both tables: the session with its first token
 pair, and the response that names it.
 */
module WidgetAuth {
  import opened Prelude
  import opened WidgetContext
  import SessionStore
  import Session = SessionProtocol
  import SessionResults
  import SessionClaims
  import Exchange = ExchangeProtocol
  import ExchangeExclusion
  import ExchangeResults

  const DEFAULT_REFRESH_LIFETIME := 1800

  datatype State = State(exchange: Exchange.State, session: Session.State)

  const Initial := State(Exchange.Initial, Session.Initial)

  /** What the session alone needs: the tenant of the loaded credential and the refresh half of the exchanged tokens. */
  datatype Grant = Grant(tenantId: string, refresh: Option<string>, refreshExpiresIn: Option<int>)

  datatype Action =
    | Tick(elapsed: nat)
    | BeginAuthorize(pid: nat, request: Exchange.Request)
    | AdvanceAuthorize(pid: nat, reply: Exchange.Reply, grant: Grant)
    | BeginSessionCall(pid: nat, call: Session.Call)
    | AdvanceSessionCall(pid: nat, answer: Session.Reply)

  function Lifetime(g: Grant): int {
    if g.refreshExpiresIn.Some? && g.refreshExpiresIn.value > 0 then g.refreshExpiresIn.value else DEFAULT_REFRESH_LIFETIME
  }

  /** The exchanged tokens are refused without a refresh token or a positive lifetime. */
  predicate Complete(tokens: Exchange.Tokens, g: Grant) {
    g.refresh.Some? && g.refresh.value != "" && tokens.expiresIn > 0
  }

  /** What the call makes of the reply: the scope it will answer with is read from the access token's claims. */
  function Heard(env: Session.Env, phase: Exchange.Phase, reply: Exchange.Reply, g: Grant): Exchange.Reply {
    match phase
    case Exchanging =>
      if reply.Denied? then reply else reply.(tokens := reply.tokens.(scope := env.claims(reply.tokens.access).scope))
    case Exchanged(tokens) => if Complete(tokens, g) then reply else Exchange.Denied
    case _ => reply
  }

  /** The next step of the call is the transaction, and it commits. */
  predicate Commits(s: Exchange.State, pid: nat, reply: Exchange.Reply) {
    && pid in s.calls && s.calls[pid].phase.Exchanged? && reply.Granted?
    && Exchange.StoreApplies(s, pid, reply.sessionId)
  }

  function ExchangeAction(env: Session.Env, s: State, a: Action): Option<Exchange.Action> {
    match a
    case Tick(elapsed) => Some(Exchange.Tick(elapsed))
    case BeginAuthorize(pid, request) => Some(Exchange.Begin(pid, request))
    case AdvanceAuthorize(pid, reply, g) =>
      if pid in s.exchange.calls then Some(Exchange.Advance(pid, Heard(env, s.exchange.calls[pid].phase, reply, g))) else None
    case BeginSessionCall(_, _) => None
    case AdvanceSessionCall(_, _) => None
  }

  function SessionAction(env: Session.Env, s: State, a: Action): Option<Session.Action> {
    match a
    case Tick(elapsed) => Some(Session.Tick(elapsed))
    case BeginAuthorize(_, _) => None
    case AdvanceAuthorize(pid, reply, g) =>
      if pid in s.exchange.calls && Commits(s.exchange, pid, Heard(env, s.exchange.calls[pid].phase, reply, g))
      then CreationOf(s, pid, reply.sessionId, g)
      else None
    case BeginSessionCall(pid, call) => Some(Session.Begin(pid, call))
    case AdvanceSessionCall(pid, answer) => Some(Session.Advance(pid, answer))
  }

  /** The session half of the transaction. */
  function CreationOf(s: State, pid: nat, id: string, g: Grant): Option<Session.Action>
    requires pid in s.exchange.calls && s.exchange.calls[pid].phase.Exchanged?
  {
    Some(Session.Authorize(id, g.tenantId, s.exchange.calls[pid].phase.tokens.access, g.refresh.GetOr(""),
                           s.session.now + Lifetime(g) * 1000))
  }

  function ExchangeStep(s: Exchange.State, a: Option<Exchange.Action>): Exchange.State {
    if a.Some? then Exchange.Step(s, a.value) else s
  }

  function SessionStep(env: Session.Env, s: Session.State, a: Option<Session.Action>): Session.State {
    if a.Some? then Session.Step(env, s, a.value) else s
  }

  function Step(env: Session.Env, s: State, a: Action): State {
    State(ExchangeStep(s.exchange, ExchangeAction(env, s, a)), SessionStep(env, s.session, SessionAction(env, s, a)))
  }

  function Run(env: Session.Env, actions: seq<Action>): State
    decreases |actions|
  {
    if actions == [] then Initial else Step(env, Run(env, actions[..|actions| - 1]), actions[|actions| - 1])
  }

  // ---- every run of the two together is a run of each ----

  lemma SessionSnoc(env: Session.Env, actions: seq<Session.Action>, a: Session.Action)
    ensures Session.Run(env, Session.Initial, actions + [a]) == Session.Step(env, Session.Run(env, Session.Initial, actions), a)
  {
    hide Session.Step;
    assert (actions + [a])[..|actions + [a]| - 1] == actions;
  }

  /** So everything proved of one protocol alone holds of its part here. */
  lemma {:induction false} Projects(env: Session.Env, actions: seq<Action>)
    returns (exchange: seq<Exchange.Action>, session: seq<Session.Action>)
    ensures Run(env, actions) == State(Exchange.Run(Exchange.Initial, exchange), Session.Run(env, Session.Initial, session))
    decreases |actions|
  {
    hide Exchange.Run, Session.Run, Exchange.Step, Session.Step, ExchangeAction, SessionAction;
    if actions == [] {
      exchange, session := [], [];
      EmptyRuns(env);
    } else {
      exchange, session := Projects(env, actions[..|actions| - 1]);
      var s := Run(env, actions[..|actions| - 1]);
      var x, y := ExchangeAction(env, s, actions[|actions| - 1]), SessionAction(env, s, actions[|actions| - 1]);
      if x.Some? {
        ExchangeResults.Snoc(exchange, x.value);
        exchange := exchange + [x.value];
      }
      if y.Some? {
        SessionSnoc(env, session, y.value);
        session := session + [y.value];
      }
    }
  }

  lemma EmptyRuns(env: Session.Env)
    ensures Exchange.Run(Exchange.Initial, []) == Exchange.Initial && Session.Run(env, Session.Initial, []) == Session.Initial
  {
  }

  // ---- what joins them ----

  /** The response that a call's own transaction stored is the first pair of the session it created. */
  ghost predicate Opened(env: Session.Env, s: State, id: string)
    requires id in s.exchange.sessions
  {
    var source := s.exchange.sessions[id];
    && source in s.exchange.calls && s.exchange.calls[source].phase.Answered?
    && id in s.session.history && |s.session.history[id]| > 0
    && s.session.history[id][0].token == s.exchange.calls[source].phase.response.access
    && s.exchange.calls[source].phase.response.scope == env.claims(s.exchange.calls[source].phase.response.access).scope
  }

  ghost predicate AllOpened(env: Session.Env, s: State) {
    forall id | id in s.exchange.sessions :: Opened(env, s, id)
  }

  /** The tokens of an exchange under way carry the scope of their access token. */
  ghost predicate Scoped(env: Session.Env, c: Exchange.Call) {
    c.phase.Exchanged? ==> c.phase.tokens.scope == env.claims(c.phase.tokens.access).scope
  }

  ghost predicate AllScoped(env: Session.Env, s: Exchange.State) {
    forall p | p in s.calls :: Scoped(env, s.calls[p])
  }

  ghost predicate Inv(env: Session.Env, s: State) {
    && Exchange.Inv(s.exchange) && Session.Inv(env, s.session)
    && s.exchange.sessions.Keys == s.session.rows.Keys
    && AllOpened(env, s) && AllScoped(env, s.exchange)
  }

  lemma AdvanceKeepsScopes(env: Session.Env, s: Exchange.State, pid: nat, reply: Exchange.Reply, g: Grant)
    requires AllScoped(env, s) && pid in s.calls
    ensures AllScoped(env, Exchange.Step(s, Exchange.Advance(pid, Heard(env, s.calls[pid].phase, reply, g))))
  {
    hide Exchange.Step, Exchange.SameRow, Exchange.KeyHash;
    var heard := Heard(env, s.calls[pid].phase, reply, g);
    if s.calls[pid].phase.Exchanging? {
      Exchange.ExchangeStep(s, pid, heard);
    } else {
      ExchangeExclusion.AdvanceEffect(s, pid, heard);
    }
  }

  /** A step of the exchange protocol that is not a committing transaction leaves its sessions alone. */
  lemma OnlyCommitsCreate(s: Exchange.State, pid: nat, reply: Exchange.Reply)
    requires pid in s.calls
    ensures
      var t := Exchange.AdvanceCall(s, pid, reply);
      if Commits(s, pid, reply) then
        && t.sessions == s.sessions[reply.sessionId := pid] && pid in t.calls
        && t.calls[pid].phase == Exchange.Answered(Exchange.ResponseFor(s.calls[pid].phase.tokens, reply.sessionId), pid)
      else t.sessions == s.sessions
  {
    hide Exchange.KeyHash, Exchange.RequestHash, Exchange.AadOf, Exchange.ResponseFor, Exchange.Replayed;
  }

  /** What one step does to the two tables: nothing, or a session and the response that names it. */
  ghost predicate TablesAgree(env: Session.Env, s: State, t: State) {
    || (t.exchange.sessions == s.exchange.sessions && t.session.rows.Keys == s.session.rows.Keys)
    || exists pid, id :: CreatedBy(env, s, t, pid, id)
  }

  ghost predicate CreatedBy(env: Session.Env, s: State, t: State, pid: nat, id: string) {
    && id !in s.exchange.sessions && t.exchange.sessions == s.exchange.sessions[id := pid]
    && pid in s.exchange.calls && s.exchange.calls[pid].phase.Exchanged?
    && pid in t.exchange.calls
    && t.exchange.calls[pid].phase == Exchange.Answered(Exchange.ResponseFor(s.exchange.calls[pid].phase.tokens, id), pid)
    && t.session.rows.Keys == s.session.rows.Keys + {id}
    && id in t.session.history && |t.session.history[id]| > 0
    && t.session.history[id][0].token == s.exchange.calls[pid].phase.tokens.access
  }

  lemma QuietSessionStep(env: Session.Env, s: Session.State, a: Session.Action)
    requires !a.Authorize?
    ensures Session.Step(env, s, a).rows.Keys == s.rows.Keys
  {
    hide Session.NextCall, SessionStore.RotatedRow;
  }

  lemma QuietExchangeStep(s: Exchange.State, a: Exchange.Action)
    requires !a.Advance? || a.pid !in s.calls || !Commits(s, a.pid, a.reply)
    ensures Exchange.Step(s, a).sessions == s.sessions
  {
    hide Exchange.AdvanceCall;
    if a.Advance? && a.pid in s.calls { OnlyCommitsCreate(s, a.pid, a.reply); }
  }

  lemma CommitCreates(env: Session.Env, s: State, pid: nat, reply: Exchange.Reply, g: Grant)
    requires s.exchange.sessions.Keys == s.session.rows.Keys
    requires pid in s.exchange.calls && Commits(s.exchange, pid, Heard(env, s.exchange.calls[pid].phase, reply, g))
    ensures reply.Granted? && CreatedBy(env, s, Step(env, s, AdvanceAuthorize(pid, reply, g)), pid, reply.sessionId)
  {
    hide Exchange.AdvanceCall, Exchange.ResponseFor, SessionStore.NewRow, Exchange.KeyHash;
    var heard := Heard(env, s.exchange.calls[pid].phase, reply, g);
    assert heard == reply;
    OnlyCommitsCreate(s.exchange, pid, heard);
  }

  lemma StepTables(env: Session.Env, s: State, a: Action)
    requires s.exchange.sessions.Keys == s.session.rows.Keys
    ensures TablesAgree(env, s, Step(env, s, a))
  {
    hide Exchange.Step, Session.Step, Heard, CreatedBy, Commits;
    var x, y := ExchangeAction(env, s, a), SessionAction(env, s, a);
    if a.AdvanceAuthorize? && a.pid in s.exchange.calls
       && Commits(s.exchange, a.pid, Heard(env, s.exchange.calls[a.pid].phase, a.reply, a.grant)) {
      CommitCreates(env, s, a.pid, a.reply, a.grant);
    } else {
      if x.Some? { QuietExchangeStep(s.exchange, x.value); }
      if y.Some? { QuietSessionStep(env, s.session, y.value); }
    }
  }

  lemma StepKeepsScopes(env: Session.Env, s: State, a: Action)
    requires AllScoped(env, s.exchange)
    ensures AllScoped(env, Step(env, s, a).exchange)
  {
    hide Exchange.AdvanceCall, Heard, SessionAction;
    if a.AdvanceAuthorize? && a.pid in s.exchange.calls { AdvanceKeepsScopes(env, s.exchange, a.pid, a.reply, a.grant); }
  }

  lemma StepKeepsParts(env: Session.Env, s: State, a: Action)
    requires Exchange.Inv(s.exchange) && Session.Inv(env, s.session)
    ensures
      var t := Step(env, s, a);
      && Exchange.Inv(t.exchange) && Exchange.Keeps(s.exchange, t.exchange)
      && Session.Inv(env, t.session) && Session.Extends(s.session, t.session)
  {
    hide Exchange.Inv, Session.Inv, Exchange.Step, Session.Step, ExchangeAction, SessionAction, Exchange.Keeps;
    var x, y := ExchangeAction(env, s, a), SessionAction(env, s, a);
    Exchange.KeepsItself(s.exchange);
    if x.Some? { Exchange.StepKeepsInv(s.exchange, x.value); }
    if y.Some? { Session.StepKeepsInv(env, s.session, y.value); } else { ExtendsItself(s.session); }
  }

  lemma ExtendsItself(s: Session.State)
    ensures Session.Extends(s, s)
  {
  }

  lemma OpenedStays(env: Session.Env, s: State, t: State, id: string)
    requires Exchange.Keeps(s.exchange, t.exchange) && Session.Extends(s.session, t.session)
    requires id in s.exchange.sessions && id in s.session.rows && Opened(env, s, id)
    ensures id in t.exchange.sessions && Opened(env, t, id)
  {
  }

  lemma NewlyOpened(env: Session.Env, s: State, t: State, pid: nat, id: string)
    requires CreatedBy(env, s, t, pid, id) && Scoped(env, s.exchange.calls[pid])
    ensures id in t.exchange.sessions && Opened(env, t, id)
  {
  }

  lemma StepKeepsInv(env: Session.Env, s: State, a: Action)
    requires Inv(env, s)
    ensures Inv(env, Step(env, s, a))
  {
    hide Exchange.Inv, Session.Inv, Exchange.Keeps, Session.Extends, Step, Opened, Scoped, CreatedBy;
    var t := Step(env, s, a);
    StepKeepsParts(env, s, a);
    StepKeepsScopes(env, s, a);
    StepTables(env, s, a);
    if t.exchange.sessions == s.exchange.sessions && t.session.rows.Keys == s.session.rows.Keys {
      forall id | id in t.exchange.sessions ensures Opened(env, t, id) { OpenedStays(env, s, t, id); }
    } else {
      var pid, id :| CreatedBy(env, s, t, pid, id);
      CreationKeeps(env, s, t, pid, id);
    }
  }

  lemma CreationKeeps(env: Session.Env, s: State, t: State, pid: nat, id: string)
    requires CreatedBy(env, s, t, pid, id) && s.exchange.sessions.Keys == s.session.rows.Keys
    requires Exchange.Keeps(s.exchange, t.exchange) && Session.Extends(s.session, t.session)
    requires AllOpened(env, s) && AllScoped(env, s.exchange)
    ensures t.exchange.sessions.Keys == t.session.rows.Keys && AllOpened(env, t)
  {
    hide Exchange.Keeps, Session.Extends, Opened, Scoped;
    forall o | o in t.exchange.sessions ensures Opened(env, t, o) {
      if o == id { NewlyOpened(env, s, t, pid, id); } else { OpenedStays(env, s, t, o); }
    }
  }

  lemma {:induction false} RunKeepsInv(env: Session.Env, actions: seq<Action>)
    ensures Inv(env, Run(env, actions))
    decreases |actions|
  {
    hide Step, Exchange.CallOk, Exchange.RowOk, Exchange.SessionOk, Session.SessionOk, Session.CallOk;
    if actions != [] {
      RunKeepsInv(env, actions[..|actions| - 1]);
      StepKeepsInv(env, Run(env, actions[..|actions| - 1]), actions[|actions| - 1]);
    }
  }

  // ---- end to end ----

  /**
   Whatever interleaves, expiry and replay included: an answer of authorize names
   a session of the table whose first installed pair is the answered access
   token, and the session is bound to the scope the answer reports.
   */
  lemma AnswerOpensItsSession(env: Session.Env, actions: seq<Action>, p: nat)
    requires p in Run(env, actions).exchange.calls && Run(env, actions).exchange.calls[p].phase.Answered?
    ensures
      var s := Run(env, actions);
      var response := s.exchange.calls[p].phase.response;
      var id := response.sessionId;
      && id in s.session.rows && id in s.session.history && |s.session.history[id]| > 0
      && s.session.history[id][0].token == response.access
      && s.session.history[id][0].previous.None?
      && s.session.rows[id].context.scope == response.scope
  {
    hide Run, Exchange.CallsOk, Exchange.RowsOk, Exchange.SessionsOk, Session.CallsOk, Session.InstallsOwned, SessionStore.RowIntact, Session.Linked;
    RunKeepsInv(env, actions);
    var s := Run(env, actions);
    var id := s.exchange.calls[p].phase.response.sessionId;
    var exchange, session := Projects(env, actions);
    ExchangeResults.AnswersBelongToTheRequest(exchange, p);
    assert Opened(env, s, id);
    assert Session.SessionOk(env, id, s.session.rows[id], s.session.history[id], Session.RevokedAfter(s.session, id));
    assert Session.Grants(env, s.session.history[id][0].token, s.session.rows[id].context);
  }

  /** Two answers name one session exactly when they come from one exchange. */
  lemma SessionsFollowExchanges(env: Session.Env, actions: seq<Action>, p: nat, q: nat)
    requires var s := Run(env, actions).exchange;
             p in s.calls && q in s.calls && s.calls[p].phase.Answered? && s.calls[q].phase.Answered?
    ensures
      var s := Run(env, actions).exchange;
      s.calls[p].phase.response.sessionId == s.calls[q].phase.response.sessionId
      <==> s.calls[p].phase.source == s.calls[q].phase.source
  {
    hide Run, Exchange.Run, Session.Run;
    var exchange, session := Projects(env, actions);
    ExchangeResults.AnswersBelongToTheRequest(exchange, p);
    ExchangeResults.AnswersBelongToTheRequest(exchange, q);
  }

  /**
   The context never changes, counted from authorize's own answer: every access
   token installed later in the session that an answer names carries what the
   answered token carries, the permissions in any order.
   */
  lemma ContextFollowsTheAnswer(env: Session.Env, actions: seq<Action>, p: nat, i: nat)
    requires p in Run(env, actions).exchange.calls && Run(env, actions).exchange.calls[p].phase.Answered?
    requires
      var s := Run(env, actions);
      var id := s.exchange.calls[p].phase.response.sessionId;
      id in s.session.history ==> i < |s.session.history[id]|
    ensures
      var s := Run(env, actions);
      var response := s.exchange.calls[p].phase.response;
      && response.sessionId in s.session.rows && response.sessionId in s.session.history
      && i < |s.session.history[response.sessionId]|
      && var tenantId := s.session.rows[response.sessionId].context.tenantId;
         var c := SessionContext(tenantId, env.claims(response.access));
         var d := SessionContext(tenantId, env.claims(s.session.history[response.sessionId][i].token));
         SameBinding(c, d) && SamePermissions(c.authorization, d.authorization)
         && SameTieOrder(c.authorization, d.authorization, env.le)
  {
    hide Run, Session.Run, Exchange.Run, SameTieOrder, SamePermissions, SessionContext;
    AnswerOpensItsSession(env, actions, p);
    var exchange, session := Projects(env, actions);
    SessionResults.ContextNeverChanges(env, session, Run(env, actions).exchange.calls[p].phase.response.sessionId, 0, i);
  }

  /** In particular the token that a successful refresh of that session returns. */
  lemma RefreshFollowsTheAnswer(env: Session.Env, actions: seq<Action>, p: nat, q: nat)
    requires p in Run(env, actions).exchange.calls && Run(env, actions).exchange.calls[p].phase.Answered?
    requires q in Run(env, actions).session.calls && Run(env, actions).session.calls[q].RefreshDone?
    requires Run(env, actions).session.calls[q].id == Run(env, actions).exchange.calls[p].phase.response.sessionId
    ensures
      var s := Run(env, actions);
      var response := s.exchange.calls[p].phase.response;
      && response.sessionId in s.session.rows
      && var tenantId := s.session.rows[response.sessionId].context.tenantId;
         var c := SessionContext(tenantId, env.claims(response.access));
         var d := SessionContext(tenantId, env.claims(s.session.calls[q].newAccess));
         SameBinding(c, d) && SamePermissions(c.authorization, d.authorization)
         && SameTieOrder(c.authorization, d.authorization, env.le)
  {
    hide Run, Session.Run, Exchange.Run, SameTieOrder, SamePermissions, SessionContext, SameBinding;
    var exchange, session := Projects(env, actions);
    SessionResults.RefreshAnswersAreInstalled(env, session, q);
    ContextFollowsTheAnswer(env, actions, p, Run(env, actions).session.calls[q].position);
  }

  /**
   The answered token can be used to refresh for as long as it is the session's
   last: until another pair is installed, the session is revoked or it expires.
   */
  lemma AnsweredTokenLoads(env: Session.Env, actions: seq<Action>, p: nat)
    requires p in Run(env, actions).exchange.calls && Run(env, actions).exchange.calls[p].phase.Answered?
    ensures
      var s := Run(env, actions);
      var response := s.exchange.calls[p].phase.response;
      var id := response.sessionId;
      && id in s.session.rows && id in s.session.history && |s.session.history[id]| > 0
      && var expected := SessionContext(s.session.rows[id].context.tenantId, env.claims(response.access));
         var r := SessionStore.LoadRow(s.session.rows, s.session.now, id, response.access, expected, env.le);
         && (r.Ok? <==>
               && id !in s.session.revokedAfter && s.session.now < s.session.rows[id].expiresAt
               && s.session.history[id][|s.session.history[id]| - 1].token == response.access)
  {
    hide Run, Session.Run, Exchange.Run, SessionStore.LoadRow, SameTieOrder, SamePermissions, SameBinding;
    AnswerOpensItsSession(env, actions, p);
    var s := Run(env, actions);
    var id, access := s.exchange.calls[p].phase.response.sessionId, s.exchange.calls[p].phase.response.access;
    var exchange, session := Projects(env, actions);
    var expected := SessionContext(s.session.rows[id].context.tenantId, env.claims(access));
    SessionResults.LoadInAnyRun(env, session, id, access, expected);
    FirstTokenFits(env, session, id);
  }

  lemma FirstTokenFits(env: Session.Env, actions: seq<Session.Action>, id: string)
    requires var s := Session.Run(env, Session.Initial, actions);
             id in s.rows && id in s.history && |s.history[id]| > 0
    ensures
      var s := Session.Run(env, Session.Initial, actions);
      var stored := s.rows[id].context;
      var c := SessionContext(stored.tenantId, env.claims(s.history[id][0].token));
      SameBinding(stored, c) && SamePermissions(stored.authorization, c.authorization)
      && SameTieOrder(stored.authorization, c.authorization, env.le)
  {
    hide Session.Run, SameTieOrder, SamePermissions, SameBinding, SessionContext, Session.Chain;
    SessionResults.ReachableSession(env, actions, id);
    var s := Session.Run(env, Session.Initial, actions);
    var stored := s.rows[id].context;
    assert Session.Grants(env, s.history[id][0].token, stored);
    NormalizeEqualIff(stored, SessionContext(stored.tenantId, env.claims(s.history[id][0].token)), env.le);
  }

  /**
   In terms of what is signed: every access token installed later in the session
   that an answer names, and every token a refresh of it returns, is of the same
   person and configuration and grants the same permissions as the answered one.
   */
  lemma ClaimsFollowTheAnswer(env: Session.Env, actions: seq<Action>, p: nat, i: nat)
    requires p in Run(env, actions).exchange.calls && Run(env, actions).exchange.calls[p].phase.Answered?
    requires
      var s := Run(env, actions);
      var id := s.exchange.calls[p].phase.response.sessionId;
      id in s.session.history ==> i < |s.session.history[id]|
    ensures
      var s := Run(env, actions);
      var response := s.exchange.calls[p].phase.response;
      && response.sessionId in s.session.rows && response.sessionId in s.session.history && i < |s.session.history[response.sessionId]|
      && SessionClaims.SameClaims(env.claims(response.access), env.claims(s.session.history[response.sessionId][i].token))
      && SessionClaims.BoundTo(s.session.rows[response.sessionId].context, env.claims(response.access))
  {
    hide Run, Session.Run, Exchange.Run, SessionClaims.SameClaims, SessionClaims.BoundTo;
    AnswerOpensItsSession(env, actions, p);
    var exchange, session := Projects(env, actions);
    var id := Run(env, actions).exchange.calls[p].phase.response.sessionId;
    SessionClaims.ClaimsNeverChange(env, session, id, 0, i);
    SessionClaims.SessionIsBoundToItsTokens(env, session, id, 0);
  }

  lemma RefreshedClaimsFollowTheAnswer(env: Session.Env, actions: seq<Action>, p: nat, q: nat)
    requires p in Run(env, actions).exchange.calls && Run(env, actions).exchange.calls[p].phase.Answered?
    requires q in Run(env, actions).session.calls && Run(env, actions).session.calls[q].RefreshDone?
    requires Run(env, actions).session.calls[q].id == Run(env, actions).exchange.calls[p].phase.response.sessionId
    ensures
      var s := Run(env, actions);
      SessionClaims.SameClaims(env.claims(s.exchange.calls[p].phase.response.access), env.claims(s.session.calls[q].newAccess))
  {
    hide Run, Session.Run, Exchange.Run, SessionClaims.SameClaims, SessionClaims.BoundTo;
    var exchange, session := Projects(env, actions);
    SessionResults.RefreshAnswersAreInstalled(env, session, q);
    ClaimsFollowTheAnswer(env, actions, p, Run(env, actions).session.calls[q].position);
  }

  /**
   The transaction.  It commits exactly with a refresh token and a positive
   lifetime, for a session id that is free and a claim that is still there.  Then
   the session is the credential's tenant's, bound to the claims of the access
   token, and lasts as long as the upstream says or half an hour.
   */
  lemma TransactionOpens(env: Session.Env, s: State, pid: nat, reply: Exchange.Reply, g: Grant)
    requires s.exchange.sessions.Keys == s.session.rows.Keys
    requires pid in s.exchange.calls && s.exchange.calls[pid].phase.Exchanged?
    ensures
      var t, call := Step(env, s, AdvanceAuthorize(pid, reply, g)), s.exchange.calls[pid];
      && pid in t.exchange.calls
      && (t.exchange.calls[pid].phase.Answered? <==>
            && reply.Granted? && g.refresh.Some? && g.refresh.value != "" && call.phase.tokens.expiresIn > 0
            && reply.sessionId !in s.session.rows && Exchange.KeyHash(call.request) in s.exchange.rows)
      && (!t.exchange.calls[pid].phase.Answered? ==> t.session == s.session && t.exchange.sessions == s.exchange.sessions)
      && (t.exchange.calls[pid].phase.Answered? ==>
            && t.exchange.calls[pid].phase.response.sessionId == reply.sessionId
            && reply.sessionId in t.session.rows && t.session.rows == s.session.rows[reply.sessionId := t.session.rows[reply.sessionId]]
            && var row := t.session.rows[reply.sessionId];
               && row.context.tenantId == g.tenantId && SessionClaims.BoundTo(row.context, env.claims(call.phase.tokens.access))
               && row.accessTokenHash == SessionStore.TokenHash(call.phase.tokens.access) && row.refreshToken.plain == g.refresh.value
               && row.revokedAt.None?
               && row.expiresAt == s.session.now
                    + 1000 * (if g.refreshExpiresIn.Some? && g.refreshExpiresIn.value > 0 then g.refreshExpiresIn.value else 1800))
  {
    hide Exchange.Step, Session.Step, SessionClaims.BoundTo, Exchange.KeyHash;
    var call := s.exchange.calls[pid];
    var heard := Heard(env, call.phase, reply, g);
    TransactionEnds(s.exchange, pid, heard);
    if Commits(s.exchange, pid, heard) {
      SessionClaims.CreatedSession(env, s.session, reply.sessionId, g.tenantId, call.phase.tokens.access, g.refresh.value,
                                   s.session.now + Lifetime(g) * 1000);
    }
  }

  lemma TransactionEnds(s: Exchange.State, pid: nat, reply: Exchange.Reply)
    requires pid in s.calls && s.calls[pid].phase.Exchanged?
    ensures
      var t := Exchange.Step(s, Exchange.Advance(pid, reply));
      && pid in t.calls && (t.calls[pid].phase.Answered? <==> Commits(s, pid, reply))
      && (!Commits(s, pid, reply) ==> t.sessions == s.sessions)
      && (t.calls[pid].phase.Answered? ==> t.calls[pid].phase.response.sessionId == reply.sessionId)
  {
    hide Exchange.KeyHash, Exchange.AadOf;
    Exchange.StoreStep(s, pid, reply);
  }
}
