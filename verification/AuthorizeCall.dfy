/**
 The authorize call as one piece of code, run with nothing interleaved: it ends
 in the state the step machine reaches when it advances that call alone.
 */
module AuthorizeCall {
  import opened Prelude
  import opened ExchangeProtocol

  /** The outside world's answers to one call, in the order it may ask for them. */
  datatype Script = Script(credential: bool, exchange: Option<Tokens>, accepted: bool, sessionId: string)

  function ReplyFor(phase: Phase, script: Script): Reply {
    match phase
    case Ready => if script.credential then Granted(Tokens("", 0, ""), "") else Denied
    case Exchanging => if script.exchange.Some? then Granted(script.exchange.value, "") else Denied
    case Exchanged(tokens) => if script.accepted then Granted(tokens, script.sessionId) else Denied
    case _ => Denied
  }

  /** How many phases a call that runs alone still has ahead of it. */
  function Ahead(phase: Phase): nat {
    match phase
    case Arrived => 6
    case Dropping(retry) => 5
    case Ready => 4
    case Claiming => 3
    case Clashed => 6
    case Exchanging => 2
    case Exchanged(_) => 1
    case Releasing => 1
    case _ => 0
  }

  /** States of a call that runs alone: nobody else can have inserted its claim. */
  predicate Unrivalled(s: State) {
    && 0 in s.calls
    && !s.calls[0].phase.Clashed?
    && (s.calls[0].phase.Claiming? || s.calls[0].phase.Ready? ==> KeyHash(s.calls[0].request) !in s.rows)
    && (s.calls[0].phase.Dropping? ==> !s.calls[0].phase.retry)
  }

  function Next(s: State, script: Script): State
    requires 0 in s.calls
  {
    AdvanceCall(s, 0, ReplyFor(s.calls[0].phase, script))
  }

  // the next state, phase by phase

  lemma NextStep(s: State, script: Script)
    requires 0 in s.calls
    ensures Next(s, script) == Step(s, Advance(0, ReplyFor(s.calls[0].phase, script)))
  {
    hide AdvanceCall, ReplyFor;
  }

  lemma NextArrived(s: State, script: Script)
    requires Unrivalled(s) && s.calls[0].phase.Arrived?
    ensures Next(s, script) == ReadReplay(s, 0, Ready, false)
    ensures Unrivalled(Next(s, script)) && Ahead(Next(s, script).calls[0].phase) < 6
  {
    hide KeyHash, RequestHash, AadOf, Next, Step;
    NextStep(s, script);
    ReplayStep(s, 0, Denied);
  }

  lemma NextDropping(s: State, script: Script)
    requires Unrivalled(s) && s.calls[0].phase.Dropping?
    ensures Next(s, script) == Drop(s, 0, KeyHash(s.calls[0].request), false)
    ensures Unrivalled(Next(s, script)) && Ahead(Next(s, script).calls[0].phase) < 5
  {
    hide KeyHash, Next, Step;
    NextStep(s, script);
    DropStep(s, 0, Denied);
  }

  lemma NextReady(s: State, script: Script)
    requires Unrivalled(s) && s.calls[0].phase.Ready?
    ensures Next(s, script) == Goto(s, 0, if script.credential then Claiming else Failed(ClientUnavailable))
    ensures Unrivalled(Next(s, script)) && Ahead(Next(s, script).calls[0].phase) < 4
  {
    hide KeyHash, Next, Step;
    NextStep(s, script);
    ReadyStep(s, 0, ReplyFor(Ready, script));
  }

  lemma NextClaiming(s: State, script: Script)
    requires Unrivalled(s) && s.calls[0].phase.Claiming?
    ensures Next(s, script) == Insert(s, 0)
    ensures Next(s, script).calls[0].phase.Exchanging?
    ensures Unrivalled(Next(s, script)) && Ahead(Next(s, script).calls[0].phase) < 3
  {
    hide KeyHash, RequestHash, Next, Step;
    NextStep(s, script);
    InsertStep(s, 0, Denied);
  }

  lemma NextExchanging(s: State, script: Script)
    requires Unrivalled(s) && s.calls[0].phase.Exchanging?
    ensures Next(s, script) == Goto(s, 0, if script.exchange.Some? then Exchanged(script.exchange.value) else Releasing)
    ensures Unrivalled(Next(s, script)) && Ahead(Next(s, script).calls[0].phase) < 2
  {
    hide KeyHash, Next, Step;
    NextStep(s, script);
    ExchangeStep(s, 0, ReplyFor(Exchanging, script));
  }

  lemma EndedIsUnrivalled(s: State)
    requires 0 in s.calls && (s.calls[0].phase.Answered? || s.calls[0].phase.Failed?)
    ensures Unrivalled(s) && Ahead(s.calls[0].phase) == 0
  {
  }

  lemma StoreEnds(s: State, tokens: Tokens, sessionId: string)
    requires 0 in s.calls
    ensures var t := Store(s, 0, tokens, sessionId); 0 in t.calls && (t.calls[0].phase.Answered? || t.calls[0].phase.Failed?)
  {
    hide KeyHash, AadOf, ResponseFor;
  }

  lemma NextExchanged(s: State, script: Script)
    requires Unrivalled(s) && s.calls[0].phase.Exchanged?
    ensures Next(s, script)
         == if script.accepted then Store(s, 0, s.calls[0].phase.tokens, script.sessionId) else Goto(s, 0, Failed(RejectedAfterExchange))
    ensures Unrivalled(Next(s, script)) && Ahead(Next(s, script).calls[0].phase) == 0
  {
    hide Next, Step, Store, KeyHash;
    NextStep(s, script);
    StoreStep(s, 0, ReplyFor(s.calls[0].phase, script));
    StoreEnds(s, s.calls[0].phase.tokens, script.sessionId);
    EndedIsUnrivalled(Next(s, script));
  }

  lemma NextReleasing(s: State, script: Script)
    requires Unrivalled(s) && s.calls[0].phase.Releasing?
    ensures Next(s, script) == Release(s, 0)
    ensures Unrivalled(Next(s, script)) && Ahead(Next(s, script).calls[0].phase) < 1
  {
    hide KeyHash, Next, Step;
    NextStep(s, script);
    ReleaseStep(s, 0, Denied);
  }

  lemma NextComesCloser(s: State, script: Script)
    requires Unrivalled(s) && Ahead(s.calls[0].phase) > 0
    ensures Unrivalled(Next(s, script)) && Ahead(Next(s, script).calls[0].phase) < Ahead(s.calls[0].phase)
  {
    hide Next, KeyHash;
    match s.calls[0].phase
    case Arrived => NextArrived(s, script);
    case Dropping(_) => NextDropping(s, script);
    case Ready => NextReady(s, script);
    case Claiming => NextClaiming(s, script);
    case Exchanging => NextExchanging(s, script);
    case Exchanged(_) => NextExchanged(s, script);
    case Releasing => NextReleasing(s, script);
    case _ =>
  }

  /** The call in s.calls[0] runs to its end by itself. */
  function Solo(s: State, script: Script): (t: State)
    requires Unrivalled(s)
    ensures Unrivalled(t) && (t.calls[0].phase.Answered? || t.calls[0].phase.Failed?)
    decreases Ahead(s.calls[0].phase)
  {
    if Ahead(s.calls[0].phase) == 0 then s
    else
      NextComesCloser(s, script);
      Solo(Next(s, script), script)
  }

  lemma SoloStep(s: State, script: Script)
    requires Unrivalled(s) && Ahead(s.calls[0].phase) > 0
    ensures Unrivalled(Next(s, script)) && Solo(s, script) == Solo(Next(s, script), script)
  {
    NextComesCloser(s, script);
    hide Next, Unrivalled;
  }

  lemma SoloDone(s: State, script: Script)
    requires Unrivalled(s) && Ahead(s.calls[0].phase) == 0
    ensures Solo(s, script) == s
  {
  }

  // where a lone call goes from each stage

  /** The read of the claim: it ends the call, or leaves the key free. */
  lemma SoloFromArrived(s: State, r: Request, script: Script) returns (ready: State)
    requires 0 in s.calls && Unrivalled(s) && s.calls[0] == Call(r, Arrived)
    ensures
      var phase := Replayed(s, 0, r, Ready, false);
      if phase.Answered? || phase.Failed? then
        var t := Solo(s, script);
        t.rows == s.rows && t.sessions == s.sessions && t.calls[0].phase == phase
      else
        && 0 in ready.calls && Unrivalled(ready) && Solo(s, script) == Solo(ready, script) && ready.calls[0] == Call(r, Ready)
        && ready.rows == s.rows - {KeyHash(r)} && ready.sessions == s.sessions && ready.now == s.now
        && (phase.Ready? || phase == Dropping(false))
  {
    hide Solo, Next, Unrivalled, KeyHash, Replayed;
    NextArrived(s, script);
    SoloStep(s, script);
    ready := Next(s, script);
    var phase := Replayed(s, 0, r, Ready, false);
    ReplayedIs(s, r);
    if phase.Answered? || phase.Failed? {
      SoloDone(ready, script);
    } else if phase.Dropping? {
      NextDropping(ready, script);
      SoloStep(ready, script);
      ready := Next(ready, script);
    }
  }

  lemma ReplayedIs(s: State, r: Request)
    ensures
      var phase := Replayed(s, 0, r, Ready, false);
      && (phase.Answered? || phase.Failed? || phase == Ready || phase == Dropping(false))
      && (phase == Ready ==> KeyHash(r) !in s.rows)
  {
    hide KeyHash, RequestHash, AadOf;
  }

  /** The credential and the claim. */
  lemma SoloFromReady(s: State, r: Request, script: Script) returns (exchanging: State)
    requires 0 in s.calls && Unrivalled(s) && s.calls[0] == Call(r, Ready)
    ensures
      if script.credential then
        && 0 in exchanging.calls && Unrivalled(exchanging) && Solo(s, script) == Solo(exchanging, script) && exchanging.calls[0] == Call(r, Exchanging)
        && exchanging.rows == s.rows[KeyHash(r) := Claim(r.clientId, RequestHash(r), None, s.now + CLAIM_LIFETIME)]
        && exchanging.sessions == s.sessions
      else
        var t := Solo(s, script);
        t.rows == s.rows && t.sessions == s.sessions && t.calls[0].phase == Failed(ClientUnavailable)
  {
    hide Solo, Next, Unrivalled, KeyHash, RequestHash;
    NextReady(s, script);
    SoloStep(s, script);
    var claiming := Next(s, script);
    exchanging := claiming;
    if script.credential {
      KeyIsFree(claiming);
      NextClaiming(claiming, script);
      SoloStep(claiming, script);
      exchanging := Next(claiming, script);
    } else {
      SoloDone(claiming, script);
    }
  }

  lemma KeyIsFree(s: State)
    requires Unrivalled(s) && s.calls[0].phase.Claiming?
    ensures KeyHash(s.calls[0].request) !in s.rows
  {
  }

  /** The exchange and what follows it. */
  lemma SoloFromExchanging(s: State, r: Request, script: Script)
    requires 0 in s.calls && Unrivalled(s) && s.calls[0] == Call(r, Exchanging)
    requires KeyHash(r) in s.rows && s.rows[KeyHash(r)].response.None?
    ensures
      var t, k := Solo(s, script), KeyHash(r);
      if script.exchange.None? then
        t.rows == s.rows - {k} && t.sessions == s.sessions && t.calls[0].phase == Failed(ExchangeFailed)
      else if !script.accepted || script.sessionId in s.sessions then
        t.rows == s.rows && t.sessions == s.sessions && t.calls[0].phase == Failed(RejectedAfterExchange)
      else
        var response := ResponseFor(script.exchange.value, script.sessionId);
        && t.rows == s.rows[k := s.rows[k].(response := Some(SealedResponse(response, AadOf(r))))]
        && t.sessions == s.sessions[script.sessionId := 0] && t.calls[0].phase == Answered(response, 0)
  {
    hide Solo, Next, Unrivalled, KeyHash, RequestHash, AadOf, ResponseFor;
    NextExchanging(s, script);
    SoloStep(s, script);
    var next := Next(s, script);
    if script.exchange.None? { NextReleasing(next, script); } else { NextExchanged(next, script); }
    SoloStep(next, script);
    SoloDone(Next(next, script), script);
  }

  function Alone(rows: map<Digest, Claim>, sessions: map<string, nat>, now: int, r: Request): State {
    State(rows, sessions, now, map[0 := Call(r, Arrived)], map[], map[], {})
  }

  lemma AloneIsUnrivalled(rows: map<Digest, Claim>, sessions: map<string, nat>, now: int, r: Request)
    ensures Unrivalled(Alone(rows, sessions, now, r))
  {
  }

  // ---- what a lone call answers ----

  /** The claim to look at: one that has not expired, or is not this request's. */
  predicate Blocks(rows: map<Digest, Claim>, now: int, r: Request) {
    var k := Digest(r.clientId + "\0" + r.key);
    && k in rows
    && (rows[k].clientId != r.clientId
        || rows[k].requestHash != Digest("eduplus_widget_handoff\0" + r.clientId + "\0" + r.code)
        || now < rows[k].expiresAt)
  }

  /** The answer to an exchange of its own: the tokens' lifetime, and a refresh a minute before it ends but not before a second. */
  predicate Answers(response: Response, tokens: Tokens, sessionId: string) {
    && response.access == tokens.access && response.expiresIn == tokens.expiresIn && response.scope == tokens.scope
    && response.sessionId == sessionId
    && response.refreshAfter >= 1 && response.refreshAfter >= tokens.expiresIn - 60
    && (response.refreshAfter == 1 || response.refreshAfter == tokens.expiresIn - 60)
    && (tokens.expiresIn > 1 ==> response.refreshAfter < response.expiresIn)
  }

  lemma ResponseAnswers(tokens: Tokens, sessionId: string)
    ensures Answers(ResponseFor(tokens, sessionId), tokens, sessionId)
  {
  }

  lemma HashesAre(r: Request)
    ensures KeyHash(r) == Digest(r.clientId + "\0" + r.key)
    ensures RequestHash(r) == Digest("eduplus_widget_handoff\0" + r.clientId + "\0" + r.code)
  {
    assert GRANT_TYPE + "\0" + r.clientId + "\0" + r.code == "eduplus_widget_handoff\0" + r.clientId + "\0" + r.code;
  }

  /** No claim in the way: the call exchanges, and every refusal has its own cause. */
  lemma LoneExchange(rows: map<Digest, Claim>, sessions: map<string, nat>, now: int, r: Request, script: Script)
    requires !Blocks(rows, now, r)
    ensures
      var phase := Solo(Alone(rows, sessions, now, r), script).calls[0].phase;
      && (phase.Answered? <==> script.credential && script.exchange.Some? && script.accepted && script.sessionId !in sessions)
      && (phase.Answered? ==> Answers(phase.response, script.exchange.value, script.sessionId))
      && (phase.Failed? ==>
            phase.error == if !script.credential then ClientUnavailable
                           else if script.exchange.None? then ExchangeFailed else RejectedAfterExchange)
  {
    hide Solo, Unrivalled, KeyHash, RequestHash, AadOf, ResponseFor, Answers;
    HashesAre(r);
    AloneIsUnrivalled(rows, sessions, now, r);
    var ready := SoloFromArrived(Alone(rows, sessions, now, r), r, script);
    var exchanging := SoloFromReady(ready, r, script);
    if script.credential { SoloFromExchanging(exchanging, r, script); }
    if script.exchange.Some? { ResponseAnswers(script.exchange.value, script.sessionId); }
  }

  /** A claim in the way: the call answers its response if it is this request's and sealed for it, and changes nothing. */
  lemma LoneReplay(rows: map<Digest, Claim>, sessions: map<string, nat>, now: int, r: Request, script: Script)
    requires Blocks(rows, now, r)
    ensures
      var t, claim := Solo(Alone(rows, sessions, now, r), script), rows[Digest(r.clientId + "\0" + r.key)];
      var phase := t.calls[0].phase;
      && t.rows == rows && t.sessions == sessions
      && (phase.Answered? ==> claim.response.Some? && claim.response.value.plain == phase.response)
      && (phase.Answered? <==>
            && claim.clientId == r.clientId
            && claim.requestHash == Digest("eduplus_widget_handoff\0" + r.clientId + "\0" + r.code)
            && claim.response.Some?
            && claim.response.value.aad == ReplayAad(Digest(r.clientId + "\0" + r.key), r.clientId, claim.requestHash))
      && (phase.Failed? ==>
            phase.error == if claim.clientId != r.clientId then OtherClient
                           else if claim.requestHash != Digest("eduplus_widget_handoff\0" + r.clientId + "\0" + r.code) then OtherRequest
                           else if claim.response.None? then InProgress else ReplayInvalid)
  {
    hide Solo, Unrivalled, KeyHash, RequestHash;
    HashesAre(r);
    AloneIsUnrivalled(rows, sessions, now, r);
    var ready := SoloFromArrived(Alone(rows, sessions, now, r), r, script);
  }

  /** A success of its own leaves one claim, of this request, for a minute, with the answer sealed for it. */
  lemma LoneSuccessWrites(rows: map<Digest, Claim>, sessions: map<string, nat>, now: int, r: Request, script: Script)
    requires !Blocks(rows, now, r) && Solo(Alone(rows, sessions, now, r), script).calls[0].phase.Answered?
    ensures
      var t, k := Solo(Alone(rows, sessions, now, r), script), Digest(r.clientId + "\0" + r.key);
      && t.sessions == sessions[script.sessionId := 0] && k in t.rows && t.rows == rows[k := t.rows[k]]
      && t.rows[k].clientId == r.clientId && t.rows[k].expiresAt == now + 60000
      && t.rows[k].requestHash == Digest("eduplus_widget_handoff\0" + r.clientId + "\0" + r.code)
      && t.rows[k].response == Some(SealedResponse(t.calls[0].phase.response, ReplayAad(k, r.clientId, t.rows[k].requestHash)))
  {
    hide Solo, Unrivalled, KeyHash, RequestHash, ResponseFor;
    HashesAre(r);
    AloneIsUnrivalled(rows, sessions, now, r);
    var ready := SoloFromArrived(Alone(rows, sessions, now, r), r, script);
    var exchanging := SoloFromReady(ready, r, script);
    if script.credential { SoloFromExchanging(exchanging, r, script); }
  }

  class WidgetAuthExchange {
    var rows: map<Digest, Claim>
    var sessions: map<string, nat>

    method LoadReplay(keyHash: Digest, r: Request, now: int) returns (replay: Result<Option<Response>, AuthError>)
      requires keyHash == KeyHash(r)
      modifies this
      ensures sessions == old(sessions)
      ensures rows == if replay == Ok(None) then old(rows) - {keyHash} else old(rows)
      ensures
        var phase := Replayed(Alone(old(rows), old(sessions), now, r), 0, r, Ready, false);
        && (phase.Ready? ==> replay == Ok(None) && keyHash !in old(rows))
        && (phase.Dropping? ==> replay == Ok(None) && !phase.retry)
        && (phase.Failed? ==> replay == Err(phase.error))
        && (phase.Answered? ==> replay == Ok(Some(phase.response)))
    {
      if keyHash !in rows { return Ok(None); }
      var existing := rows[keyHash];
      if existing.clientId != r.clientId { return Err(OtherClient); }
      if existing.requestHash != RequestHash(r) { return Err(OtherRequest); }
      if existing.expiresAt <= now {
        rows := rows - {keyHash};
        return Ok(None);
      }
      if existing.response.None? { return Err(InProgress); }
      var plain := Open(existing.response.value, AadOf(r));
      if plain.None? { return Err(ReplayInvalid); }
      return Ok(Some(plain.value));
    }

    method Authorize(r: Request, now: int, script: Script) returns (result: Result<Response, AuthError>)
      modifies this
      ensures
        var t := Solo(Alone(old(rows), old(sessions), now, r), script);
        && rows == t.rows && sessions == t.sessions
        && (result.Ok? <==> t.calls[0].phase.Answered?)
        && (result.Ok? ==> t.calls[0].phase.response == result.value)
        && (result.Err? ==> t.calls[0].phase == Failed(result.error))
      ensures !Blocks(old(rows), now, r) ==>
                && (result.Ok? <==> script.credential && script.exchange.Some? && script.accepted && script.sessionId !in old(sessions))
                && (result.Ok? ==> Answers(result.value, script.exchange.value, script.sessionId))
    {
      hide Solo, Unrivalled, KeyHash, RequestHash, AadOf, Open, ResponseFor, Answers, Blocks;
      if !Blocks(rows, now, r) { LoneExchange(rows, sessions, now, r, script); }
      ghost var s := Alone(rows, sessions, now, r);
      AloneIsUnrivalled(rows, sessions, now, r);
      var keyHash := KeyHash(r);
      var replay := LoadReplay(keyHash, r, now);
      ghost var ready := SoloFromArrived(s, r, script);
      if replay.Err? { return Err(replay.error); }
      if replay.value.Some? { return Ok(replay.value.value); }
      ghost var exchanging := SoloFromReady(ready, r, script);
      if !script.credential { return Err(ClientUnavailable); }
      rows := rows[keyHash := Claim(r.clientId, RequestHash(r), None, now + CLAIM_LIFETIME)];
      result := ExchangeAndStore(r, keyHash, script, exchanging);
    }

    /** The try block, with its exchangeCompleted flag; `s` is where the step machine stands. */
    method ExchangeAndStore(r: Request, keyHash: Digest, script: Script, ghost s: State)
      returns (result: Result<Response, AuthError>)
      requires keyHash == KeyHash(r) && keyHash in rows && rows[keyHash].response.None?
      requires 0 in s.calls && Unrivalled(s) && s.calls[0] == Call(r, Exchanging)
      requires rows == s.rows && sessions == s.sessions
      modifies this
      ensures
        var t := Solo(s, script);
        && rows == t.rows && sessions == t.sessions
        && (result.Ok? ==> t.calls[0].phase.Answered? && t.calls[0].phase.response == result.value)
        && (result.Err? ==> t.calls[0].phase == Failed(result.error))
      ensures result.Ok? ==> script.exchange.Some? && Answers(result.value, script.exchange.value, script.sessionId)
    {
      hide Solo, Unrivalled, KeyHash, RequestHash, AadOf, ResponseFor, Answers;
      SoloFromExchanging(s, r, script);
      if script.exchange.Some? { ResponseAnswers(script.exchange.value, script.sessionId); }
      var exchangeCompleted := script.exchange.Some?;
      if !exchangeCompleted {
        rows := rows - {keyHash};
        return Err(ExchangeFailed);
      }
      var tokens := script.exchange.value;
      if !script.accepted || script.sessionId in sessions { return Err(RejectedAfterExchange); }
      var response := ResponseFor(tokens, script.sessionId);
      sessions := sessions[script.sessionId := 0];
      rows := rows[keyHash := rows[keyHash].(response := Some(SealedResponse(response, AadOf(r))))];
      return Ok(response);
    }
  }

  /** Alone on an unclaimed key, a call that succeeds leaves its response in its claim row. */
  lemma SuccessIsStored(rows: map<Digest, Claim>, sessions: map<string, nat>, now: int, r: Request, script: Script)
    requires KeyHash(r) !in rows
    requires Solo(Alone(rows, sessions, now, r), script).calls[0].phase.Answered?
    ensures
      var t := Solo(Alone(rows, sessions, now, r), script);
      t.rows == rows[KeyHash(r) := Claim(r.clientId, RequestHash(r),
                                         Some(SealedResponse(t.calls[0].phase.response, AadOf(r))), now + CLAIM_LIFETIME)]
  {
    hide Solo, Unrivalled, KeyHash, RequestHash, AadOf, ResponseFor;
    AloneIsUnrivalled(rows, sessions, now, r);
    var ready := SoloFromArrived(Alone(rows, sessions, now, r), r, script);
    var exchanging := SoloFromReady(ready, r, script);
    SoloFromExchanging(exchanging, r, script);
  }

  /** A lost answer can be fetched again: the same request within the claim's lifetime gets the stored response and changes nothing. */
  lemma RetryReplays(rows: map<Digest, Claim>, sessions: map<string, nat>, now: int, r: Request, script: Script, later: int, script': Script)
    requires KeyHash(r) !in rows
    requires Solo(Alone(rows, sessions, now, r), script).calls[0].phase.Answered?
    requires now <= later < now + CLAIM_LIFETIME
    ensures
      var t := Solo(Alone(rows, sessions, now, r), script);
      var u := Solo(Alone(t.rows, t.sessions, later, r), script');
      u.rows == t.rows && u.sessions == t.sessions && u.calls[0].phase.Answered?
      && u.calls[0].phase.response == t.calls[0].phase.response
  {
    hide KeyHash, RequestHash, AadOf, Solo, Unrivalled;
    AloneIsUnrivalled(rows, sessions, now, r);
    SuccessIsStored(rows, sessions, now, r, script);
    var t := Solo(Alone(rows, sessions, now, r), script);
    AloneIsUnrivalled(t.rows, t.sessions, later, r);
    var ready := SoloFromArrived(Alone(t.rows, t.sessions, later, r), r, script');
  }
}
