/** Where every answer of a run comes from: the tokens an upstream exchange returned, and nothing else. */
module ExchangeAnswers {
  import opened Prelude
  import opened ExchangeProtocol
  import opened ExchangeResults
  import opened ExchangeExclusion
  import opened AuthorizeCall

  /** Step i of the run was the upstream's answer to call q: these tokens. */
  predicate Received(actions: seq<Action>, i: nat, q: nat, tokens: Tokens) {
    && i < |actions| && actions[i].Advance? && actions[i].pid == q
    && actions[i].reply.Granted? && actions[i].reply.tokens == tokens
    && q in Run(Initial, actions[..i]).calls && Run(Initial, actions[..i]).calls[q].phase.Exchanging?
  }

  /** A call that has tokens received them, and a call that answered from its own exchange answered with them. */
  ghost predicate Traced(actions: seq<Action>, q: nat, phase: Phase) {
    && (phase.Exchanged? ==> exists i: nat :: Received(actions, i, q, phase.tokens))
    && (phase.Answered? && phase.source == q ==>
          exists i: nat, tokens :: Received(actions, i, q, tokens) && Answers(phase.response, tokens, phase.response.sessionId))
  }

  lemma ReceivedStays(actions: seq<Action>, a: Action, i: nat, q: nat, tokens: Tokens)
    requires Received(actions, i, q, tokens)
    ensures Received(actions + [a], i, q, tokens)
  {
    hide Run;
    assert (actions + [a])[..i] == actions[..i];
  }

  lemma TracedStays(actions: seq<Action>, a: Action, q: nat, phase: Phase)
    requires Traced(actions, q, phase)
    ensures Traced(actions + [a], q, phase)
  {
    hide Received, Answers;
    if phase.Exchanged? {
      var i: nat :| Received(actions, i, q, phase.tokens);
      ReceivedStays(actions, a, i, q, phase.tokens);
    }
    if phase.Answered? && phase.source == q {
      var i: nat, tokens :| Received(actions, i, q, tokens) && Answers(phase.response, tokens, phase.response.sessionId);
      ReceivedStays(actions, a, i, q, tokens);
    }
  }

  lemma NewPhaseTraced(actions: seq<Action>, pid: nat, reply: Reply)
    requires
      var s := Run(Initial, actions);
      Inv(s) && pid in s.calls && Traced(actions, pid, s.calls[pid].phase)
    ensures
      var s, a := Run(Initial, actions), Advance(pid, reply);
      pid in Step(s, a).calls && Traced(actions + [a], pid, Step(s, a).calls[pid].phase)
  {
    hide Run, Inv, Step, Received, Answers, KeyHash, ResponseFor, SameRow, SameClaim, Holds;
    var s, a := Run(Initial, actions), Advance(pid, reply);
    AdvanceEffect(s, pid, reply);
    match s.calls[pid].phase
    case Exchanging =>
      ExchangeStep(s, pid, reply);
      if reply.Granted? { assert Received(actions + [a], |actions|, pid, reply.tokens) by { JustReceived(actions, pid, reply); } }
    case Exchanged(tokens) =>
      StoreStep(s, pid, reply);
      ResponseAnswers(tokens, if reply.Granted? then reply.sessionId else "");
      var i: nat :| Received(actions, i, pid, tokens);
      ReceivedStays(actions, a, i, pid, tokens);
      StoredAnswer(s, pid, tokens, if reply.Granted? then reply.sessionId else "");
    case Arrived => if Step(s, a).calls[pid].phase.Answered? { AuthorIsAnother(s, KeyHash(s.calls[pid].request), pid); }
    case Clashed => if Step(s, a).calls[pid].phase.Answered? { AuthorIsAnother(s, KeyHash(s.calls[pid].request), pid); }
    case Answered(_, _) => TracedStays(actions, a, pid, s.calls[pid].phase);
    case _ =>
  }

  lemma JustReceived(actions: seq<Action>, pid: nat, reply: Reply)
    requires pid in Run(Initial, actions).calls && Run(Initial, actions).calls[pid].phase.Exchanging? && reply.Granted?
    ensures Received(actions + [Advance(pid, reply)], |actions|, pid, reply.tokens)
  {
    hide Run;
    assert (actions + [Advance(pid, reply)])[..|actions|] == actions;
  }

  lemma StoredAnswer(s: State, pid: nat, tokens: Tokens, sessionId: string)
    requires pid in s.calls
    ensures
      var to := Store(s, pid, tokens, sessionId).calls[pid].phase;
      to == Failed(RejectedAfterExchange) || (to == Answered(ResponseFor(tokens, sessionId), pid) && to.response.sessionId == sessionId)
  {
    hide KeyHash, AadOf;
  }

  lemma {:induction false} AllTraced(actions: seq<Action>, q: nat)
    requires q in Run(Initial, actions).calls
    ensures Traced(actions, q, Run(Initial, actions).calls[q].phase)
    decreases |actions|
  {
    hide Step, Traced, Inv;
    if actions == [] {
      assert false;
    } else {
      var before, a := actions[..|actions| - 1], actions[|actions| - 1];
      var s := Run(Initial, before);
      assert actions == before + [a];
      RunKeepsInv(before);
      if q in s.calls { AllTraced(before, q); }
      if a.Advance? && a.pid == q && q in s.calls {
        NewPhaseTraced(before, q, a.reply);
      } else {
        UnmovedPhase(s, a, q);
        if q in s.calls { TracedStays(before, a, q, s.calls[q].phase); } else { ArrivedIsTraced(actions, q); }
      }
    }
  }

  lemma ArrivedIsTraced(actions: seq<Action>, q: nat)
    ensures Traced(actions, q, Arrived)
  {
  }

  lemma UnmovedPhase(s: State, a: Action, q: nat)
    requires q in Step(s, a).calls && !(a.Advance? && a.pid == q && q in s.calls)
    ensures if q in s.calls then Step(s, a).calls[q].phase == s.calls[q].phase else Step(s, a).calls[q].phase == Arrived
  {
    hide AdvanceCall, KeyHash, Moves, SameRow, Keeps;
    if a.Advance? {
      if a.pid in s.calls { AdvanceEffect(s, a.pid, a.reply); }
    } else {
      ArrivalKeeps(s, a);
    }
  }

  /**
   In every run, replays and expiry included: an answer carries the access token,
   lifetime and scope that the upstream returned to the call whose exchange it
   is, and asks for a refresh a minute before that lifetime ends, but after one
   second at the earliest.
   */
  lemma AnswersCarryTheirTokens(actions: seq<Action>, p: nat) returns (i: nat)
    requires p in Run(Initial, actions).calls && Run(Initial, actions).calls[p].phase.Answered?
    ensures
      var phase := Run(Initial, actions).calls[p].phase;
      && i < |actions| && actions[i].Advance? && actions[i].pid == phase.source && actions[i].reply.Granted?
      && phase.source in Run(Initial, actions[..i]).calls && Run(Initial, actions[..i]).calls[phase.source].phase.Exchanging?
      && var tokens := actions[i].reply.tokens;
         && phase.response.access == tokens.access && phase.response.expiresIn == tokens.expiresIn && phase.response.scope == tokens.scope
         && phase.response.refreshAfter == (if tokens.expiresIn > 61 then tokens.expiresIn - 60 else 1)
         && (tokens.expiresIn > 1 ==> phase.response.refreshAfter < phase.response.expiresIn)
  {
    hide Run, Inv, Traced;
    AnswersBelongToTheRequest(actions, p);
    var phase := Run(Initial, actions).calls[p].phase;
    AllTraced(actions, phase.source);
    var j: nat, tokens := SourceReceived(actions, phase.source, phase.response);
    i := j;
  }

  lemma SourceReceived(actions: seq<Action>, q: nat, response: Response) returns (i: nat, tokens: Tokens)
    requires Traced(actions, q, Answered(response, q))
    ensures Received(actions, i, q, tokens) && Answers(response, tokens, response.sessionId)
  {
    hide Received, Answers;
    i, tokens :| Received(actions, i, q, tokens) && Answers(response, tokens, response.sessionId);
  }
}
