/** What idempotent authorisation guarantees in every run, and what expiry takes away from it. */
module ExchangeResults {
  import opened Prelude
  import opened ExchangeProtocol

  /** The upstream exchange of this call has succeeded, whatever happened afterwards. */
  predicate Completed(c: Call, pid: nat) {
    match c.phase
    case Exchanged(_) => true
    case Answered(_, source) => source == pid
    case Failed(e) => e == RejectedAfterExchange
    case _ => false
  }

  predicate InFlight(c: Call) {
    c.phase.Exchanging? || c.phase.Releasing?
  }

  /**
   One idempotency key that was never read as expired: at most one call, ever, is
   exchanging or has completed an exchange; and a completed one is never undone.
   */
  lemma AtMostOneExchange(actions: seq<Action>, p: nat, q: nat)
    requires p in Run(Initial, actions).calls && q in Run(Initial, actions).calls
    requires
      var s := Run(Initial, actions);
      && KeyHash(s.calls[p].request) == KeyHash(s.calls[q].request)
      && KeyHash(s.calls[p].request) !in s.expired
      && (InFlight(s.calls[p]) || Completed(s.calls[p], p))
      && (InFlight(s.calls[q]) || Completed(s.calls[q], q))
    ensures p == q
  {
    hide Run, Inv, CallOk, KeyHash;
    var s := Run(Initial, actions);
    RunKeepsInv(actions);
    InvCall(s, p);
    InvCall(s, q);
    OneHolder(s, p, q);
  }

  /** Completion is for good: no later step of any call takes it back. */
  lemma CompletedForGood(s: State, a: Action, p: nat)
    requires p in s.calls && Completed(s.calls[p], p)
    ensures p in Step(s, a).calls && Completed(Step(s, a).calls[p], p)
  {
    hide KeyHash, AadOf, AdvanceCall;
    if a.Advance? && a.pid in s.calls { AdvanceKeepsCompleted(s, a.pid, a.reply, p); }
  }

  lemma AdvanceKeepsCompleted(s: State, pid: nat, reply: Reply, p: nat)
    requires pid in s.calls && p in s.calls && Completed(s.calls[p], p)
    ensures p in AdvanceCall(s, pid, reply).calls && Completed(AdvanceCall(s, pid, reply).calls[p], p)
  {
    hide KeyHash, AadOf, Replayed, RequestHash, Completed;
    if p != pid {
      AdvanceLeavesOthers(s, pid, reply, p);
    } else {
      OwnCompletionStays(s, p, reply);
    }
  }

  lemma AdvanceLeavesOthers(s: State, pid: nat, reply: Reply, p: nat)
    requires pid in s.calls && p in s.calls && p != pid
    ensures p in AdvanceCall(s, pid, reply).calls && AdvanceCall(s, pid, reply).calls[p] == s.calls[p]
  {
    hide ReadReplay, Drop, Insert, Release, Store;
    match s.calls[pid].phase
    case Arrived => ReadLeavesOthers(s, pid, Ready, false, p);
    case Clashed => ReadLeavesOthers(s, pid, Failed(InProgress), true, p);
    case Dropping(retry) => DropLeavesOthers(s, pid, retry, p);
    case Claiming => InsertLeavesOthers(s, pid, p);
    case Exchanged(tokens) => if reply.Granted? { StoreLeavesOthers(s, pid, tokens, reply.sessionId, p); }
    case Releasing => ReleaseLeavesOthers(s, pid, p);
    case _ =>
  }

  lemma ReadLeavesOthers(s: State, pid: nat, absent: Phase, retry: bool, p: nat)
    requires pid in s.calls && p in s.calls && p != pid
    ensures var t := ReadReplay(s, pid, absent, retry); p in t.calls && t.calls[p] == s.calls[p]
  {
    hide Replayed, KeyHash;
  }

  lemma DropLeavesOthers(s: State, pid: nat, retry: bool, p: nat)
    requires pid in s.calls && p in s.calls && p != pid
    ensures var t := Drop(s, pid, KeyHash(s.calls[pid].request), retry); p in t.calls && t.calls[p] == s.calls[p]
  {
    hide KeyHash;
  }

  lemma InsertLeavesOthers(s: State, pid: nat, p: nat)
    requires pid in s.calls && p in s.calls && p != pid
    ensures p in Insert(s, pid).calls && Insert(s, pid).calls[p] == s.calls[p]
  {
    hide KeyHash, RequestHash;
  }

  lemma StoreLeavesOthers(s: State, pid: nat, tokens: Tokens, sessionId: string, p: nat)
    requires pid in s.calls && p in s.calls && p != pid
    ensures var t := Store(s, pid, tokens, sessionId); p in t.calls && t.calls[p] == s.calls[p]
  {
    hide KeyHash, AadOf, ResponseFor;
  }

  lemma ReleaseLeavesOthers(s: State, pid: nat, p: nat)
    requires pid in s.calls && p in s.calls && p != pid
    ensures p in Release(s, pid).calls && Release(s, pid).calls[p] == s.calls[p]
  {
    hide KeyHash;
  }

  lemma OwnCompletionStays(s: State, p: nat, reply: Reply)
    requires p in s.calls && Completed(s.calls[p], p)
    ensures p in AdvanceCall(s, p, reply).calls && Completed(AdvanceCall(s, p, reply).calls[p], p)
  {
    hide KeyHash, AadOf, RequestHash, ResponseFor, ReadReplay, Insert, Drop, Release;
  }

  /** All callers that succeed with one key receive the same response. */
  lemma SameResponseForAll(actions: seq<Action>, p: nat, q: nat)
    requires p in Run(Initial, actions).calls && q in Run(Initial, actions).calls
    requires
      var s := Run(Initial, actions);
      && KeyHash(s.calls[p].request) == KeyHash(s.calls[q].request)
      && KeyHash(s.calls[p].request) !in s.expired
      && s.calls[p].phase.Answered? && s.calls[q].phase.Answered?
    ensures
      var s := Run(Initial, actions);
      s.calls[p].phase == s.calls[q].phase && s.calls[p].request == s.calls[q].request
  {
    hide Run, Inv, KeyHash, AadOf;
    var s := Run(Initial, actions);
    RunKeepsInv(actions);
    InvCall(s, p);
    InvCall(s, q);
  }

  /**
   In every run, expiry included: an answer, replayed or not, is the answer of a
   call that exchanged the very same client, key and code, and that call created
   the session the answer names.
   */
  lemma AnswersBelongToTheRequest(actions: seq<Action>, p: nat)
    requires p in Run(Initial, actions).calls && Run(Initial, actions).calls[p].phase.Answered?
    ensures
      var s := Run(Initial, actions);
      var response, source := s.calls[p].phase.response, s.calls[p].phase.source;
      && source in s.calls
      && s.calls[source] == Call(s.calls[p].request, Answered(response, source))
      && response.sessionId in s.sessions && s.sessions[response.sessionId] == source
  {
    hide Run, Inv, KeyHash, AadOf;
    RunKeepsInv(actions);
    InvCall(Run(Initial, actions), p);
  }

  /** A response stored in somebody else's claim row is never served: the row does not open for its owner. */
  lemma ForeignResponseNeverOpens(actions: seq<Action>, k: Digest, reader: Request)
    requires k in Run(Initial, actions).rows && Run(Initial, actions).rows[k].response.Some?
    ensures
      var s := Run(Initial, actions);
      var sealed := s.rows[k].response.value;
      && k in s.author && s.author[k] in s.calls
      && (Open(sealed, AadOf(reader)).Some? <==> reader == s.calls[s.author[k]].request)
  {
    hide Run, Inv, KeyHash, AadOf;
    var s := Run(Initial, actions);
    RunKeepsInv(actions);
    InvRow(s, k);
    AadIdentifiesRequest(reader, s.calls[s.author[k]].request);
  }

  /**
   A never-expired key is claimed exactly as long as one of its calls is in
   flight or has completed; a failed exchange has released it.
   */
  lemma ClaimedIffHeld(actions: seq<Action>, k: Digest)
    requires k !in Run(Initial, actions).expired
    ensures
      var s := Run(Initial, actions);
      k in s.rows <==> exists p :: p in s.calls && KeyHash(s.calls[p].request) == k && (InFlight(s.calls[p]) || Completed(s.calls[p], p))
  {
    hide Run, Inv, KeyHash, AadOf;
    var s := Run(Initial, actions);
    RunKeepsInv(actions);
    if k in s.rows {
      InvRow(s, k);
      var p := s.holder[k];
      assert p in s.calls && KeyHash(s.calls[p].request) == k && (InFlight(s.calls[p]) || Completed(s.calls[p], p));
    }
    forall p | p in s.calls && KeyHash(s.calls[p].request) == k && (InFlight(s.calls[p]) || Completed(s.calls[p], p))
      ensures k in s.rows
    {
      InvCall(s, p);
    }
  }

  /** Sessions and successful exchanges correspond one to one: a rolled-back store leaves no session behind. */
  lemma OneSessionPerExchange(actions: seq<Action>)
    ensures
      var s := Run(Initial, actions);
      && (forall id | id in s.sessions ::
            var p := s.sessions[id];
            p in s.calls && s.calls[p].phase.Answered? && s.calls[p].phase.source == p && s.calls[p].phase.response.sessionId == id)
      && (forall p | p in s.calls && s.calls[p].phase.Answered? && s.calls[p].phase.source == p ::
            s.calls[p].phase.response.sessionId in s.sessions && s.sessions[s.calls[p].phase.response.sessionId] == p)
  {
    hide Run, RowOk, KeyHash, AadOf;
    var s := Run(Initial, actions);
    RunKeepsInv(actions);
    forall id | id in s.sessions ensures
      var p := s.sessions[id];
      p in s.calls && s.calls[p].phase.Answered? && s.calls[p].phase.source == p && s.calls[p].phase.response.sessionId == id
    {
      assert SessionOk(s, id);
    }
    forall p | p in s.calls && s.calls[p].phase.Answered? && s.calls[p].phase.source == p
      ensures s.calls[p].phase.response.sessionId in s.sessions && s.sessions[s.calls[p].phase.response.sessionId] == p
    {
      InvCall(s, p);
    }
  }

  lemma Snoc(actions: seq<Action>, a: Action)
    ensures Run(Initial, actions + [a]) == Step(Run(Initial, actions), a)
  {
    assert (actions + [a])[..|actions + [a]| - 1] == actions;
  }

  /** With nothing under its key, an arrived call needs three steps to have its claim inserted. */
  lemma ClaimInThreeSteps(actions: seq<Action>, s: State, pid: nat) returns (longer: seq<Action>)
    requires Run(Initial, actions) == s && pid in s.calls && s.calls[pid].phase.Ready?
    requires KeyHash(s.calls[pid].request) !in s.rows
    ensures Run(Initial, longer) == Insert(Goto(s, pid, Claiming), pid)
  {
    hide Run, KeyHash;
    var go := Advance(pid, Granted(Tokens("", 0, ""), ""));
    Snoc(actions, go);
    Snoc(actions + [go], go);
    longer := actions + [go] + [go];
  }

  /** A first call claims the key and is still exchanging when the claim expires. */
  lemma SlowExchange(r: Request) returns (actions: seq<Action>)
    ensures Run(Initial, actions)
         == State(map[KeyHash(r) := Claim(r.clientId, RequestHash(r), None, CLAIM_LIFETIME)], map[], CLAIM_LIFETIME,
                  map[0 := Call(r, Exchanging)], map[KeyHash(r) := 0], map[], {})
  {
    hide Run, KeyHash, AadOf, RequestHash;
    RunEmpty();
    Snoc([], Begin(0, r));
    var a1 := [] + [Begin(0, r)];
    Snoc(a1, Advance(0, Denied));
    var a2 := a1 + [Advance(0, Denied)];
    var a3 := ClaimInThreeSteps(a2, State(map[], map[], 0, map[0 := Call(r, Ready)], map[], map[], {}), 0);
    Snoc(a3, Tick(CLAIM_LIFETIME));
    actions := a3 + [Tick(CLAIM_LIFETIME)];
  }

  // ---- when a newcomer gets past a claim ----

  const Go := Granted(Tokens("", 0, ""), "")

  /** A new call arrives and takes its own first four steps, its client's credential being available. */
  function Enter(s: State, pid: nat, r: Request): State {
    Step(Step(Step(Step(Step(s, Begin(pid, r)), Advance(pid, Go)), Advance(pid, Go)), Advance(pid, Go)), Advance(pid, Go))
  }

  /** The guard of the branch that deletes a claim. */
  predicate LooksExpired(s: State, r: Request)
    requires KeyHash(r) in s.rows
  {
    var row := s.rows[KeyHash(r)];
    row.clientId == r.clientId && row.requestHash == RequestHash(r) && row.expiresAt <= s.now
  }

  /** s after call pid has replaced the claim of its request. */
  function Reclaimed(s: State, pid: nat, r: Request): State {
    s.(rows := s.rows[KeyHash(r) := Claim(r.clientId, RequestHash(r), None, s.now + CLAIM_LIFETIME)],
       holder := s.holder[KeyHash(r) := pid], expired := s.expired + {KeyHash(r)},
       calls := s.calls[pid := Call(r, Exchanging)])
  }

  /** The first two of the four steps: the claim is read as expired and deleted. */
  lemma ExpiredClaimIsDropped(s: State, pid: nat, r: Request)
    requires pid !in s.calls && KeyHash(r) in s.rows && LooksExpired(s, r)
    ensures
      var k := KeyHash(r);
      var s0 := Step(s, Begin(pid, r));
      Step(Step(s0, Advance(pid, Go)), Advance(pid, Go))
      == s.(rows := s.rows - {k}, holder := s.holder - {k}, expired := s.expired + {k}, calls := s.calls[pid := Call(r, Ready)])
  {
    hide KeyHash, RequestHash, AadOf, AdvanceCall;
    var s0 := Step(s, Begin(pid, r));
    ReplayStep(s0, pid, Go);
    var s1 := Step(s0, Advance(pid, Go));
    assert s1 == s.(calls := s.calls[pid := Call(r, Dropping(false))], expired := s.expired + {KeyHash(r)});
    DropStep(s1, pid, Go);
  }

  /** The other two: the credential is there, and the new claim goes in. */
  lemma FreeKeyIsClaimed(s: State, pid: nat, r: Request)
    requires pid in s.calls && s.calls[pid] == Call(r, Ready) && KeyHash(r) !in s.rows
    ensures
      Step(Step(s, Advance(pid, Go)), Advance(pid, Go))
      == s.(rows := s.rows[KeyHash(r) := Claim(r.clientId, RequestHash(r), None, s.now + CLAIM_LIFETIME)],
            holder := s.holder[KeyHash(r) := pid], calls := s.calls[pid := Call(r, Exchanging)])
  {
    hide KeyHash, RequestHash, AdvanceCall;
    ReadyStep(s, pid, Go);
    var s1 := Step(s, Advance(pid, Go));
    assert s1 == s.(calls := s.calls[pid := Call(r, Claiming)]);
    InsertStep(s1, pid, Go);
  }

  lemma ExpiredClaimIsReplaced(s: State, pid: nat, r: Request)
    requires pid !in s.calls && KeyHash(r) in s.rows && LooksExpired(s, r)
    ensures Enter(s, pid, r) == Reclaimed(s, pid, r)
  {
    hide KeyHash, RequestHash, LooksExpired, Step;
    ExpiredClaimIsDropped(s, pid, r);
    var k, claim := KeyHash(r), Claim(r.clientId, RequestHash(r), None, s.now + CLAIM_LIFETIME);
    var s2 := s.(rows := s.rows - {k}, holder := s.holder - {k}, expired := s.expired + {k}, calls := s.calls[pid := Call(r, Ready)]);
    FreeKeyIsClaimed(s2, pid, r);
    assert (s.rows - {k})[k := claim] == s.rows[k := claim];
    assert (s.holder - {k})[k := pid] == s.holder[k := pid];
    assert s.calls[pid := Call(r, Ready)][pid := Call(r, Exchanging)] == s.calls[pid := Call(r, Exchanging)];
  }

  lemma LiveClaimIsRespected(s: State, pid: nat, r: Request)
    requires pid !in s.calls && KeyHash(r) in s.rows && !LooksExpired(s, r)
    ensures
      var t := Enter(s, pid, r);
      && t == s.(calls := t.calls) && pid in t.calls && t.calls == s.calls[pid := t.calls[pid]]
      && (t.calls[pid].phase.Answered? || t.calls[pid].phase.Failed?)
  {
    hide KeyHash, RequestHash, AadOf, AdvanceCall;
    var s0 := Step(s, Begin(pid, r));
    ReplayStep(s0, pid, Go);
    var s1 := Step(s0, Advance(pid, Go));
    assert s1 == s.(calls := s.calls[pid := s1.calls[pid]]);
    EndedStep(s1, pid, Go);
  }

  /**
   In any state, reachable or not, with a claim under the key: a new call whose
   steps nobody interrupts gets as far as its own exchange exactly when the claim
   is for the same client and request and its expiry is not after the clock.  Then it has replaced the
   claim; otherwise it has ended and nothing else has changed.  In both cases
   every other call, in flight or not, is as it was.
   */
  lemma NewcomerPassesIff(s: State, pid: nat, r: Request)
    requires pid !in s.calls && KeyHash(r) in s.rows
    ensures
      var t := Enter(s, pid, r);
      && pid in t.calls && (t.calls[pid].phase.Exchanging? <==> LooksExpired(s, r))
      && t == (if LooksExpired(s, r) then Reclaimed(s, pid, r) else s.(calls := s.calls[pid := t.calls[pid]]))
  {
    hide Enter, LooksExpired, KeyHash, RequestHash;
    if LooksExpired(s, r) { ExpiredClaimIsReplaced(s, pid, r); } else { LiveClaimIsRespected(s, pid, r); }
  }

  lemma EnterIsARun(actions: seq<Action>, pid: nat, r: Request) returns (longer: seq<Action>)
    ensures Run(Initial, longer) == Enter(Run(Initial, actions), pid, r)
  {
    hide Run, Step;
    Snoc(actions, Begin(pid, r));
    var a0 := actions + [Begin(pid, r)];
    Snoc(a0, Advance(pid, Go));
    var a1 := a0 + [Advance(pid, Go)];
    Snoc(a1, Advance(pid, Go));
    var a2 := a1 + [Advance(pid, Go)];
    Snoc(a2, Advance(pid, Go));
    var a3 := a2 + [Advance(pid, Go)];
    Snoc(a3, Advance(pid, Go));
    longer := a3 + [Advance(pid, Go)];
  }

  /**
   The never-expired assumption is needed.  An exchange that outlives its claim
   lets a second call with the same request in: both exchange, both succeed, and
   they are answered differently.
   */
  lemma ExpiryBreaksExclusion(r: Request, x: Tokens, y: Tokens) returns (actions: seq<Action>)
    requires x.access != y.access
    ensures
      var s := Run(Initial, actions);
      && 0 in s.calls && 1 in s.calls
      && s.calls[0].request == s.calls[1].request == r
      && Completed(s.calls[0], 0) && Completed(s.calls[1], 1)
      && s.calls[0].phase == Answered(ResponseFor(x, "a"), 0) && s.calls[1].phase == Answered(ResponseFor(y, "b"), 1)
      && s.calls[0].phase.response != s.calls[1].phase.response
  {
    hide Run, KeyHash, AadOf, RequestHash, Enter;
    var slow := SlowExchange(r);
    NewcomerPassesIff(Run(Initial, slow), 1, r);
    var both := EnterIsARun(slow, 1, r);
    BothComplete(both, r, x, y);
    actions := both + [Advance(0, Granted(x, "a"))] + [Advance(0, Granted(x, "a"))] + [Advance(1, Granted(y, "b"))] + [Advance(1, Granted(y, "b"))];
  }

  lemma RunEmpty()
    ensures Run(Initial, []) == Initial
  {
  }

  /** A call whose claim is in the table exchanges, creates its session and answers. */
  lemma Completes(actions: seq<Action>, pid: nat, r: Request, x: Tokens, id: string)
    requires
      var s := Run(Initial, actions);
      pid in s.calls && s.calls[pid] == Call(r, Exchanging) && KeyHash(r) in s.rows && id !in s.sessions
    ensures
      var s := Run(Initial, actions);
      var t := Run(Initial, actions + [Advance(pid, Granted(x, id))] + [Advance(pid, Granted(x, id))]);
      && t.calls == s.calls[pid := Call(r, Answered(ResponseFor(x, id), pid))]
      && KeyHash(r) in t.rows && t.sessions == s.sessions[id := pid]
  {
    hide Run, KeyHash, AadOf, ResponseFor, RequestHash, AdvanceCall, Step;
    var s := Run(Initial, actions);
    Snoc(actions, Advance(pid, Granted(x, id)));
    ExchangeStep(s, pid, Granted(x, id));
    var mid := Goto(s, pid, Exchanged(x));
    assert mid == s.(calls := s.calls[pid := Call(r, Exchanged(x))]);
    Snoc(actions + [Advance(pid, Granted(x, id))], Advance(pid, Granted(x, id)));
    StoreStep(mid, pid, Granted(x, id));
  }

  lemma BothComplete(actions: seq<Action>, r: Request, x: Tokens, y: Tokens)
    requires
      var s := Run(Initial, actions);
      s.calls == map[0 := Call(r, Exchanging), 1 := Call(r, Exchanging)] && KeyHash(r) in s.rows && s.sessions == map[]
    ensures
      var t := Run(Initial, actions + [Advance(0, Granted(x, "a"))] + [Advance(0, Granted(x, "a"))]
                            + [Advance(1, Granted(y, "b"))] + [Advance(1, Granted(y, "b"))]);
      t.calls == map[0 := Call(r, Answered(ResponseFor(x, "a"), 0)), 1 := Call(r, Answered(ResponseFor(y, "b"), 1))]
  {
    hide Run, KeyHash, ResponseFor;
    Completes(actions, 0, r, x, "a");
    Completes(actions + [Advance(0, Granted(x, "a"))] + [Advance(0, Granted(x, "a"))], 1, r, y, "b");
  }
}
