/**
 Idempotent widget authorisation: claim the key, exchange the handoff code
 upstream, store the response for replay.  Any number of authorize calls
 interleave at every await.

 `holder`, `author` and `expired` are auxiliary: which call inserted the claim
 row of a key, which call stored the response now in it, and which keys have
 ever been read as expired.  No step reads them.
 */
module ExchangeProtocol {
  import opened Prelude

  const GRANT_TYPE := "eduplus_widget_handoff"
  const CLAIM_LIFETIME := 60000

  datatype Request = Request(clientId: string, key: string, code: string)

  /** A SHA-256 digest: injective on the hashed text. */
  datatype Digest = Digest(text: string)

  function KeyHash(r: Request): Digest {
    Digest(r.clientId + "\0" + r.key)
  }

  function RequestHash(r: Request): Digest {
    Digest(GRANT_TYPE + "\0" + r.clientId + "\0" + r.code)
  }

  /** Associated data of a stored response. */
  datatype ReplayAad = ReplayAad(keyHash: Digest, clientId: string, requestHash: Digest)

  function AadOf(r: Request): ReplayAad {
    ReplayAad(KeyHash(r), r.clientId, RequestHash(r))
  }

  datatype Tokens = Tokens(access: string, expiresIn: int, scope: string)

  datatype Response = Response(access: string, expiresIn: int, scope: string, sessionId: string, refreshAfter: int)

  function ResponseFor(tokens: Tokens, sessionId: string): Response {
    Response(tokens.access, tokens.expiresIn, tokens.scope, sessionId, if tokens.expiresIn - 60 < 1 then 1 else tokens.expiresIn - 60)
  }

  datatype SealedResponse = SealedResponse(plain: Response, aad: ReplayAad)

  function Open(sealed: SealedResponse, aad: ReplayAad): Option<Response> {
    if sealed.aad == aad then Some(sealed.plain) else None
  }

  datatype Claim = Claim(clientId: string, requestHash: Digest, response: Option<SealedResponse>, expiresAt: int)

  datatype AuthError =
    | OtherClient
    | OtherRequest
    | InProgress
    | ReplayInvalid
    | ClientUnavailable
    | ExchangeFailed      // upstream refused; the claim has been released
    | RejectedAfterExchange // incomplete or unverifiable tokens, or the store was rolled back; the claim stays

  datatype Phase =
    | Arrived
    | Dropping(retry: bool)   // an expired row was read; deleteMany by key comes next
    | Ready                   // no replay; the credential comes next
    | Claiming                // the insert of the claim comes next
    | Clashed                 // the insert hit the primary key; a second look at the row comes next
    | Exchanging              // the claim is inserted; the upstream exchange is in flight
    | Exchanged(tokens: Tokens) // exchangeCompleted
    | Releasing               // the exchange failed; the conditional delete comes next
    | Answered(response: Response, source: nat) // source: the call whose exchange produced the response
    | Failed(error: AuthError)

  datatype Call = Call(request: Request, phase: Phase)

  datatype State = State(
    rows: map<Digest, Claim>, sessions: map<string, nat>, now: int, calls: map<nat, Call>,
    holder: map<Digest, nat>, author: map<Digest, nat>, expired: set<Digest>)

  const Initial := State(map[], map[], 0, map[], map[], map[], {})

  datatype Reply = Denied | Granted(tokens: Tokens, sessionId: string)

  datatype Action = Tick(elapsed: nat) | Begin(pid: nat, request: Request) | Advance(pid: nat, reply: Reply)

  // ---- steps ----

  function Goto(s: State, pid: nat, phase: Phase): State
    requires pid in s.calls
  {
    GotoMarking(s, pid, phase, s.expired)
  }

  /** What loadReplay finds for a request; `absent` is where the call goes when there is no row. */
  function Replayed(s: State, pid: nat, r: Request, absent: Phase, retry: bool): Phase {
    var k := KeyHash(r);
    if k !in s.rows then absent
    else if s.rows[k].clientId != r.clientId then Failed(OtherClient)
    else if s.rows[k].requestHash != RequestHash(r) then Failed(OtherRequest)
    else if s.rows[k].expiresAt <= s.now then Dropping(retry)
    else match s.rows[k].response
         case None => Failed(InProgress)
         case Some(sealed) =>
           match Open(sealed, AadOf(r))
           case None => Failed(ReplayInvalid)
           case Some(response) => Answered(response, if k in s.author then s.author[k] else pid)
  }

  /** The read of loadReplay. */
  function ReadReplay(s: State, pid: nat, absent: Phase, retry: bool): State
    requires pid in s.calls
  {
    var r := s.calls[pid].request;
    var phase := Replayed(s, pid, r, absent, retry);
    GotoMarking(s, pid, phase, if phase.Dropping? then s.expired + {KeyHash(r)} else s.expired)
  }

  function GotoMarking(s: State, pid: nat, phase: Phase, expired: set<Digest>): State
    requires pid in s.calls
  {
    s.(calls := s.calls[pid := s.calls[pid].(phase := phase)], expired := expired)
  }

  /** deleteMany where keyHash: whatever row is there by now. */
  function Drop(s: State, pid: nat, k: Digest, retry: bool): State
    requires pid in s.calls
  {
    Goto(s, pid, if retry then Failed(InProgress) else Ready).(rows := s.rows - {k}, holder := s.holder - {k})
  }

  function Insert(s: State, pid: nat): State
    requires pid in s.calls
  {
    var r := s.calls[pid].request;
    var k := KeyHash(r);
    if k in s.rows then Goto(s, pid, Clashed)
    else Goto(s, pid, Exchanging).(
           rows := s.rows[k := Claim(r.clientId, RequestHash(r), None, s.now + CLAIM_LIFETIME)],
           holder := s.holder[k := pid])
  }

  /** deleteMany where keyHash and no response. */
  function Release(s: State, pid: nat): State
    requires pid in s.calls
  {
    var k := KeyHash(s.calls[pid].request);
    var t := Goto(s, pid, Failed(ExchangeFailed));
    if k in s.rows && s.rows[k].response.None? then t.(rows := s.rows - {k}, holder := s.holder - {k}) else t
  }

  /** One transaction: create the session and store the replay, or neither. */
  function Store(s: State, pid: nat, tokens: Tokens, sessionId: string): State
    requires pid in s.calls
  {
    var r := s.calls[pid].request;
    var k := KeyHash(r);
    var response := ResponseFor(tokens, sessionId);
    if sessionId in s.sessions || k !in s.rows then Goto(s, pid, Failed(RejectedAfterExchange))
    else Goto(s, pid, Answered(response, pid)).(
           rows := s.rows[k := s.rows[k].(response := Some(SealedResponse(response, AadOf(r))))],
           sessions := s.sessions[sessionId := pid],
           author := s.author[k := pid])
  }

  function AdvanceCall(s: State, pid: nat, reply: Reply): State
    requires pid in s.calls
  {
    match s.calls[pid].phase
    case Arrived => ReadReplay(s, pid, Ready, false)
    case Dropping(retry) => Drop(s, pid, KeyHash(s.calls[pid].request), retry)
    case Ready => Goto(s, pid, if reply.Denied? then Failed(ClientUnavailable) else Claiming)
    case Claiming => Insert(s, pid)
    case Clashed => ReadReplay(s, pid, Failed(InProgress), true)
    case Exchanging => Goto(s, pid, if reply.Denied? then Releasing else Exchanged(reply.tokens))
    case Exchanged(tokens) =>
      if reply.Denied? then Goto(s, pid, Failed(RejectedAfterExchange)) else Store(s, pid, tokens, reply.sessionId)
    case Releasing => Release(s, pid)
    case Answered(_, _) => s
    case Failed(_) => s
  }

  function Step(s: State, a: Action): State {
    match a
    case Tick(elapsed) => s.(now := s.now + elapsed)
    case Begin(pid, request) => if pid in s.calls then s else s.(calls := s.calls[pid := Call(request, Arrived)])
    case Advance(pid, reply) => if pid in s.calls then AdvanceCall(s, pid, reply) else s
  }

  function Run(s: State, actions: seq<Action>): State
    decreases |actions|
  {
    if actions == [] then s else Step(Run(s, actions[..|actions| - 1]), actions[|actions| - 1])
  }

  // ---- one step at a time ----

  lemma ReplayStep(s: State, pid: nat, reply: Reply)
    requires pid in s.calls && s.calls[pid].phase.Arrived?
    ensures Step(s, Advance(pid, reply)) == ReadReplay(s, pid, Ready, false)
  {
    hide ReadReplay, Drop, Insert, Release, Store, Goto;
  }

  lemma DropStep(s: State, pid: nat, reply: Reply)
    requires pid in s.calls && s.calls[pid].phase.Dropping?
    ensures Step(s, Advance(pid, reply)) == Drop(s, pid, KeyHash(s.calls[pid].request), s.calls[pid].phase.retry)
  {
    hide ReadReplay, Drop, Insert, Release, Store, Goto;
  }

  lemma ReadyStep(s: State, pid: nat, reply: Reply)
    requires pid in s.calls && s.calls[pid].phase.Ready?
    ensures Step(s, Advance(pid, reply)) == Goto(s, pid, if reply.Denied? then Failed(ClientUnavailable) else Claiming)
  {
    hide ReadReplay, Drop, Insert, Release, Store, Goto;
  }

  lemma InsertStep(s: State, pid: nat, reply: Reply)
    requires pid in s.calls && s.calls[pid].phase.Claiming?
    ensures Step(s, Advance(pid, reply)) == Insert(s, pid)
  {
    hide ReadReplay, Drop, Insert, Release, Store, Goto;
  }

  lemma ExchangeStep(s: State, pid: nat, reply: Reply)
    requires pid in s.calls && s.calls[pid].phase.Exchanging?
    ensures Step(s, Advance(pid, reply)) == Goto(s, pid, if reply.Denied? then Releasing else Exchanged(reply.tokens))
  {
    hide ReadReplay, Drop, Insert, Release, Store, Goto;
  }

  lemma StoreStep(s: State, pid: nat, reply: Reply)
    requires pid in s.calls && s.calls[pid].phase.Exchanged?
    ensures Step(s, Advance(pid, reply))
         == if reply.Denied? then Goto(s, pid, Failed(RejectedAfterExchange)) else Store(s, pid, s.calls[pid].phase.tokens, reply.sessionId)
  {
    hide ReadReplay, Drop, Insert, Release, Store, Goto;
  }

  lemma ReleaseStep(s: State, pid: nat, reply: Reply)
    requires pid in s.calls && s.calls[pid].phase.Releasing?
    ensures Step(s, Advance(pid, reply)) == Release(s, pid)
  {
    hide ReadReplay, Drop, Insert, Release, Store, Goto;
  }

  lemma EndedStep(s: State, pid: nat, reply: Reply)
    requires pid in s.calls && (s.calls[pid].phase.Answered? || s.calls[pid].phase.Failed?)
    ensures Step(s, Advance(pid, reply)) == s
  {
    hide ReadReplay, Drop, Insert, Release, Store, Goto;
  }

  // ---- what every reachable state keeps ----

  predicate Holds(s: State, k: Digest, pid: nat) {
    k in s.rows && k in s.holder && s.holder[k] == pid
  }

  /** The phases in which a call's claim is in the table, as long as nobody has dropped it as expired. */
  predicate HoldingPhase(phase: Phase, pid: nat) {
    match phase
    case Exchanging => true
    case Exchanged(_) => true
    case Releasing => true
    case Answered(_, source) => source == pid
    case Failed(e) => e == RejectedAfterExchange
    case _ => false
  }

  /** A call that answered from its own exchange owns the session it names. */
  predicate OwnAnswer(s: State, source: nat, response: Response, request: Request) {
    && source in s.calls
    && s.calls[source] == Call(request, Answered(response, source))
    && response.sessionId in s.sessions
    && s.sessions[response.sessionId] == source
  }

  predicate CallOk(s: State, pid: nat, c: Call) {
    var k := KeyHash(c.request);
    && (c.phase.Dropping? ==> k in s.expired)
    && (c.phase.Answered? ==>
          && OwnAnswer(s, c.phase.source, c.phase.response, c.request)
          && (k !in s.expired ==>
                Holds(s, k, c.phase.source)
                && s.rows[k].response == Some(SealedResponse(c.phase.response, AadOf(c.request)))))
    && (HoldingPhase(c.phase, pid) && !c.phase.Answered? && k !in s.expired ==>
          Holds(s, k, pid) && s.rows[k].response.None?)
  }

  predicate RowOk(s: State, k: Digest)
    requires k in s.rows
  {
    && (s.rows[k].response.Some? ==>
          && k in s.author && s.author[k] in s.calls
          && s.rows[k].response.value.aad == AadOf(s.calls[s.author[k]].request)
          && OwnAnswer(s, s.author[k], s.rows[k].response.value.plain, s.calls[s.author[k]].request))
    && (k !in s.expired ==>
          && k in s.holder && s.holder[k] in s.calls
          && KeyHash(s.calls[s.holder[k]].request) == k
          && HoldingPhase(s.calls[s.holder[k]].phase, s.holder[k])
          && (s.rows[k].response.Some? ==> s.author[k] == s.holder[k]))
  }

  predicate SessionOk(s: State, id: string)
    requires id in s.sessions
  {
    var pid := s.sessions[id];
    && pid in s.calls && s.calls[pid].phase.Answered?
    && s.calls[pid].phase.source == pid && s.calls[pid].phase.response.sessionId == id
  }

  predicate CallsOk(s: State) { forall p | p in s.calls :: CallOk(s, p, s.calls[p]) }

  predicate RowsOk(s: State) { forall k | k in s.rows :: RowOk(s, k) }

  predicate SessionsOk(s: State) { forall id | id in s.sessions :: SessionOk(s, id) }

  predicate Inv(s: State) {
    CallsOk(s) && RowsOk(s) && SessionsOk(s)
  }

  // ---- preservation ----

  lemma {:induction false} SplitAtNul(a: string, b: string, c: string, d: string)
    requires a == c && a + "\0" + b == c + "\0" + d
    ensures b == d
  {
    var n := |a| + 1;
    assert (a + "\0" + b)[n..] == b && (c + "\0" + d)[n..] == d;
  }

  /** Neither hash escapes its separators, but the associated data as a whole identifies the request. */
  lemma AadIdentifiesRequest(r: Request, q: Request)
    ensures AadOf(r) == AadOf(q) <==> r == q
  {
    if AadOf(r) == AadOf(q) {
      SplitAtNul(r.clientId, r.key, q.clientId, q.key);
      var prefix := GRANT_TYPE + "\0" + r.clientId;
      assert prefix + "\0" + r.code == GRANT_TYPE + "\0" + r.clientId + "\0" + r.code;
      assert prefix + "\0" + q.code == GRANT_TYPE + "\0" + q.clientId + "\0" + q.code;
      SplitAtNul(prefix, r.code, prefix, q.code);
    }
  }

  lemma FirstNul(a: string, b: string)
    requires '\0' !in a
    ensures (a + "\0" + b)[|a|] == '\0' && forall i | 0 <= i < |a| :: (a + "\0" + b)[i] != '\0'
  {
  }

  /** The key hash identifies client and key as long as no client id holds a NUL. */
  lemma KeyHashIdentifies(r: Request, q: Request)
    requires '\0' !in r.clientId && '\0' !in q.clientId
    ensures KeyHash(r) == KeyHash(q) <==> r.clientId == q.clientId && r.key == q.key
  {
    if KeyHash(r) == KeyHash(q) {
      FirstNul(r.clientId, r.key);
      FirstNul(q.clientId, q.key);
      var text := KeyHash(r).text;
      assert r.clientId == text[..|r.clientId|] && q.clientId == text[..|q.clientId|];
      SplitAtNul(r.clientId, r.key, q.clientId, q.key);
    }
  }

  /** With one it need not: two clients can share a key hash. */
  lemma KeyHashCollides()
    ensures KeyHash(Request("a", "b\0c", "x")) == KeyHash(Request("a\0b", "c", "x"))
  {
    assert "a" + "\0" + "b\0c" == "a\0b" + "\0" + "c";
  }

  /** Nothing that an answered call relies on is taken away. */
  ghost predicate Keeps(s: State, t: State) {
    && (forall p | p in s.calls :: p in t.calls && t.calls[p].request == s.calls[p].request)
    && (forall p | p in s.calls && s.calls[p].phase.Answered? :: t.calls[p] == s.calls[p])
    && (forall id | id in s.sessions :: id in t.sessions && t.sessions[id] == s.sessions[id])
    && s.expired <= t.expired
  }

  predicate SameRow(s: State, t: State, k: Digest) {
    && (k in s.rows <==> k in t.rows) && (k in s.rows ==> s.rows[k] == t.rows[k])
    && (k in s.holder <==> k in t.holder) && (k in s.holder ==> s.holder[k] == t.holder[k])
    && (k in s.author <==> k in t.author) && (k in s.author ==> s.author[k] == t.author[k])
  }

  lemma CallOkFrame(s: State, t: State, p: nat, c: Call)
    requires Keeps(s, t) && CallOk(s, p, c)
    requires KeyHash(c.request) in t.expired || SameRow(s, t, KeyHash(c.request))
    ensures CallOk(t, p, c)
  {
    hide KeyHash, AadOf;
  }

  lemma RowOkFrame(s: State, t: State, k: Digest)
    requires Keeps(s, t) && SameRow(s, t, k) && k in s.rows && RowOk(s, k)
    requires k in t.expired || (k in s.holder && s.holder[k] in t.calls && t.calls[s.holder[k]] == s.calls[s.holder[k]])
    ensures RowOk(t, k)
  {
    hide KeyHash, AadOf;
  }

  lemma SessionsFrame(s: State, t: State)
    requires Keeps(s, t) && SessionsOk(s) && t.sessions == s.sessions
    ensures SessionsOk(t)
  {
    hide SessionOk, Keeps;
    forall id | id in t.sessions ensures SessionOk(t, id) {
      assert SessionOk(s, id);
      SessionOkFrame(s, t, id);
    }
  }

  /** A step of one call that touches no row: the call must justify its own new phase. */
  lemma GotoKeepsInv(s: State, pid: nat, phase: Phase, expired: set<Digest>)
    requires Inv(s) && pid in s.calls && !s.calls[pid].phase.Answered?
    requires s.expired <= expired <= s.expired + {KeyHash(s.calls[pid].request)}
    requires CallOk(GotoMarking(s, pid, phase, expired), pid, s.calls[pid].(phase := phase))
    requires HoldingPhase(s.calls[pid].phase, pid) ==> HoldingPhase(phase, pid)
    ensures Inv(GotoMarking(s, pid, phase, expired)) && Keeps(s, GotoMarking(s, pid, phase, expired))
  {
    hide CallsOk, RowsOk, SessionsOk, CallOk, Keeps, KeyHash;
    GotoKeeps(s, pid, phase, expired);
    GotoCallsOk(s, pid, phase, expired);
    GotoRowsOk(s, pid, phase, expired);
    SessionsFrame(s, GotoMarking(s, pid, phase, expired));
  }

  lemma GotoKeeps(s: State, pid: nat, phase: Phase, expired: set<Digest>)
    requires pid in s.calls && !s.calls[pid].phase.Answered? && s.expired <= expired
    ensures Keeps(s, GotoMarking(s, pid, phase, expired))
    ensures forall k :: SameRow(s, GotoMarking(s, pid, phase, expired), k)
  {
  }

  lemma GotoCallsOk(s: State, pid: nat, phase: Phase, expired: set<Digest>)
    requires CallsOk(s) && pid in s.calls && !s.calls[pid].phase.Answered? && s.expired <= expired
    requires CallOk(GotoMarking(s, pid, phase, expired), pid, s.calls[pid].(phase := phase))
    ensures CallsOk(GotoMarking(s, pid, phase, expired))
  {
    hide CallOk, Keeps, KeyHash, SameRow;
    var t := GotoMarking(s, pid, phase, expired);
    GotoKeeps(s, pid, phase, expired);
    forall p | p in t.calls ensures CallOk(t, p, t.calls[p]) {
      if p != pid {
        assert CallOk(s, p, s.calls[p]);
        CallOkFrame(s, t, p, s.calls[p]);
      }
    }
  }

  lemma GotoRowsOk(s: State, pid: nat, phase: Phase, expired: set<Digest>)
    requires RowsOk(s) && pid in s.calls && !s.calls[pid].phase.Answered? && s.expired <= expired
    requires HoldingPhase(s.calls[pid].phase, pid) ==> HoldingPhase(phase, pid)
    ensures RowsOk(GotoMarking(s, pid, phase, expired))
  {
    hide RowOk, Keeps, KeyHash, SameRow, HoldingPhase;
    var t := GotoMarking(s, pid, phase, expired);
    GotoKeeps(s, pid, phase, expired);
    forall k | k in t.rows ensures RowOk(t, k) {
      assert RowOk(s, k);
      RowHolderKnown(s, k);
      if k !in t.expired && s.holder[k] == pid { RowAfterGoto(s, t, k, pid); } else { RowOkFrame(s, t, k); }
    }
  }

  lemma RowAfterGoto(s: State, t: State, k: Digest, pid: nat)
    requires Keeps(s, t) && SameRow(s, t, k) && k in s.rows && RowOk(s, k)
    requires k in s.holder && s.holder[k] == pid && pid in t.calls
    requires pid in s.calls && HoldingPhase(s.calls[pid].phase, pid) ==> HoldingPhase(t.calls[pid].phase, pid)
    ensures RowOk(t, k)
  {
    hide KeyHash, AadOf;
  }

  lemma ReadReplayKeepsInv(s: State, pid: nat, absent: Phase, retry: bool)
    requires Inv(s) && pid in s.calls && (s.calls[pid].phase.Arrived? || s.calls[pid].phase.Clashed?)
    requires absent == Ready || absent == Failed(InProgress)
    ensures Inv(ReadReplay(s, pid, absent, retry)) && Keeps(s, ReadReplay(s, pid, absent, retry))
  {
    hide Inv, CallOk, Keeps, Replayed, KeyHash, GotoMarking;
    var r := s.calls[pid].request;
    var phase := Replayed(s, pid, r, absent, retry);
    var expired := if phase.Dropping? then s.expired + {KeyHash(r)} else s.expired;
    ReplayIsOk(s, pid, absent, retry);
    GotoKeepsInv(s, pid, phase, expired);
  }

  lemma InvRow(s: State, k: Digest)
    requires Inv(s) && k in s.rows
    ensures RowOk(s, k)
  {
    hide CallsOk, RowOk, SessionsOk;
  }

  lemma InvCall(s: State, pid: nat)
    requires Inv(s) && pid in s.calls
    ensures CallOk(s, pid, s.calls[pid])
  {
    hide CallOk, RowsOk, SessionsOk;
  }

  /** A replay opens only for the request it was stored for. */
  lemma ReplayIsOk(s: State, pid: nat, absent: Phase, retry: bool)
    requires Inv(s) && pid in s.calls && (s.calls[pid].phase.Arrived? || s.calls[pid].phase.Clashed?)
    requires absent == Ready || absent == Failed(InProgress)
    ensures
      var r := s.calls[pid].request;
      var phase := Replayed(s, pid, r, absent, retry);
      var expired := if phase.Dropping? then s.expired + {KeyHash(r)} else s.expired;
      CallOk(GotoMarking(s, pid, phase, expired), pid, s.calls[pid].(phase := phase))
  {
    hide Inv, KeyHash, AadOf;
    var r := s.calls[pid].request;
    var k := KeyHash(r);
    var phase := Replayed(s, pid, r, absent, retry);
    if phase.Answered? {
      InvRow(s, k);
      AadIdentifiesRequest(r, s.calls[s.author[k]].request);
    }
  }

  lemma DropKeeps(s: State, pid: nat, k: Digest, retry: bool)
    requires pid in s.calls && s.calls[pid].phase.Dropping?
    ensures Keeps(s, Drop(s, pid, k, retry))
    ensures forall o | o != k :: SameRow(s, Drop(s, pid, k, retry), o)
  {
  }

  lemma DropCallsOk(s: State, pid: nat, k: Digest, retry: bool)
    requires CallsOk(s) && pid in s.calls && s.calls[pid].phase.Dropping? && k == KeyHash(s.calls[pid].request)
    ensures CallsOk(Drop(s, pid, k, retry))
  {
    hide CallOk, Keeps, KeyHash, SameRow;
    var t := Drop(s, pid, k, retry);
    DropKeeps(s, pid, k, retry);
    assert CallOk(s, pid, s.calls[pid]);
    DroppingIsExpired(s, pid);
    PlainPhaseOk(t, pid, t.calls[pid]);
    forall p | p in t.calls ensures CallOk(t, p, t.calls[p]) {
      if p != pid {
        assert CallOk(s, p, s.calls[p]);
        CallOkFrame(s, t, p, s.calls[p]);
      }
    }
  }

  lemma DropRowsOk(s: State, pid: nat, k: Digest, retry: bool)
    requires RowsOk(s) && pid in s.calls && s.calls[pid].phase.Dropping?
    ensures RowsOk(Drop(s, pid, k, retry))
  {
    hide RowOk, Keeps, KeyHash, SameRow;
    var t := Drop(s, pid, k, retry);
    DropKeeps(s, pid, k, retry);
    forall o | o in t.rows ensures RowOk(t, o) {
      assert RowOk(s, o);
      RowHolderElsewhere(s, o, pid);
      RowOkFrame(s, t, o);
    }
  }

  lemma DropKeepsInv(s: State, pid: nat)
    requires Inv(s) && pid in s.calls && s.calls[pid].phase.Dropping?
    ensures
      var t := Drop(s, pid, KeyHash(s.calls[pid].request), s.calls[pid].phase.retry);
      Inv(t) && Keeps(s, t)
  {
    hide CallsOk, RowsOk, SessionsOk, Keeps, KeyHash;
    var k, retry := KeyHash(s.calls[pid].request), s.calls[pid].phase.retry;
    DropKeeps(s, pid, k, retry);
    DropCallsOk(s, pid, k, retry);
    DropRowsOk(s, pid, k, retry);
    SessionsFrame(s, Drop(s, pid, k, retry));
  }

  lemma DroppingIsExpired(s: State, pid: nat)
    requires pid in s.calls && s.calls[pid].phase.Dropping? && CallOk(s, pid, s.calls[pid])
    ensures KeyHash(s.calls[pid].request) in s.expired
  {
  }

  lemma PlainPhaseOk(s: State, pid: nat, c: Call)
    requires !c.phase.Dropping? && !c.phase.Answered? && !HoldingPhase(c.phase, pid)
    ensures CallOk(s, pid, c)
  {
  }

  /** Two calls cannot both hold an unexpired key. */
  lemma OneHolder(s: State, p: nat, q: nat)
    requires p in s.calls && q in s.calls && CallOk(s, p, s.calls[p]) && CallOk(s, q, s.calls[q])
    requires KeyHash(s.calls[p].request) == KeyHash(s.calls[q].request) && KeyHash(s.calls[p].request) !in s.expired
    requires HoldingPhase(s.calls[p].phase, p) && HoldingPhase(s.calls[q].phase, q)
    ensures p == q
  {
    hide KeyHash, AadOf;
  }

  lemma InsertKeeps(s: State, pid: nat)
    requires pid in s.calls && s.calls[pid].phase.Claiming?
    ensures Keeps(s, Insert(s, pid))
    ensures forall o | o in s.rows :: SameRow(s, Insert(s, pid), o)
  {
    hide KeyHash, RequestHash, Keeps, SameRow;
    var t := Insert(s, pid);
    ClaimKeeps(s, t, pid, KeyHash(s.calls[pid].request));
  }

  /** At most one call moves, and at most a key without a row is claimed. */
  lemma ClaimKeeps(s: State, t: State, pid: nat, k: Digest)
    requires pid in s.calls && !s.calls[pid].phase.Answered? && pid in t.calls
    requires t.calls == s.calls[pid := t.calls[pid]] && t.calls[pid].request == s.calls[pid].request
    requires t.sessions == s.sessions && t.expired == s.expired && t.author == s.author
    requires (t.rows == s.rows && t.holder == s.holder)
          || (k !in s.rows && k in t.rows && k in t.holder && t.rows == s.rows[k := t.rows[k]] && t.holder == s.holder[k := t.holder[k]])
    ensures Keeps(s, t) && forall o | o in s.rows :: SameRow(s, t, o)
  {
  }

  lemma InsertCallsOk(s: State, pid: nat)
    requires CallsOk(s) && pid in s.calls && s.calls[pid].phase.Claiming?
    ensures CallsOk(Insert(s, pid))
  {
    hide CallOk, Keeps, Insert;
    InsertKeeps(s, pid);
    InsertCalls(s, pid);
    var t := Insert(s, pid);
    forall p | p in t.calls ensures CallOk(t, p, t.calls[p]) {
      if p == pid { FreshClaimOk(s, pid); }
      else {
        assert CallOk(s, p, s.calls[p]);
        InsertCallOk(s, pid, p);
      }
    }
  }

  lemma InsertCalls(s: State, pid: nat)
    requires pid in s.calls
    ensures Insert(s, pid).calls.Keys == s.calls.Keys
    ensures forall p | p in s.calls && p != pid :: Insert(s, pid).calls[p] == s.calls[p]
  {
    hide KeyHash, RequestHash;
  }

  lemma InsertRows(s: State, pid: nat)
    requires pid in s.calls
    ensures Insert(s, pid).rows.Keys == s.rows.Keys + {KeyHash(s.calls[pid].request)}
    ensures Insert(s, pid).expired == s.expired && Insert(s, pid).sessions == s.sessions
  {
    hide KeyHash, RequestHash;
  }

  lemma InsertRowsOk(s: State, pid: nat)
    requires RowsOk(s) && pid in s.calls && s.calls[pid].phase.Claiming?
    ensures RowsOk(Insert(s, pid))
  {
    hide RowOk, Keeps, KeyHash, Insert, SameRow;
    InsertKeeps(s, pid);
    InsertCalls(s, pid);
    InsertRows(s, pid);
    var t := Insert(s, pid);
    forall o | o in t.rows ensures RowOk(t, o) {
      if o in s.rows {
        assert RowOk(s, o);
        RowHolderElsewhere(s, o, pid);
        RowOkFrame(s, t, o);
      } else {
        FreshRowOk(s, pid);
      }
    }
  }

  lemma InsertKeepsInv(s: State, pid: nat)
    requires Inv(s) && pid in s.calls && s.calls[pid].phase.Claiming?
    ensures Inv(Insert(s, pid)) && Keeps(s, Insert(s, pid))
  {
    hide CallsOk, RowsOk, SessionsOk, Keeps, Insert;
    InsertKeeps(s, pid);
    InsertRows(s, pid);
    InsertCallsOk(s, pid);
    InsertRowsOk(s, pid);
    SessionsFrame(s, Insert(s, pid));
  }

  lemma RowHolderElsewhere(s: State, k: Digest, pid: nat)
    requires k in s.rows && RowOk(s, k) && pid in s.calls && !HoldingPhase(s.calls[pid].phase, pid)
    ensures k !in s.expired ==> k in s.holder && s.holder[k] in s.calls && s.holder[k] != pid
  {
    hide KeyHash, AadOf;
  }

  lemma FreshRowOk(s: State, pid: nat)
    requires pid in s.calls && s.calls[pid].phase.Claiming? && KeyHash(s.calls[pid].request) !in s.rows
    ensures RowOk(Insert(s, pid), KeyHash(s.calls[pid].request))
  {
    hide KeyHash, RequestHash, AadOf;
  }

  lemma FreshClaimOk(s: State, pid: nat)
    requires pid in s.calls && s.calls[pid].phase.Claiming?
    ensures CallOk(Insert(s, pid), pid, Insert(s, pid).calls[pid])
  {
    hide KeyHash, RequestHash;
  }

  lemma InsertCallOk(s: State, pid: nat, p: nat)
    requires pid in s.calls && s.calls[pid].phase.Claiming? && p in s.calls && p != pid && CallOk(s, p, s.calls[p])
    requires Keeps(s, Insert(s, pid))
    ensures CallOk(Insert(s, pid), p, s.calls[p])
  {
    hide KeyHash, RequestHash;
  }

  lemma ReleaseKeeps(s: State, pid: nat)
    requires pid in s.calls && s.calls[pid].phase.Releasing?
    ensures
      var t := Release(s, pid);
      && Keeps(s, t) && t.sessions == s.sessions && t.expired == s.expired
      && t.calls == s.calls[pid := s.calls[pid].(phase := Failed(ExchangeFailed))]
      && forall o | o in t.rows :: o in s.rows && SameRow(s, t, o)
  {
    hide KeyHash, RequestHash, Keeps, SameRow;
    RemovalKeeps(s, Release(s, pid), pid, KeyHash(s.calls[pid].request));
  }

  /** One call moves, and at most the row of one key goes. */
  lemma RemovalKeeps(s: State, t: State, pid: nat, k: Digest)
    requires pid in s.calls && !s.calls[pid].phase.Answered? && pid in t.calls
    requires t.calls == s.calls[pid := t.calls[pid]] && t.calls[pid].request == s.calls[pid].request
    requires t.sessions == s.sessions && t.expired == s.expired && t.author == s.author
    requires (t.rows == s.rows && t.holder == s.holder) || (t.rows == s.rows - {k} && t.holder == s.holder - {k})
    ensures Keeps(s, t) && forall o | o in t.rows :: o in s.rows && SameRow(s, t, o)
  {
  }

  lemma ReleaseCallsOk(s: State, pid: nat)
    requires CallsOk(s) && pid in s.calls && s.calls[pid].phase.Releasing?
    ensures CallsOk(Release(s, pid))
  {
    hide CallOk, Keeps, Release, SameRow;
    ReleaseKeeps(s, pid);
    var t := Release(s, pid);
    assert CallOk(s, pid, s.calls[pid]);
    PlainPhaseOk(t, pid, t.calls[pid]);
    forall p | p in t.calls ensures CallOk(t, p, t.calls[p]) {
      if p != pid {
        assert CallOk(s, p, s.calls[p]);
        ReleaseCallOk(s, pid, p);
      }
    }
  }

  lemma ReleaseRowsOk(s: State, pid: nat)
    requires RowsOk(s) && CallsOk(s) && pid in s.calls && s.calls[pid].phase.Releasing?
    ensures RowsOk(Release(s, pid))
  {
    hide RowOk, CallOk, Keeps, Release, SameRow, KeyHash;
    ReleaseKeeps(s, pid);
    var t := Release(s, pid);
    forall o | o in t.rows ensures RowOk(t, o) {
      assert RowOk(s, o) && CallOk(s, pid, s.calls[pid]);
      RowHolderKnown(s, o);
      ReleasedRowIsGone(s, pid, o);
      RowOkFrame(s, t, o);
    }
  }

  lemma ReleaseKeepsInv(s: State, pid: nat)
    requires Inv(s) && pid in s.calls && s.calls[pid].phase.Releasing?
    ensures Inv(Release(s, pid)) && Keeps(s, Release(s, pid))
  {
    hide CallsOk, RowsOk, SessionsOk, Keeps, Release;
    ReleaseKeeps(s, pid);
    ReleaseCallsOk(s, pid);
    ReleaseRowsOk(s, pid);
    SessionsFrame(s, Release(s, pid));
  }

  /** A row that survives the release is not held by the call that released. */
  lemma ReleasedRowIsGone(s: State, pid: nat, o: Digest)
    requires pid in s.calls && s.calls[pid].phase.Releasing? && CallOk(s, pid, s.calls[pid])
    requires o in s.rows && RowOk(s, o) && o in Release(s, pid).rows
    ensures o !in s.expired ==> o in s.holder && s.holder[o] != pid
  {
    hide KeyHash, RequestHash, AadOf;
  }

  lemma ReleaseCallOk(s: State, pid: nat, p: nat)
    requires pid in s.calls && s.calls[pid].phase.Releasing? && CallOk(s, pid, s.calls[pid])
    requires p in s.calls && p != pid && CallOk(s, p, s.calls[p])
    requires Keeps(s, Release(s, pid))
    ensures CallOk(Release(s, pid), p, s.calls[p])
  {
    hide KeyHash, RequestHash;
  }

  predicate StoreApplies(s: State, pid: nat, sessionId: string)
    requires pid in s.calls
  {
    sessionId !in s.sessions && KeyHash(s.calls[pid].request) in s.rows
  }

  lemma StoreKeeps(s: State, pid: nat, tokens: Tokens, sessionId: string)
    requires pid in s.calls && s.calls[pid].phase == Exchanged(tokens) && StoreApplies(s, pid, sessionId)
    ensures
      var t := Store(s, pid, tokens, sessionId);
      && Keeps(s, t) && t.calls.Keys == s.calls.Keys && t.rows.Keys == s.rows.Keys
      && t.sessions == s.sessions[sessionId := pid]
      && t.calls[pid].phase == Answered(ResponseFor(tokens, sessionId), pid)
  {
    hide KeyHash, RequestHash, AadOf;
  }

  lemma StoreCallsOk(s: State, pid: nat, tokens: Tokens, sessionId: string)
    requires CallsOk(s) && pid in s.calls && s.calls[pid].phase == Exchanged(tokens) && StoreApplies(s, pid, sessionId)
    ensures CallsOk(Store(s, pid, tokens, sessionId))
  {
    hide CallOk, Keeps, Store, KeyHash;
    StoreKeeps(s, pid, tokens, sessionId);
    var t := Store(s, pid, tokens, sessionId);
    forall p | p in t.calls ensures CallOk(t, p, t.calls[p]) {
      assert CallOk(s, pid, s.calls[pid]) && CallOk(s, p, s.calls[p]);
      StoreCallOk(s, pid, tokens, sessionId, p);
    }
  }

  lemma StoreRowsOk(s: State, pid: nat, tokens: Tokens, sessionId: string)
    requires CallsOk(s) && RowsOk(s) && pid in s.calls && s.calls[pid].phase == Exchanged(tokens) && StoreApplies(s, pid, sessionId)
    ensures RowsOk(Store(s, pid, tokens, sessionId))
  {
    hide CallOk, RowOk, Keeps, Store, KeyHash;
    StoreKeeps(s, pid, tokens, sessionId);
    var t := Store(s, pid, tokens, sessionId);
    forall o | o in t.rows ensures RowOk(t, o) {
      assert CallOk(s, pid, s.calls[pid]) && RowOk(s, o);
      StoreRowOk(s, pid, tokens, sessionId, o);
    }
  }

  lemma StoreSessionsOk(s: State, pid: nat, tokens: Tokens, sessionId: string)
    requires SessionsOk(s) && pid in s.calls && s.calls[pid].phase == Exchanged(tokens) && StoreApplies(s, pid, sessionId)
    ensures SessionsOk(Store(s, pid, tokens, sessionId))
  {
    hide Keeps, Store, StoreApplies;
    StoreKeeps(s, pid, tokens, sessionId);
    var t := Store(s, pid, tokens, sessionId);
    forall id | id in t.sessions ensures SessionOk(t, id) {
      if id != sessionId {
        assert SessionOk(s, id);
        SessionOkFrame(s, t, id);
      }
    }
  }

  lemma StoreKeepsInv(s: State, pid: nat, tokens: Tokens, sessionId: string)
    requires Inv(s) && pid in s.calls && s.calls[pid].phase == Exchanged(tokens)
    ensures Inv(Store(s, pid, tokens, sessionId)) && Keeps(s, Store(s, pid, tokens, sessionId))
  {
    if StoreApplies(s, pid, sessionId) {
      hide CallsOk, RowsOk, SessionsOk, Keeps, Store, StoreApplies;
      StoreKeeps(s, pid, tokens, sessionId);
      StoreCallsOk(s, pid, tokens, sessionId);
      StoreRowsOk(s, pid, tokens, sessionId);
      StoreSessionsOk(s, pid, tokens, sessionId);
    } else {
      hide Inv, CallOk, Keeps, KeyHash;
      InvCall(s, pid);
      RejectedCallOk(s, pid);
      assert Store(s, pid, tokens, sessionId) == GotoMarking(s, pid, Failed(RejectedAfterExchange), s.expired);
      GotoKeepsInv(s, pid, Failed(RejectedAfterExchange), s.expired);
    }
  }

  /** Failing after the exchange keeps the claim. */
  lemma RejectedCallOk(s: State, pid: nat)
    requires pid in s.calls && s.calls[pid].phase.Exchanged? && CallOk(s, pid, s.calls[pid])
    ensures var t := Goto(s, pid, Failed(RejectedAfterExchange)); CallOk(t, pid, t.calls[pid])
  {
    hide KeyHash, RequestHash;
  }

  lemma StoreCallOk(s: State, pid: nat, tokens: Tokens, sessionId: string, p: nat)
    requires pid in s.calls && s.calls[pid].phase == Exchanged(tokens) && CallOk(s, pid, s.calls[pid])
    requires p in s.calls && CallOk(s, p, s.calls[p])
    requires sessionId !in s.sessions && KeyHash(s.calls[pid].request) in s.rows
    requires Keeps(s, Store(s, pid, tokens, sessionId))
    ensures var t := Store(s, pid, tokens, sessionId); CallOk(t, p, t.calls[p])
  {
    hide KeyHash, RequestHash;
  }

  lemma StoreRowOk(s: State, pid: nat, tokens: Tokens, sessionId: string, o: Digest)
    requires pid in s.calls && s.calls[pid].phase == Exchanged(tokens) && CallOk(s, pid, s.calls[pid])
    requires sessionId !in s.sessions && KeyHash(s.calls[pid].request) in s.rows
    requires o in s.rows && RowOk(s, o)
    requires Keeps(s, Store(s, pid, tokens, sessionId))
    ensures RowOk(Store(s, pid, tokens, sessionId), o)
  {
    hide KeyHash, RequestHash;
  }

  /** The steps that only move one call. */
  lemma QuietStepKeepsInv(s: State, pid: nat, phase: Phase)
    requires Inv(s) && pid in s.calls && !s.calls[pid].phase.Answered?
    requires !phase.Dropping? && !phase.Answered?
    requires HoldingPhase(s.calls[pid].phase, pid) <==> HoldingPhase(phase, pid)
    ensures Inv(Goto(s, pid, phase)) && Keeps(s, Goto(s, pid, phase))
  {
    hide Inv, KeyHash, CallOk, Keeps;
    InvCall(s, pid);
    QuietCallOk(s, pid, phase);
    GotoKeepsInv(s, pid, phase, s.expired);
  }

  lemma QuietCallOk(s: State, pid: nat, phase: Phase)
    requires pid in s.calls && CallOk(s, pid, s.calls[pid]) && !s.calls[pid].phase.Answered?
    requires !phase.Dropping? && !phase.Answered?
    requires HoldingPhase(s.calls[pid].phase, pid) <==> HoldingPhase(phase, pid)
    ensures CallOk(GotoMarking(s, pid, phase, s.expired), pid, s.calls[pid].(phase := phase))
  {
    hide KeyHash;
  }

  lemma AdvanceKeepsInv(s: State, pid: nat, reply: Reply)
    requires Inv(s) && pid in s.calls
    ensures Inv(AdvanceCall(s, pid, reply)) && Keeps(s, AdvanceCall(s, pid, reply))
  {
    hide Inv, Keeps, ReadReplay, Drop, Insert, Release, Store, Goto, KeyHash;
    match s.calls[pid].phase
    case Arrived => ReadReplayKeepsInv(s, pid, Ready, false);
    case Dropping(_) => DropKeepsInv(s, pid);
    case Ready => QuietStepKeepsInv(s, pid, if reply.Denied? then Failed(ClientUnavailable) else Claiming);
    case Claiming => InsertKeepsInv(s, pid);
    case Clashed => ReadReplayKeepsInv(s, pid, Failed(InProgress), true);
    case Exchanging => QuietStepKeepsInv(s, pid, if reply.Denied? then Releasing else Exchanged(reply.tokens));
    case Exchanged(tokens) =>
      if reply.Denied? { QuietStepKeepsInv(s, pid, Failed(RejectedAfterExchange)); }
      else { StoreKeepsInv(s, pid, tokens, reply.sessionId); }
    case Releasing => ReleaseKeepsInv(s, pid);
    case Answered(_, _) => KeepsItself(s);
    case Failed(_) => KeepsItself(s);
  }

  lemma KeepsItself(s: State)
    ensures Keeps(s, s)
  {
  }

  lemma StepKeepsInv(s: State, a: Action)
    requires Inv(s)
    ensures Inv(Step(s, a)) && Keeps(s, Step(s, a))
  {
    hide Inv, Keeps, AdvanceCall;
    KeepsItself(s);
    match a
    case Advance(pid, reply) =>
      if pid in s.calls { AdvanceKeepsInv(s, pid, reply); }
    case _ => ArrivalKeepsInv(s, a);
  }

  lemma ArrivalKeeps(s: State, a: Action)
    requires !a.Advance?
    ensures
      var t := Step(s, a);
      && Keeps(s, t) && t.rows == s.rows && t.sessions == s.sessions && t.expired == s.expired
      && (forall k :: SameRow(s, t, k))
      && (forall p | p in s.calls :: t.calls[p] == s.calls[p])
      && (forall p | p in t.calls && p !in s.calls :: t.calls[p].phase.Arrived?)
  {
    hide AdvanceCall, Keeps, SameRow;
    var t := Step(s, a);
    OnlyCallsArrive(s, t);
  }

  lemma OnlyCallsArrive(s: State, t: State)
    requires t.rows == s.rows && t.sessions == s.sessions && t.expired == s.expired && t.holder == s.holder && t.author == s.author
    requires forall p | p in s.calls :: p in t.calls && t.calls[p] == s.calls[p]
    ensures Keeps(s, t) && forall k :: SameRow(s, t, k)
  {
  }

  lemma ArrivalKeepsInv(s: State, a: Action)
    requires Inv(s) && !a.Advance?
    ensures Inv(Step(s, a)) && Keeps(s, Step(s, a))
  {
    hide CallsOk, RowsOk, SessionsOk, Keeps, Step, SameRow;
    ArrivalKeeps(s, a);
    ArrivalCallsOk(s, a);
    ArrivalRowsOk(s, a);
    SessionsFrame(s, Step(s, a));
  }

  lemma ArrivalCallsOk(s: State, a: Action)
    requires CallsOk(s) && !a.Advance?
    ensures CallsOk(Step(s, a))
  {
    hide CallOk, Keeps, Step, SameRow, KeyHash;
    ArrivalKeeps(s, a);
    var t := Step(s, a);
    forall p | p in t.calls ensures CallOk(t, p, t.calls[p]) {
      if p in s.calls {
        assert CallOk(s, p, s.calls[p]);
        CallOkFrame(s, t, p, s.calls[p]);
      } else {
        PlainPhaseOk(t, p, t.calls[p]);
      }
    }
  }

  lemma ArrivalRowsOk(s: State, a: Action)
    requires RowsOk(s) && !a.Advance?
    ensures RowsOk(Step(s, a))
  {
    hide RowOk, Keeps, Step, SameRow;
    ArrivalKeeps(s, a);
    var t := Step(s, a);
    forall k | k in t.rows ensures RowOk(t, k) {
      assert RowOk(s, k);
      RowHolderKnown(s, k);
      if k !in t.expired { assert s.holder[k] in t.calls by { KeepsCalls(s, t, s.holder[k]); } }
      RowOkFrame(s, t, k);
    }
  }

  lemma KeepsCalls(s: State, t: State, p: nat)
    requires Keeps(s, t) && p in s.calls
    ensures p in t.calls
  {
  }

  lemma SessionOkFrame(s: State, t: State, id: string)
    requires Keeps(s, t) && id in s.sessions && SessionOk(s, id)
    ensures SessionOk(t, id)
  {
  }

  lemma RowHolderKnown(s: State, k: Digest)
    requires k in s.rows && RowOk(s, k)
    ensures k !in s.expired ==> k in s.holder && s.holder[k] in s.calls
  {
    hide KeyHash, AadOf;
  }

  lemma {:induction false} RunKeepsInv(actions: seq<Action>)
    ensures Inv(Run(Initial, actions))
    decreases |actions|
  {
    hide Step, CallOk, RowOk, SessionOk;
    if actions != [] {
      RunKeepsInv(actions[..|actions| - 1]);
      StepKeepsInv(Run(Initial, actions[..|actions| - 1]), actions[|actions| - 1]);
    }
  }
}
