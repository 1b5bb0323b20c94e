/**
 When the exclusion of idempotent authorisation can be lost.  A claim is deleted
 by key alone: by a call that has read some row of the key as expired, and by a
 call whose exchange has failed.  Neither delete looks at whose claim it meets.
 */
module ExchangeExclusion {
  import opened Prelude
  import opened ExchangeProtocol
  import opened ExchangeResults

  predicate OfKey(s: State, q: nat, k: Digest) {
    q in s.calls && KeyHash(s.calls[q].request) == k
  }

  /** The two deletes: after an expired row was read, and after a failed exchange, if the row there has no response. */
  predicate Deletes(s: State, a: Action, k: Digest) {
    && a.Advance? && OfKey(s, a.pid, k)
    && (s.calls[a.pid].phase.Dropping? || (s.calls[a.pid].phase.Releasing? && k in s.rows && s.rows[k].response.None?))
  }

  /** A call begins its upstream exchange in this step. */
  predicate Starts(s: State, a: Action, q: nat) {
    && q in Step(s, a).calls && Step(s, a).calls[q].phase.Exchanging?
    && !(q in s.calls && s.calls[q].phase.Exchanging?)
  }

  // ---- what one step of a call does ----

  /** Only the call's own entry and its own key are touched, and its request stays. */
  ghost predicate Local(s: State, t: State, pid: nat)
    requires pid in s.calls
  {
    && pid in t.calls && t.calls == s.calls[pid := t.calls[pid]] && t.calls[pid].request == s.calls[pid].request
    && t.now == s.now
    && forall o | o != KeyHash(s.calls[pid].request) :: SameRow(s, t, o)
  }

  /** The claim of k is the same claim, with its response or with one it did not have. */
  predicate SameClaim(s: State, t: State, k: Digest) {
    && (k in s.rows <==> k in t.rows)
    && (k in s.holder <==> k in t.holder) && (k in s.holder ==> s.holder[k] == t.holder[k])
    && (k in s.rows ==> t.rows[k] == s.rows[k].(response := t.rows[k].response) && (s.rows[k].response.Some? ==> t.rows[k].response.Some?))
  }

  /** Where the read of loadReplay can lead; `absent` when there is no row. */
  predicate ReadLeads(s: State, pid: nat, absent: Phase, to: Phase)
    requires pid in s.calls
  {
    var r := s.calls[pid].request;
    var k := KeyHash(r);
    match to
    case Dropping(_) => k in s.rows && LooksExpired(s, r)
    case Answered(_, source) => k in s.rows && s.rows[k].response.Some? && source == if k in s.author then s.author[k] else pid
    case Failed(e) => to == absent || e in {OtherClient, OtherRequest, InProgress, ReplayInvalid}
    case _ => to == absent
  }

  function FreshClaim(s: State, pid: nat): Claim
    requires pid in s.calls
  {
    Claim(s.calls[pid].request.clientId, RequestHash(s.calls[pid].request), None, s.now + CLAIM_LIFETIME)
  }

  /** What the step does to the row of the call's key, and where the call goes. */
  ghost predicate Moves(s: State, t: State, pid: nat)
    requires pid in s.calls && pid in t.calls
  {
    var k, to := KeyHash(s.calls[pid].request), t.calls[pid].phase;
    match s.calls[pid].phase
    case Arrived => SameRow(s, t, k) && ReadLeads(s, pid, Ready, to)
    case Clashed => SameRow(s, t, k) && ReadLeads(s, pid, Failed(InProgress), to)
    case Dropping(_) => k !in t.rows && (to == Ready || to == Failed(InProgress))
    case Ready => SameRow(s, t, k) && (to == Claiming || to == Failed(ClientUnavailable))
    case Claiming =>
      if k in s.rows then SameRow(s, t, k) && to == Clashed
      else Holds(t, k, pid) && t.rows[k] == FreshClaim(s, pid) && to == Exchanging
    case Exchanging => SameRow(s, t, k) && (to == Releasing || to.Exchanged?)
    case Exchanged(_) => SameClaim(s, t, k) && (to == Failed(RejectedAfterExchange) || (to.Answered? && to.source == pid))
    case Releasing =>
      && to == Failed(ExchangeFailed)
      && (if k in s.rows && s.rows[k].response.None? then k !in t.rows else SameRow(s, t, k))
    case Answered(_, _) => t == s
    case Failed(_) => t == s
  }

  lemma GotoEffect(s: State, pid: nat, phase: Phase)
    requires pid in s.calls
    ensures
      var t := Goto(s, pid, phase);
      Local(s, t, pid) && SameRow(s, t, KeyHash(s.calls[pid].request)) && t.calls[pid].phase == phase
  {
    hide KeyHash;
  }

  lemma ReadEffect(s: State, pid: nat, absent: Phase, retry: bool)
    requires pid in s.calls && !absent.Dropping? && !absent.Answered?
    ensures
      var t := ReadReplay(s, pid, absent, retry);
      Local(s, t, pid) && SameRow(s, t, KeyHash(s.calls[pid].request)) && ReadLeads(s, pid, absent, t.calls[pid].phase)
  {
    hide KeyHash, RequestHash, AadOf;
  }

  lemma DropEffect(s: State, pid: nat, retry: bool)
    requires pid in s.calls
    ensures
      var k := KeyHash(s.calls[pid].request);
      var t := Drop(s, pid, k, retry);
      Local(s, t, pid) && k !in t.rows && (t.calls[pid].phase == Ready || t.calls[pid].phase == Failed(InProgress))
  {
    hide KeyHash;
  }

  lemma InsertEffect(s: State, pid: nat)
    requires pid in s.calls
    ensures
      var k, t := KeyHash(s.calls[pid].request), Insert(s, pid);
      && Local(s, t, pid)
      && (if k in s.rows then SameRow(s, t, k) && t.calls[pid].phase == Clashed
          else Holds(t, k, pid) && t.rows[k] == FreshClaim(s, pid) && t.calls[pid].phase == Exchanging)
  {
    hide KeyHash, RequestHash;
  }

  lemma StoreEffect(s: State, pid: nat, tokens: Tokens, sessionId: string)
    requires pid in s.calls
    ensures
      var k, t := KeyHash(s.calls[pid].request), Store(s, pid, tokens, sessionId);
      && Local(s, t, pid) && SameClaim(s, t, k)
      && (t.calls[pid].phase == Failed(RejectedAfterExchange) || (t.calls[pid].phase.Answered? && t.calls[pid].phase.source == pid))
  {
    hide KeyHash, AadOf, ResponseFor;
  }

  lemma ReleaseEffect(s: State, pid: nat)
    requires pid in s.calls
    ensures
      var k, t := KeyHash(s.calls[pid].request), Release(s, pid);
      && Local(s, t, pid) && t.calls[pid].phase == Failed(ExchangeFailed)
      && (if k in s.rows && s.rows[k].response.None? then k !in t.rows else SameRow(s, t, k))
  {
    hide KeyHash;
  }

  lemma Unmoved(s: State, pid: nat)
    requires pid in s.calls
    ensures Local(s, s, pid)
  {
    hide KeyHash;
  }

  /** In any state: the step of a call is one of these. */
  lemma AdvanceEffect(s: State, pid: nat, reply: Reply)
    requires pid in s.calls
    ensures
      var t := Step(s, Advance(pid, reply));
      Local(s, t, pid) && Moves(s, t, pid)
  {
    hide ReadReplay, Drop, Insert, Release, Store, Goto, Local, ReadLeads, SameRow, SameClaim, KeyHash, Holds, FreshClaim;
    match s.calls[pid].phase
    case Arrived => ReadEffect(s, pid, Ready, false);
    case Clashed => ReadEffect(s, pid, Failed(InProgress), true);
    case Dropping(retry) => DropEffect(s, pid, retry);
    case Ready => GotoEffect(s, pid, if reply.Denied? then Failed(ClientUnavailable) else Claiming);
    case Claiming => InsertEffect(s, pid);
    case Exchanging => GotoEffect(s, pid, if reply.Denied? then Releasing else Exchanged(reply.tokens));
    case Exchanged(tokens) =>
      if reply.Denied? {
        GotoEffect(s, pid, Failed(RejectedAfterExchange));
        SameRowIsSameClaim(s, Goto(s, pid, Failed(RejectedAfterExchange)), KeyHash(s.calls[pid].request));
      } else {
        StoreEffect(s, pid, tokens, reply.sessionId);
      }
    case Releasing => ReleaseEffect(s, pid);
    case _ => Unmoved(s, pid);
  }

  lemma SameRowIsSameClaim(s: State, t: State, k: Digest)
    requires SameRow(s, t, k)
    ensures SameClaim(s, t, k)
  {
  }

  // ---- one step ----

  /** What a step of a call of another key, or no call's step, does to the row of k: nothing. */
  lemma OtherKeyStep(s: State, a: Action, k: Digest)
    requires !(a.Advance? && OfKey(s, a.pid, k))
    ensures SameRow(s, Step(s, a), k)
  {
    hide AdvanceCall, Moves, KeyHash, Keeps;
    if a.Advance? {
      if a.pid in s.calls { AdvanceEffect(s, a.pid, a.reply); }
    } else {
      ArrivalKeeps(s, a);
    }
  }

  /** In any state, a claim leaves the table in exactly the steps that delete it, whoever takes them. */
  lemma ClaimLeavesIff(s: State, a: Action, k: Digest, p: nat)
    requires Holds(s, k, p)
    ensures !Holds(Step(s, a), k, p) <==> Deletes(s, a, k)
  {
    hide Step, KeyHash, ReadLeads, Local;
    if a.Advance? && OfKey(s, a.pid, k) { AdvanceEffect(s, a.pid, a.reply); } else { OtherKeyStep(s, a, k); }
  }

  /** In any state, an exchange starts in exactly the steps that insert a claim where there is none. */
  lemma ExchangeStartsIff(s: State, a: Action, q: nat)
    ensures Starts(s, a, q) <==> a.Advance? && a.pid == q && q in s.calls && s.calls[q].phase.Claiming? && KeyHash(s.calls[q].request) !in s.rows
    ensures Starts(s, a, q) ==> Holds(Step(s, a), KeyHash(s.calls[q].request), q)
  {
    hide AdvanceCall, KeyHash, SameRow, SameClaim, Keeps;
    if a.Advance? {
      if a.pid in s.calls { AdvanceEffect(s, a.pid, a.reply); }
    } else {
      ArrivalKeeps(s, a);
    }
  }

  // ---- runs ----

  lemma RunSnoc(s: State, actions: seq<Action>, a: Action)
    ensures Run(s, actions + [a]) == Step(Run(s, actions), a)
  {
    hide Step;
    assert (actions + [a])[..|actions + [a]| - 1] == actions;
  }

  /** A call in one of these phases inserts no claim any more. */
  predicate PastClaim(phase: Phase) {
    match phase
    case Exchanging => true
    case Exchanged(_) => true
    case Releasing => true
    case Answered(_, _) => true
    case Failed(_) => true
    case _ => false
  }

  lemma PastClaimStays(s: State, a: Action, k: Digest, p: nat)
    requires OfKey(s, p, k) && PastClaim(s.calls[p].phase)
    ensures OfKey(Step(s, a), p, k) && PastClaim(Step(s, a).calls[p].phase)
    ensures Holds(Step(s, a), k, p) ==> Holds(s, k, p)
  {
    hide AdvanceCall, KeyHash, ReadLeads, Keeps, FreshClaim;
    if !(a.Advance? && OfKey(s, a.pid, k)) { OtherKeyStep(s, a, k); }
    if a.Advance? {
      if a.pid in s.calls { AdvanceEffect(s, a.pid, a.reply); }
    } else {
      ArrivalKeeps(s, a);
    }
  }

  predicate NoneDeletes(s: State, actions: seq<Action>, k: Digest) {
    forall i | 0 <= i < |actions| :: !Deletes(Run(s, actions[..i]), actions[i], k)
  }

  lemma NoneDeletesSnoc(s: State, actions: seq<Action>, k: Digest)
    requires actions != []
    ensures
      var n := |actions| - 1;
      NoneDeletes(s, actions, k) <==> NoneDeletes(s, actions[..n], k) && !Deletes(Run(s, actions[..n]), actions[n], k)
  {
    hide Deletes, Run;
    var n := |actions| - 1;
    assert forall i | 0 <= i < n :: actions[..n][..i] == actions[..i] && actions[..n][i] == actions[i];
  }

  /** Over a run from any state: the claim is still there at the end exactly when no step of the run deleted it. */
  lemma {:induction false} ClaimLastsIff(s: State, actions: seq<Action>, k: Digest, p: nat)
    requires OfKey(s, p, k) && PastClaim(s.calls[p].phase) && Holds(s, k, p)
    ensures OfKey(Run(s, actions), p, k) && PastClaim(Run(s, actions).calls[p].phase)
    ensures Holds(Run(s, actions), k, p) <==> NoneDeletes(s, actions, k)
    decreases |actions|
  {
    hide OfKey, PastClaim, Holds, Deletes, Step, NoneDeletes;
    if actions == [] {
      assert NoneDeletes(s, [], k) by { NothingDeletes(s, k); }
    } else {
      var n := |actions| - 1;
      var before := Run(s, actions[..n]);
      ClaimLastsIff(s, actions[..n], k, p);
      PastClaimStays(before, actions[n], k, p);
      if Holds(before, k, p) { ClaimLeavesIff(before, actions[n], k, p); }
      NoneDeletesSnoc(s, actions, k);
    }
  }

  lemma NothingDeletes(s: State, k: Digest)
    ensures NoneDeletes(s, [], k)
  {
  }

  // ---- exclusion until the key is next read as expired ----

  predicate Active(c: Call, pid: nat) {
    InFlight(c) || Completed(c, pid)
  }

  ghost predicate NoneDropping(s: State, k: Digest) {
    forall q | OfKey(s, q, k) :: !s.calls[q].phase.Dropping?
  }

  /** Nobody is about to drop the key, and an exchange in flight holds it: so there is at most one. */
  ghost predicate Exclusive(s: State, k: Digest) {
    NoneDropping(s, k) && forall q | OfKey(s, q, k) && InFlight(s.calls[q]) :: Holds(s, k, q)
  }

  /** Not an exchange that had completed by then under a claim it no longer had. */
  predicate Counted(base: State, k: Digest, q: nat) {
    q in base.calls && Completed(base.calls[q], q) ==> Holds(base, k, q)
  }

  ghost predicate Since(base: State, s: State, k: Digest) {
    && (forall q | OfKey(s, q, k) && Counted(base, k, q) && Active(s.calls[q], q) :: Holds(s, k, q))
    && (forall q | q in base.calls && Completed(base.calls[q], q) :: q in s.calls && Completed(s.calls[q], q))
  }

  /** A call that becomes active in a step starts its exchange in it. */
  lemma BecomesActive(s: State, a: Action, q: nat)
    requires Inv(s) && q in Step(s, a).calls && Active(Step(s, a).calls[q], q)
    requires q in s.calls ==> !Active(s.calls[q], q)
    ensures Starts(s, a, q)
  {
    hide AdvanceCall, KeyHash, AadOf, Keeps, CallsOk, SessionsOk, RowOk, SameRow, SameClaim, FreshClaim, RowsOk;
    if a.Advance? && a.pid in s.calls {
      AdvanceEffect(s, a.pid, a.reply);
      if q == a.pid && Step(s, a).calls[q].phase.Answered? && (s.calls[q].phase.Arrived? || s.calls[q].phase.Clashed?) {
        AuthorIsAnother(s, KeyHash(s.calls[q].request), q);
      }
    } else if !a.Advance? {
      ArrivalKeeps(s, a);
    }
  }

  lemma AuthorIsAnother(s: State, k: Digest, q: nat)
    requires Inv(s) && k in s.rows && s.rows[k].response.Some? && q in s.calls && !s.calls[q].phase.Answered?
    ensures k in s.author && s.author[k] != q
  {
    hide CallsOk, SessionsOk, KeyHash, AadOf;
    assert RowOk(s, k);
  }

  lemma SinceStep(base: State, s: State, a: Action, k: Digest)
    requires Inv(s) && Since(base, s, k) && NoneDropping(s, k)
    ensures Since(base, Step(s, a), k)
  {
    hide Step, Inv, KeyHash, Counted, Active, Starts, Completed, InFlight;
    var t := Step(s, a);
    forall q | q in base.calls && Completed(base.calls[q], q) ensures q in t.calls && Completed(t.calls[q], q) {
      CompletedForGood(s, a, q);
    }
    forall q | OfKey(t, q, k) && Counted(base, k, q) && Active(t.calls[q], q) ensures Holds(t, k, q) {
      ActiveHolds(base, s, a, k, q);
    }
  }

  lemma ActiveHolds(base: State, s: State, a: Action, k: Digest, q: nat)
    requires Inv(s) && Since(base, s, k) && NoneDropping(s, k)
    requires OfKey(Step(s, a), q, k) && Counted(base, k, q) && Active(Step(s, a).calls[q], q)
    ensures Holds(Step(s, a), k, q)
  {
    hide Step, Inv, KeyHash, Counted, Since;
    if q in s.calls && Active(s.calls[q], q) {
      SameRequest(s, a, q);
      assert Holds(s, k, q) by { hide InFlight, Completed, Holds; SinceAt(base, s, k, q); }
      ClaimLeavesIff(s, a, k, q);
      if Deletes(s, a, k) {
        ReleaserIsCounted(base, s, k, a.pid);
        assert a.pid == q;
        OwnReleaseEnds(s, a, q);
      }
    } else {
      BecomesActive(s, a, q);
      ExchangeStartsIff(s, a, q);
      SameRequest(s, a, q);
    }
  }

  lemma SinceAt(base: State, s: State, k: Digest, q: nat)
    requires Since(base, s, k) && OfKey(s, q, k) && Counted(base, k, q) && Active(s.calls[q], q)
    ensures Holds(s, k, q)
  {
    hide Counted, Active, Holds, OfKey;
  }

  /** A call that is releasing has completed nothing, so its claim counts too. */
  lemma ReleaserIsCounted(base: State, s: State, k: Digest, q: nat)
    requires Since(base, s, k) && OfKey(s, q, k) && s.calls[q].phase.Releasing?
    ensures Holds(s, k, q)
  {
    hide Holds, OfKey;
  }

  lemma SameRequest(s: State, a: Action, q: nat)
    requires q in s.calls
    ensures q in Step(s, a).calls && Step(s, a).calls[q].request == s.calls[q].request
  {
    hide AdvanceCall, KeyHash, Moves, SameRow;
    if a.Advance? && a.pid in s.calls { AdvanceEffect(s, a.pid, a.reply); }
  }

  lemma OwnReleaseEnds(s: State, a: Action, q: nat)
    requires a.Advance? && a.pid == q && q in s.calls && s.calls[q].phase.Releasing?
    ensures q in Step(s, a).calls && !Active(Step(s, a).calls[q], q)
  {
    hide AdvanceCall, KeyHash, SameRow, Holds;
    AdvanceEffect(s, q, a.reply);
  }

  ghost predicate NeverDropping(s: State, actions: seq<Action>, k: Digest) {
    forall i | 0 <= i <= |actions| :: NoneDropping(Run(s, actions[..i]), k)
  }

  lemma {:induction false} SinceRun(s: State, actions: seq<Action>, k: Digest)
    requires Inv(s) && Since(s, s, k) && NeverDropping(s, actions, k)
    ensures Inv(Run(s, actions)) && Since(s, Run(s, actions), k)
    decreases |actions|
  {
    hide Inv, Since, Step, NoneDropping;
    if actions != [] {
      var n := |actions| - 1;
      assert forall i | 0 <= i <= n :: actions[..n][..i] == actions[..i];
      SinceRun(s, actions[..n], k);
      StepKeepsInv(Run(s, actions[..n]), actions[n]);
      SinceStep(s, Run(s, actions[..n]), actions[n], k);
    }
  }

  /**
   At most one exchange, from any state the invariant allows.  If by then nobody
   is about to drop the key and an exchange in flight holds it, then until the
   key is next read as expired at most one call exchanges or has completed an
   exchange, those not counted that had lost their claim before.
   */
  lemma ExclusionUntilNextExpiry(s: State, actions: seq<Action>, k: Digest, p: nat, q: nat)
    requires Inv(s) && Exclusive(s, k) && NeverDropping(s, actions, k)
    requires OfKey(Run(s, actions), p, k) && Active(Run(s, actions).calls[p], p) && Counted(s, k, p)
    requires OfKey(Run(s, actions), q, k) && Active(Run(s, actions).calls[q], q) && Counted(s, k, q)
    ensures p == q
  {
    hide Inv, Run, Step, NeverDropping, NoneDropping, KeyHash, InFlight, Completed;
    SinceRun(s, actions, k);
    SinceAt(s, Run(s, actions), k, p);
    SinceAt(s, Run(s, actions), k, q);
  }

  /** A key that no call of a whole run has read as expired is the special case. */
  lemma {:induction false} NeverExpired(actions: seq<Action>, k: Digest)
    requires k !in Run(Initial, actions).expired
    ensures Exclusive(Initial, k) && NeverDropping(Initial, actions, k)
    decreases |actions|
  {
    hide Step, Inv, NoneDropping, KeyHash;
    var n := |actions|;
    RunKeepsInv(actions);
    UnexpiredIsNotDropping(Run(Initial, actions), k);
    assert actions[..n] == actions;
    if n == 0 {
      NothingExclusive(k);
    } else {
      RunKeepsInv(actions[..n - 1]);
      StepKeepsInv(Run(Initial, actions[..n - 1]), actions[n - 1]);
      NeverExpired(actions[..n - 1], k);
      assert forall i | 0 <= i < n :: actions[..n - 1][..i] == actions[..i];
    }
  }

  lemma UnexpiredIsNotDropping(s: State, k: Digest)
    requires Inv(s) && k !in s.expired
    ensures NoneDropping(s, k)
  {
    hide KeyHash, RowsOk, SessionsOk, AadOf;
    forall q | OfKey(s, q, k) ensures !s.calls[q].phase.Dropping? { assert CallOk(s, q, s.calls[q]); }
  }

  lemma NothingExclusive(k: Digest)
    ensures Exclusive(Initial, k)
  {
  }

  // ---- when a second exchange can start while one is active ----

  /** p is exchanging or has completed its exchange, and the claim under its key is its own. */
  predicate OwnsClaim(s: State, k: Digest, p: nat) {
    && OfKey(s, p, k) && Active(s.calls[p], p) && Holds(s, k, p)
    && s.rows[k].clientId == s.calls[p].request.clientId && s.rows[k].requestHash == RequestHash(s.calls[p].request)
  }

  /** Another call of the key is about to drop it, or is in flight while the row has no response, so that its failure deletes the row. */
  predicate Threatens(s: State, k: Digest, p: nat, q: nat) {
    && q != p && OfKey(s, q, k) && k in s.rows
    && (s.calls[q].phase.Dropping? || (InFlight(s.calls[q]) && s.rows[k].response.None?))
  }

  predicate Overlaps(s: State, actions: seq<Action>, a: Action, k: Digest, p: nat, q: nat, deadline: int) {
    var t := Run(s, actions);
    && q != p && OfKey(t, q, k) && Starts(t, a, q)
    && OfKey(t, p, k) && Active(t.calls[p], p) && t.now <= deadline
  }

  /** Some run from s, by the deadline, starts another exchange of the key while p's is still active. */
  ghost predicate CanOverlap(s: State, k: Digest, p: nat, deadline: int) {
    exists actions, a, q :: Overlaps(s, actions, a, k, p, q, deadline)
  }

  // no threat and no expiry by the deadline: the claim stays for as long as p is active

  predicate Harmless(s: State, k: Digest, q: nat)
    requires OfKey(s, q, k) && k in s.rows
  {
    !s.calls[q].phase.Dropping? && (InFlight(s.calls[q]) ==> s.rows[k].response.Some?)
  }

  ghost predicate Guarded(s: State, k: Digest, p: nat, deadline: int) {
    && OfKey(s, p, k)
    && (s.calls[p].phase == Failed(ExchangeFailed)
        || (Active(s.calls[p], p) && Holds(s, k, p) && s.rows[k].expiresAt > deadline
            && forall q | q != p && OfKey(s, q, k) :: Harmless(s, k, q)))
  }

  lemma GuardedStep(s: State, a: Action, k: Digest, p: nat, deadline: int)
    requires Guarded(s, k, p, deadline) && s.now <= deadline
    ensures Guarded(Step(s, a), k, p, deadline)
  {
    hide Step, KeyHash, Local, Moves, Harmless, Active, SameRow;
    var t := Step(s, a);
    SameRequest(s, a, p);
    if s.calls[p].phase == Failed(ExchangeFailed) {
      EndedStays(s, a, p);
    } else if a.Advance? && a.pid == p {
      OwnStep(s, a, k, deadline);
      if t.calls[p].phase != Failed(ExchangeFailed) {
        forall q | q != p && OfKey(t, q, k) ensures Harmless(t, k, q) { BystanderStep(s, a, k, p, q); }
      }
    } else {
      OtherStep(s, a, k, p, deadline);
      forall q | q != p && OfKey(t, q, k) ensures Harmless(t, k, q) {
        if a.Advance? && a.pid == q { HarmlessStep(s, a, k, deadline); } else { BystanderStep(s, a, k, p, q); }
      }
    }
  }

  lemma EndedStays(s: State, a: Action, p: nat)
    requires p in s.calls && s.calls[p].phase.Failed?
    ensures p in Step(s, a).calls && Step(s, a).calls[p] == s.calls[p]
  {
    hide AdvanceCall, KeyHash, SameRow;
    if a.Advance? && a.pid in s.calls { AdvanceEffect(s, a.pid, a.reply); }
  }

  /** p's own step keeps its claim, unless it was the release that ends it. */
  lemma OwnStep(s: State, a: Action, k: Digest, deadline: int)
    requires a.Advance? && OfKey(s, a.pid, k) && Active(s.calls[a.pid], a.pid) && Holds(s, k, a.pid) && s.rows[k].expiresAt > deadline
    ensures
      var t := Step(s, a);
      && OfKey(t, a.pid, k)
      && (t.calls[a.pid].phase == Failed(ExchangeFailed)
          || (Active(t.calls[a.pid], a.pid) && Holds(t, k, a.pid) && t.rows[k].expiresAt > deadline && SameClaim(s, t, k)))
  {
    hide AdvanceCall, KeyHash;
    AdvanceEffect(s, a.pid, a.reply);
  }

  /** A step of anybody else keeps p's claim too. */
  lemma OtherStep(s: State, a: Action, k: Digest, p: nat, deadline: int)
    requires Guarded(s, k, p, deadline) && s.calls[p].phase != Failed(ExchangeFailed) && !(a.Advance? && a.pid == p)
    ensures
      var t := Step(s, a);
      && OfKey(t, p, k) && Active(t.calls[p], p) && Holds(t, k, p) && t.rows[k].expiresAt > deadline && SameClaim(s, t, k)
  {
    hide AdvanceCall, KeyHash, Active, ReadLeads, Keeps;
    if a.Advance? && OfKey(s, a.pid, k) {
      assert Harmless(s, k, a.pid);
      AdvanceEffect(s, a.pid, a.reply);
    } else {
      OtherKeyStep(s, a, k);
      if a.Advance? && a.pid in s.calls { AdvanceEffect(s, a.pid, a.reply); }
    }
  }

  /** A call that does not move stays harmless while the claim stays. */
  lemma BystanderStep(s: State, a: Action, k: Digest, p: nat, q: nat)
    requires OfKey(Step(s, a), q, k) && !(a.Advance? && a.pid == q)
    requires SameClaim(s, Step(s, a), k) && k in s.rows
    requires OfKey(s, q, k) ==> Harmless(s, k, q)
    ensures Harmless(Step(s, a), k, q)
  {
    hide AdvanceCall, KeyHash, Moves, SameRow, Keeps;
    if a.Advance? {
      if a.pid in s.calls { AdvanceEffect(s, a.pid, a.reply); }
    } else {
      ArrivalKeeps(s, a);
    }
  }

  /** A harmless call stays harmless when it moves: it finds a row that has not expired. */
  lemma HarmlessStep(s: State, a: Action, k: Digest, deadline: int)
    requires a.Advance? && OfKey(Step(s, a), a.pid, k)
    requires OfKey(s, a.pid, k) ==> k in s.rows && Harmless(s, k, a.pid) && s.now <= deadline < s.rows[k].expiresAt
    ensures k in s.rows ==> k in Step(s, a).rows && Harmless(Step(s, a), k, a.pid)
  {
    hide AdvanceCall, KeyHash;
    AdvanceEffect(s, a.pid, a.reply);
  }

  lemma ClockOnlyAdvances(s: State, a: Action)
    ensures s.now <= Step(s, a).now
  {
    hide AdvanceCall, KeyHash, Moves, SameRow;
    if a.Advance? && a.pid in s.calls { AdvanceEffect(s, a.pid, a.reply); }
  }

  lemma {:induction false} GuardedRun(s: State, actions: seq<Action>, k: Digest, p: nat, deadline: int)
    requires Guarded(s, k, p, deadline) && Run(s, actions).now <= deadline
    ensures Guarded(Run(s, actions), k, p, deadline)
    decreases |actions|
  {
    hide Guarded, Step;
    if actions != [] {
      var before := Run(s, actions[..|actions| - 1]);
      ClockOnlyAdvances(before, actions[|actions| - 1]);
      GuardedRun(s, actions[..|actions| - 1], k, p, deadline);
      GuardedStep(before, actions[|actions| - 1], k, p, deadline);
    }
  }

  lemma GuardedExcludes(s: State, k: Digest, p: nat, deadline: int)
    requires Guarded(s, k, p, deadline)
    ensures !CanOverlap(s, k, p, deadline)
  {
    hide Guarded, Run, Starts, KeyHash, Active, InFlight, Completed;
    forall actions, a, q ensures !Overlaps(s, actions, a, k, p, q, deadline) {
      if Overlaps(s, actions, a, k, p, q, deadline) {
        GuardedRun(s, actions, k, p, deadline);
        ExchangeStartsIff(Run(s, actions), a, q);
        GuardedHolds(Run(s, actions), k, p, deadline);
      }
    }
  }

  lemma GuardedHolds(s: State, k: Digest, p: nat, deadline: int)
    requires Guarded(s, k, p, deadline) && Active(s.calls[p], p)
    ensures k in s.rows
  {
  }

  // a threat, or expiry by the deadline: the claim can go, and a newcomer then exchanges

  lemma {:induction false} Above(xs: set<nat>) returns (f: nat)
    ensures forall x | x in xs :: x < f
    decreases |xs|
  {
    if xs == {} {
      f := 0;
    } else {
      var x :| x in xs;
      f := Above(xs - {x});
      if f <= x { f := x + 1; }
      assert forall y | y in xs :: y == x || y in xs - {x};
    }
  }

  /** With no row under its key, a new call needs three steps to be about to insert its claim. */
  lemma NewcomerIsClaiming(s: State, f: nat, r: Request)
    requires f !in s.calls && KeyHash(r) !in s.rows
    ensures Step(Step(Step(s, Begin(f, r)), Advance(f, Go)), Advance(f, Go)) == s.(calls := s.calls[f := Call(r, Claiming)])
  {
    hide KeyHash, RequestHash, AadOf, AdvanceCall;
    var s0 := Step(s, Begin(f, r));
    ReplayStep(s0, f, Go);
    var s1 := Step(s0, Advance(f, Go));
    assert s1 == s.(calls := s.calls[f := Call(r, Ready)]);
    ReadyStep(s1, f, Go);
  }

  /** Once p's row is gone while p is active, a newcomer overlaps it. */
  lemma ClearedOverlaps(s: State, actions: seq<Action>, k: Digest, p: nat, deadline: int)
    requires
      var u := Run(s, actions);
      OfKey(u, p, k) && Active(u.calls[p], p) && k !in u.rows && u.now <= deadline
    ensures CanOverlap(s, k, p, deadline)
  {
    hide Run, Step, KeyHash, Active;
    var u := Run(s, actions);
    var r := u.calls[p].request;
    var f := Above(u.calls.Keys);
    var a0 := actions + [Begin(f, r)];
    var a1 := a0 + [Advance(f, Go)];
    var a2 := a1 + [Advance(f, Go)];
    RunSnoc(s, actions, Begin(f, r));
    RunSnoc(s, a0, Advance(f, Go));
    RunSnoc(s, a1, Advance(f, Go));
    NewcomerIsClaiming(u, f, r);
    ExchangeStartsIff(Run(s, a2), Advance(f, Go), f);
    assert Overlaps(s, a2, Advance(f, Go), k, p, f, deadline);
  }

  /** A pending drop deletes the row. */
  lemma DropOverlaps(s: State, k: Digest, p: nat, q: nat, deadline: int)
    requires OwnsClaim(s, k, p) && Threatens(s, k, p, q) && s.calls[q].phase.Dropping? && s.now <= deadline
    ensures CanOverlap(s, k, p, deadline)
  {
    hide Run, Step, KeyHash, Active, RequestHash, SameRow, CanOverlap;
    AdvanceEffect(s, q, Denied);
    RunEmptyFrom(s);
    RunSnoc(s, [], Advance(q, Denied));
    ClearedOverlaps(s, [] + [Advance(q, Denied)], k, p, deadline);
  }

  lemma RunEmptyFrom(s: State)
    ensures Run(s, []) == s
  {
  }

  /** A failing exchange of another call deletes the row, as long as it has no response. */
  lemma FailureOverlaps(s: State, k: Digest, p: nat, q: nat, deadline: int)
    requires OwnsClaim(s, k, p) && Threatens(s, k, p, q) && InFlight(s.calls[q]) && s.now <= deadline
    ensures CanOverlap(s, k, p, deadline)
  {
    hide Run, KeyHash, Active, RequestHash, CanOverlap, AdvanceCall, Overlaps;
    RunEmptyFrom(s);
    var actions: seq<Action> := [];
    var u := s;
    if s.calls[q].phase.Exchanging? {
      RunSnoc(s, [], Advance(q, Denied));
      actions := [] + [Advance(q, Denied)];
      ExchangeStep(s, q, Denied);
      u := Step(s, Advance(q, Denied));
    }
    ReleaseClears(u, k, p, q);
    RunSnoc(s, actions, Advance(q, Denied));
    ClearedOverlaps(s, actions + [Advance(q, Denied)], k, p, deadline);
  }

  lemma ReleaseClears(u: State, k: Digest, p: nat, q: nat)
    requires OfKey(u, p, k) && OfKey(u, q, k) && p != q && k in u.rows && u.rows[k].response.None? && u.calls[q].phase.Releasing?
    ensures
      var t := Step(u, Advance(q, Denied));
      k !in t.rows && OfKey(t, p, k) && t.calls[p] == u.calls[p] && t.now == u.now
  {
    hide Step, KeyHash, SameRow;
    AdvanceEffect(u, q, Denied);
  }

  /** An expired row is dropped by the first newcomer. */
  lemma ExpiryOverlaps(s: State, k: Digest, p: nat, deadline: int)
    requires OwnsClaim(s, k, p) && s.rows[k].expiresAt <= deadline && s.now <= deadline
    ensures CanOverlap(s, k, p, deadline)
  {
    hide Run, Step, KeyHash, Active, RequestHash, CanOverlap, Overlaps;
    var wait: nat := if s.rows[k].expiresAt <= s.now then 0 else s.rows[k].expiresAt - s.now;
    RunEmptyFrom(s);
    RunSnoc(s, [], Tick(wait));
    Ticked(s, wait);
    var u := Step(s, Tick(wait));
    var r := s.calls[p].request;
    var f := Above(u.calls.Keys);
    ExpiredClaimIsDropped(u, f, r);
    var a0 := [] + [Tick(wait)];
    RunSnoc(s, a0, Begin(f, r));
    RunSnoc(s, a0 + [Begin(f, r)], Advance(f, Go));
    RunSnoc(s, a0 + [Begin(f, r)] + [Advance(f, Go)], Advance(f, Go));
    ClearedOverlaps(s, a0 + [Begin(f, r)] + [Advance(f, Go)] + [Advance(f, Go)], k, p, deadline);
  }

  lemma Ticked(s: State, wait: nat)
    ensures Step(s, Tick(wait)) == s.(now := s.now + wait)
  {
  }

  /**
   In any state in which p is active and owns the claim of its key: by the
   deadline some run can start a second exchange of the key, with p still
   active, exactly when another call threatens the claim already or the claim
   expires by then.
   */
  lemma OverlapIff(s: State, k: Digest, p: nat, deadline: int)
    requires OwnsClaim(s, k, p) && s.now <= deadline
    ensures CanOverlap(s, k, p, deadline) <==> (exists q :: Threatens(s, k, p, q)) || s.rows[k].expiresAt <= deadline
  {
    hide CanOverlap, Threatens, Guarded;
    if q :| Threatens(s, k, p, q) {
      assert s.calls[q].phase.Dropping? || InFlight(s.calls[q]) by { ThreatIs(s, k, p, q); }
      if s.calls[q].phase.Dropping? { DropOverlaps(s, k, p, q, deadline); } else { FailureOverlaps(s, k, p, q, deadline); }
    } else if s.rows[k].expiresAt <= deadline {
      ExpiryOverlaps(s, k, p, deadline);
    } else {
      UnthreatenedIsGuarded(s, k, p, deadline);
      GuardedExcludes(s, k, p, deadline);
    }
  }

  lemma ThreatIs(s: State, k: Digest, p: nat, q: nat)
    requires Threatens(s, k, p, q)
    ensures OfKey(s, q, k) && (s.calls[q].phase.Dropping? || InFlight(s.calls[q]))
  {
    hide KeyHash;
  }

  lemma UnthreatenedIsGuarded(s: State, k: Digest, p: nat, deadline: int)
    requires OwnsClaim(s, k, p) && s.rows[k].expiresAt > deadline && forall q :: !Threatens(s, k, p, q)
    ensures Guarded(s, k, p, deadline)
  {
    hide KeyHash, RequestHash, InFlight, Completed, Active;
    forall q | q != p && OfKey(s, q, k) ensures Harmless(s, k, q) { assert !Threatens(s, k, p, q); }
  }

  // ---- in every run ----

  /** A claim names the client and the request of the call that holds it. */
  predicate ClaimMatches(s: State, k: Digest)
    requires k in s.rows
  {
    && k in s.holder && OfKey(s, s.holder[k], k)
    && s.rows[k].clientId == s.calls[s.holder[k]].request.clientId
    && s.rows[k].requestHash == RequestHash(s.calls[s.holder[k]].request)
  }

  predicate ClaimsMatch(s: State) {
    forall k | k in s.rows :: ClaimMatches(s, k)
  }

  lemma ClaimMatchesStep(s: State, a: Action, k: Digest)
    requires ClaimsMatch(s) && k in Step(s, a).rows
    ensures ClaimMatches(Step(s, a), k)
  {
    hide AdvanceCall, KeyHash, RequestHash, ReadLeads, Keeps;
    if a.Advance? && OfKey(s, a.pid, k) {
      AdvanceEffect(s, a.pid, a.reply);
      if k in s.rows { assert ClaimMatches(s, k); SameRequest(s, a, s.holder[k]); }
    } else {
      OtherKeyStep(s, a, k);
      assert ClaimMatches(s, k);
      SameRequest(s, a, s.holder[k]);
    }
  }

  lemma {:induction false} RunMatches(actions: seq<Action>)
    ensures ClaimsMatch(Run(Initial, actions))
    decreases |actions|
  {
    hide Step, ClaimMatches;
    if actions != [] {
      var s, a := Run(Initial, actions[..|actions| - 1]), actions[|actions| - 1];
      RunMatches(actions[..|actions| - 1]);
      forall k | k in Step(s, a).rows ensures ClaimMatches(Step(s, a), k) { ClaimMatchesStep(s, a, k); }
    }
  }

  /**
   So exclusion is lost exactly so.  In every reachable state in which a call is
   exchanging or has completed its exchange and still holds its key's claim: a
   second exchange of the key can start by the deadline exactly when some other
   call has read a row of the key as expired and not yet deleted it, or some
   other call of the key is in flight and the claim has no response, or the claim
   expires by the deadline.
   */
  lemma ExclusionIsLostIff(actions: seq<Action>, k: Digest, p: nat, deadline: int)
    requires
      var s := Run(Initial, actions);
      OfKey(s, p, k) && Active(s.calls[p], p) && Holds(s, k, p) && s.now <= deadline
    ensures
      var s := Run(Initial, actions);
      CanOverlap(s, k, p, deadline) <==> (exists q :: Threatens(s, k, p, q)) || s.rows[k].expiresAt <= deadline
  {
    hide Run, CanOverlap, Threatens, Active;
    RunMatches(actions);
    assert ClaimMatches(Run(Initial, actions), k);
    OverlapIff(Run(Initial, actions), k, p, deadline);
  }

  // ---- two runs that lose a live claim ----

  /** Two calls of one request exchange. */
  predicate BothExchange(s: State, r: Request, p: nat, q: nat) {
    && p != q && p in s.calls && q in s.calls
    && s.calls[p] == Call(r, Exchanging) && s.calls[q] == Call(r, Exchanging)
  }

  /** p exchanges under its own claim, which has not expired. */
  predicate LiveClaimOf(s: State, r: Request, p: nat) {
    p in s.calls && s.calls[p] == Call(r, Exchanging) && Holds(s, KeyHash(r), p) && s.now < s.rows[KeyHash(r)].expiresAt
  }

  /** The claim of call 0 has expired; call 1 has read it so; call 2 has replaced it and exchanges. */
  lemma StaleReader(r: Request) returns (actions: seq<Action>)
    ensures
      var s := Run(Initial, actions);
      1 in s.calls && s.calls[1] == Call(r, Dropping(false)) && LiveClaimOf(s, r, 2)
  {
    hide Run, Step, KeyHash, RequestHash, Enter;
    var slow := SlowExchange(r);
    var s0 := Run(Initial, slow);
    Snoc(slow, Begin(1, r));
    Snoc(slow + [Begin(1, r)], Advance(1, Go));
    FirstRead(s0, 1, r);
    var read := slow + [Begin(1, r)] + [Advance(1, Go)];
    var s1 := Run(Initial, read);
    NewcomerPassesIff(s1, 2, r);
    actions := EnterIsARun(read, 2, r);
  }

  lemma FirstRead(s: State, pid: nat, r: Request)
    requires pid !in s.calls && KeyHash(r) in s.rows && LooksExpired(s, r)
    ensures Step(Step(s, Begin(pid, r)), Advance(pid, Go))
         == s.(calls := s.calls[pid := Call(r, Dropping(false))], expired := s.expired + {KeyHash(r)})
  {
    hide KeyHash, RequestHash, AadOf, AdvanceCall;
    ReplayStep(Step(s, Begin(pid, r)), pid, Go);
  }

  /** A late drop: it deletes the live claim of call 2, and calls 1 and 2 exchange while no clock has moved. */
  lemma StaleDropEndsLiveClaim(r: Request) returns (actions: seq<Action>, longer: seq<Action>)
    ensures LiveClaimOf(Run(Initial, actions), r, 2)
    ensures BothExchange(Run(Initial, longer), r, 1, 2) && actions < longer && Run(Initial, longer).now == Run(Initial, actions).now
  {
    hide Run, Step, KeyHash, RequestHash, SameRow;
    actions := StaleReader(r);
    var s := Run(Initial, actions);
    Snoc(actions, Advance(1, Go));
    DropStep(s, 1, Go);
    DropEffect(s, 1, false);
    var a1 := actions + [Advance(1, Go)];
    var t := Run(Initial, a1);
    DroppedToReady(s, 1, r);
    FreeKeyIsClaimed(t, 1, r);
    Snoc(a1, Advance(1, Go));
    Snoc(a1 + [Advance(1, Go)], Advance(1, Go));
    longer := a1 + [Advance(1, Go)] + [Advance(1, Go)];
  }

  lemma DroppedToReady(s: State, pid: nat, r: Request)
    requires pid in s.calls && s.calls[pid] == Call(r, Dropping(false))
    ensures Drop(s, pid, KeyHash(r), false).calls == s.calls[pid := Call(r, Ready)]
  {
    hide KeyHash;
  }

  /** A late release: the exchange of call 0 fails, which deletes the live claim of call 1, and call 2 exchanges beside it. */
  lemma LateReleaseEndsLiveClaim(r: Request) returns (actions: seq<Action>, longer: seq<Action>)
    ensures LiveClaimOf(Run(Initial, actions), r, 1)
    ensures BothExchange(Run(Initial, longer), r, 1, 2) && actions < longer && Run(Initial, longer).now == Run(Initial, actions).now
  {
    hide Run, Step, KeyHash, RequestHash, SameRow, Enter;
    var slow := SlowExchange(r);
    NewcomerPassesIff(Run(Initial, slow), 1, r);
    actions := EnterIsARun(slow, 1, r);
    var s := Run(Initial, actions);
    Snoc(actions, Advance(0, Denied));
    ExchangeStep(s, 0, Denied);
    var a1 := actions + [Advance(0, Denied)];
    Snoc(a1, Advance(0, Denied));
    var s1 := Run(Initial, a1);
    assert s1 == s.(calls := s.calls[0 := Call(r, Releasing)]);
    ReleaseClears(s1, KeyHash(r), 1, 0);
    AdvanceEffect(s1, 0, Denied);
    var a2 := a1 + [Advance(0, Denied)];
    var s2 := Run(Initial, a2);
    NewcomerIsClaiming(s2, 2, r);
    Snoc(a2, Begin(2, r));
    var a3 := a2 + [Begin(2, r)];
    Snoc(a3, Advance(2, Go));
    Snoc(a3 + [Advance(2, Go)], Advance(2, Go));
    var a4 := a3 + [Advance(2, Go)] + [Advance(2, Go)];
    Snoc(a4, Advance(2, Go));
    AdvanceEffect(Run(Initial, a4), 2, Go);
    longer := a4 + [Advance(2, Go)];
  }
}
