/**
 Webhook deliveries whose transactions overlap.  A transaction looks for the
 receipt, inserts it, looks for the tenant, and then writes and commits.  The
 receipt's primary key is the arbiter: an insert waits for a transaction that has
 inserted the same key, and fails once that one has committed.

 Whether the upsert of a tenant looks and writes in one statement or in two is a
 matter of the client library: each write says which it is.

 `winner` is auxiliary: which transaction committed the receipt of an event.
 */
module WebhookRaces {
  import opened Prelude
  import opened Webhooks

  datatype Phase = Looking | Inserting | Holding | Found(present: bool) | Answered(answer: Answer)

  datatype Transaction = Transaction(delivery: Delivery, phase: Phase)

  /** committed lists the deliveries whose transactions committed, in that order. */
  datatype State = State(db: Db, transactions: map<nat, Transaction>, committed: seq<Delivery>, winner: map<string, nat>)

  /** oneStatement: the upsert, if there is one, looks for the tenant again as it writes. */
  datatype Action = Begin(pid: nat, delivery: Delivery) | Advance(pid: nat, oneStatement: bool)

  function Start(db: Db): State {
    State(db, map[], [], map[])
  }

  function EventOf(d: Delivery): string
    requires Screen(d).Ok?
  {
    Screen(d).value.eventId
  }

  predicate Inside(phase: Phase) {
    phase.Holding? || phase.Found?
  }

  /** Some transaction has inserted this receipt and has not ended. */
  predicate Held(s: State, eventId: string) {
    exists q :: q in s.transactions && Inside(s.transactions[q].phase)
                && Screen(s.transactions[q].delivery).Ok? && EventOf(s.transactions[q].delivery) == eventId
  }

  function Goto(s: State, pid: nat, phase: Phase): State
    requires pid in s.transactions
  {
    s.(transactions := s.transactions[pid := s.transactions[pid].(phase := phase)])
  }

  /** An upsert in two statements that found no tenant and will meet one when it creates it. */
  predicate Stale(t: Tables, p: Payload, present: bool, oneStatement: bool) {
    p.event == "subscription.created" && !present && !oneStatement && p.code in t.tenants
  }

  predicate CreatesWith(p: Payload) {
    p.oauthClient.Some? && Truthy(p.oauthClient.value.clientId) && Truthy(p.oauthClient.value.clientSecret)
  }

  /** The event handler, with what it found of the tenant before it writes to these tables. */
  function Handled(t: Tables, p: Payload, now: int, freshId: string, present: bool, oneStatement: bool): Result<Tables, Error> {
    if Stale(t, p, present, oneStatement) then
      if !CreatesWith(p) then Err(BadRequest) else if p.name.None? then Err(Invalid) else Err(UniqueViolation)
    else if p.event != "subscription.created" && !present then Err(NotFound)
    else ApplyEvent(t, p, now, freshId)
  }

  /** Only a creation in two statements can miss a tenant that is there by the time it writes; then it never succeeds. */
  lemma HandlerIs(t: Tables, p: Payload, now: int, freshId: string, present: bool, oneStatement: bool)
    ensures
      var r := Handled(t, p, now, freshId, present, oneStatement);
      if p.event == "subscription.created" then
        if present || oneStatement || p.code !in t.tenants then r == ApplyEvent(t, p, now, freshId)
        else r == Err(UniqueViolation) || r == Err(BadRequest) || (r == Err(Invalid) && p.name.None?)
      else r == if present then ApplyEvent(t, p, now, freshId) else Err(NotFound)
  {
    hide ApplyEvent;
  }

  function AdvanceTransaction(s: State, pid: nat, oneStatement: bool): State
    requires pid in s.transactions
  {
    var d := s.transactions[pid].delivery;
    match Screen(d)
    case Err(e) => s
    case Ok(p) =>
      match s.transactions[pid].phase
      case Looking => Goto(s, pid, if p.eventId in s.db.receipts then Answered(Accepted(true)) else Inserting)
      case Inserting =>
        if p.eventId in s.db.receipts then Goto(s, pid, Answered(Accepted(true)))
        else if Held(s, p.eventId) then s
        else Goto(s, pid, Holding)
      case Holding => Goto(s, pid, Found(p.code in s.db.tables.tenants))
      case Found(present) =>
        (match Handled(s.db.tables, p, d.now, d.freshId, present, oneStatement)
         case Err(UniqueViolation) => Goto(s, pid, Answered(Accepted(true)))
         case Err(e) => Goto(s, pid, Answered(Rejected(e)))
         case Ok(tables) =>
           Goto(s, pid, Answered(Accepted(false))).(
             db := Db(tables, s.db.receipts[p.eventId := ReceiptFor(tables, p, d.body)]),
             committed := s.committed + [d], winner := s.winner[p.eventId := pid]))
      case Answered(_) => s
  }

  function Step(s: State, a: Action): State {
    match a
    case Begin(pid, d) =>
      if pid in s.transactions then s
      else s.(transactions := s.transactions[pid := Transaction(d, if Screen(d).Err? then Answered(Rejected(Screen(d).error)) else Looking)])
    case Advance(pid, oneStatement) => if pid in s.transactions then AdvanceTransaction(s, pid, oneStatement) else s
  }

  function Run(s: State, actions: seq<Action>): State
    decreases |actions|
  {
    if actions == [] then s else Step(Run(s, actions[..|actions| - 1]), actions[|actions| - 1])
  }

  // ---- what every reachable state keeps ----

  predicate TransactionOk(s: State, pid: nat)
    requires pid in s.transactions
  {
    var t := s.transactions[pid];
    && (Inside(t.phase) ==>
          Screen(t.delivery).Ok? && EventOf(t.delivery) !in s.db.receipts
          && forall q | q in s.transactions && Inside(s.transactions[q].phase)
                        && Screen(s.transactions[q].delivery).Ok? && EventOf(s.transactions[q].delivery) == EventOf(t.delivery) :: q == pid)
    && (t.phase == Answered(Accepted(false)) ==>
          Screen(t.delivery).Ok? && EventOf(t.delivery) in s.db.receipts && t.delivery in s.committed
          && EventOf(t.delivery) in s.winner && s.winner[EventOf(t.delivery)] == pid)
  }

  predicate AllOk(s: State) {
    forall p | p in s.transactions :: TransactionOk(s, p)
  }

  /** The committed database is what serial processing of the committed deliveries gives, every one of them accepted. */
  predicate Serial(start: Db, s: State) {
    Process(start, s.committed) == s.db && Effective(start, s.committed) == s.committed
  }

  lemma GotoKeepsOk(s: State, pid: nat, phase: Phase)
    requires AllOk(s) && pid in s.transactions && !Inside(phase) && phase != Answered(Accepted(false))
    ensures AllOk(Goto(s, pid, phase))
  {
    hide Screen;
    var t := Goto(s, pid, phase);
    forall p | p in t.transactions ensures TransactionOk(t, p) { assert TransactionOk(s, p); }
  }

  lemma HoldKeepsOk(s: State, pid: nat)
    requires AllOk(s) && pid in s.transactions && Screen(s.transactions[pid].delivery).Ok?
    requires EventOf(s.transactions[pid].delivery) !in s.db.receipts && !Held(s, EventOf(s.transactions[pid].delivery))
    ensures AllOk(Goto(s, pid, Holding))
  {
    hide Screen;
    var t := Goto(s, pid, Holding);
    forall p | p in t.transactions ensures TransactionOk(t, p) { assert TransactionOk(s, p); }
  }

  lemma FindKeepsOk(s: State, pid: nat, present: bool)
    requires AllOk(s) && pid in s.transactions && s.transactions[pid].phase.Holding?
    ensures AllOk(Goto(s, pid, Found(present)))
  {
    hide Screen;
    var t := Goto(s, pid, Found(present));
    forall p | p in t.transactions ensures TransactionOk(t, p) {
      assert TransactionOk(s, p) && TransactionOk(s, pid);
    }
  }

  /** A handler that succeeds has done what the event does to the tables it wrote to. */
  lemma HandledIsApplied(t: Tables, p: Payload, now: int, freshId: string, present: bool, oneStatement: bool)
    requires Handled(t, p, now, freshId, present, oneStatement).Ok?
    ensures Handled(t, p, now, freshId, present, oneStatement) == ApplyEvent(t, p, now, freshId)
  {
    hide ApplyEvent;
  }

  /** It meets a unique index exactly on a refused tenant creation, or on one that found the code free when it no longer is. */
  lemma ClashIff(t: Tables, p: Payload, now: int, freshId: string, present: bool, oneStatement: bool)
    ensures Handled(t, p, now, freshId, present, oneStatement) == Err(UniqueViolation)
       <==> if Stale(t, p, present, oneStatement) then CreatesWith(p) && p.name.Some? else IndexRefuses(t, p, freshId)
  {
    hide ApplyEvent, EduplusIdTaken, IdTaken;
    UniqueViolationIff(t, p, now, freshId);
  }

  lemma CommitKeepsOk(s: State, pid: nat, oneStatement: bool)
    requires AllOk(s) && pid in s.transactions && s.transactions[pid].phase.Found? && Screen(s.transactions[pid].delivery).Ok?
    requires Handles(s, pid, oneStatement).Ok?
    ensures AllOk(AdvanceTransaction(s, pid, oneStatement))
  {
    hide Screen, Handled, ReceiptFor;
    assert TransactionOk(s, pid);
    var t := AdvanceTransaction(s, pid, oneStatement);
    forall p | p in t.transactions ensures TransactionOk(t, p) {
      assert TransactionOk(s, p);
    }
  }

  /** What the handler of a transaction comes to when it writes. */
  function Handles(s: State, pid: nat, oneStatement: bool): Result<Tables, Error>
    requires pid in s.transactions && s.transactions[pid].phase.Found? && Screen(s.transactions[pid].delivery).Ok?
  {
    var d := s.transactions[pid].delivery;
    Handled(s.db.tables, Screen(d).value, d.now, d.freshId, s.transactions[pid].phase.present, oneStatement)
  }

  lemma CommitIsSerial(start: Db, s: State, pid: nat, oneStatement: bool)
    requires Serial(start, s) && pid in s.transactions && s.transactions[pid].phase.Found?
    requires Screen(s.transactions[pid].delivery).Ok? && EventOf(s.transactions[pid].delivery) !in s.db.receipts
    requires Handles(s, pid, oneStatement).Ok?
    ensures Receive(s.db, s.transactions[pid].delivery).1 == Accepted(false)
    ensures Serial(start, AdvanceTransaction(s, pid, oneStatement))
  {
    hide Screen, Handled, ApplyEvent, ReceiptFor, Process, Effective;
    var d := s.transactions[pid].delivery;
    HandledIsApplied(s.db.tables, Screen(d).value, d.now, d.freshId, s.transactions[pid].phase.present, oneStatement);
    RunSnoc(start, s.committed, d);
  }

  lemma AdvanceKeeps(start: Db, s: State, pid: nat, oneStatement: bool)
    requires AllOk(s) && Serial(start, s) && pid in s.transactions
    ensures AllOk(AdvanceTransaction(s, pid, oneStatement)) && Serial(start, AdvanceTransaction(s, pid, oneStatement))
  {
    hide Screen, Handled, ReceiptFor, Process, Effective, AllOk, Held, TransactionOk;
    var d := s.transactions[pid].delivery;
    if Screen(d).Ok? {
      match s.transactions[pid].phase
      case Looking =>
        GotoKeepsOk(s, pid, if Screen(d).value.eventId in s.db.receipts then Answered(Accepted(true)) else Inserting);
      case Inserting =>
        if Screen(d).value.eventId in s.db.receipts { GotoKeepsOk(s, pid, Answered(Accepted(true))); }
        else if !Held(s, Screen(d).value.eventId) { HoldKeepsOk(s, pid); }
      case Holding => FindKeepsOk(s, pid, Screen(d).value.code in s.db.tables.tenants);
      case Found(present) =>
        InsideIsNew(s, pid);
        match Handles(s, pid, oneStatement) {
          case Err(e) => GotoKeepsOk(s, pid, Answered(if e == UniqueViolation then Accepted(true) else Rejected(e)));
          case Ok(_) =>
            CommitIsSerial(start, s, pid, oneStatement);
            CommitKeepsOk(s, pid, oneStatement);
        }
      case Answered(_) =>
    }
  }

  lemma InsideIsNew(s: State, pid: nat)
    requires AllOk(s) && pid in s.transactions && Inside(s.transactions[pid].phase)
    ensures Screen(s.transactions[pid].delivery).Ok? && EventOf(s.transactions[pid].delivery) !in s.db.receipts
  {
    hide Screen;
    assert TransactionOk(s, pid);
  }

  lemma BeginKeeps(s: State, pid: nat, d: Delivery)
    requires AllOk(s) && pid !in s.transactions
    ensures AllOk(Step(s, Begin(pid, d)))
  {
    hide Screen;
    var t := Step(s, Begin(pid, d));
    forall p | p in t.transactions ensures TransactionOk(t, p) { if p != pid { assert TransactionOk(s, p); } }
  }

  lemma {:induction false} RunKeeps(start: Db, actions: seq<Action>)
    ensures AllOk(Run(Start(start), actions)) && Serial(start, Run(Start(start), actions))
    decreases |actions|
  {
    hide AllOk, Process, Effective, Screen, AdvanceTransaction;
    if actions == [] {
      NothingCommitted(start);
    } else {
      var before, a := Run(Start(start), actions[..|actions| - 1]), actions[|actions| - 1];
      RunKeeps(start, actions[..|actions| - 1]);
      match a
      case Begin(pid, d) => if pid !in before.transactions { BeginKeeps(before, pid, d); }
      case Advance(pid, oneStatement) => if pid in before.transactions { AdvanceKeeps(start, before, pid, oneStatement); }
    }
  }

  lemma NothingCommitted(start: Db)
    ensures AllOk(Start(start)) && Serial(start, Start(start))
  {
  }

  // ---- exactly once, whatever overlaps ----

  /**
   In every interleaving of any number of deliveries the database is that of
   some serial order of the deliveries that committed, all accepted; their event
   ids are new and all different, and the receipts are the old ones plus theirs.
   */
  lemma OverlappingDeliveriesAreSerial(start: Db, actions: seq<Action>)
    ensures
      var s := Run(Start(start), actions);
      && Process(start, s.committed) == s.db && Effective(start, s.committed) == s.committed
      && ApplyAll(start.tables, s.committed) == Some(s.db.tables)
      && DistinctEvents(s.committed) && IdSet(s.committed) !! start.receipts.Keys
      && s.db.receipts.Keys == start.receipts.Keys + IdSet(s.committed)
  {
    hide Run, Process, Effective, ApplyAll, DistinctEvents, IdSet, AllOk;
    RunKeeps(start, actions);
    EffectsAreExactlyOnce(start, Run(Start(start), actions).committed);
  }

  /** Of any number of overlapping deliveries of one event at most one is answered duplicate:false, and none of an event with a receipt. */
  lemma OneWinnerPerEvent(start: Db, actions: seq<Action>, p: nat, q: nat)
    requires p in Run(Start(start), actions).transactions && q in Run(Start(start), actions).transactions
    requires
      var s := Run(Start(start), actions);
      && s.transactions[p].phase == Answered(Accepted(false)) && s.transactions[q].phase == Answered(Accepted(false))
      && Screen(s.transactions[p].delivery).Ok? && Screen(s.transactions[q].delivery).Ok?
      && EventOf(s.transactions[p].delivery) == EventOf(s.transactions[q].delivery)
    ensures p == q && EventOf(Run(Start(start), actions).transactions[p].delivery) !in start.receipts
  {
    hide Run, Screen, Serial, Process, Effective, ApplyAll, DistinctEvents;
    RunKeeps(start, actions);
    var s := Run(Start(start), actions);
    assert TransactionOk(s, p) && TransactionOk(s, q);
    OverlappingDeliveriesAreSerial(start, actions);
    ListedId(s.committed, s.transactions[p].delivery);
  }

  lemma ListedId(ds: seq<Delivery>, d: Delivery)
    requires d in ds && Screen(d).Ok?
    ensures EventOf(d) in IdSet(ds)
  {
    var i :| 0 <= i < |ds| && ds[i] == d;
    assert EventIds(ds)[i] == EventOf(d);
  }

  /** The step that answers duplicate:true: the receipt is there, or the handler meets a unique index. */
  lemma OverlappingDuplicateIff(s: State, pid: nat, oneStatement: bool)
    requires pid in s.transactions && Screen(s.transactions[pid].delivery).Ok? && !s.transactions[pid].phase.Answered?
    ensures
      var p, phase := Screen(s.transactions[pid].delivery).value, s.transactions[pid].phase;
      AdvanceTransaction(s, pid, oneStatement).transactions[pid].phase == Answered(Accepted(true))
      <==>
        || ((phase.Looking? || phase.Inserting?) && p.eventId in s.db.receipts)
        || (phase.Found?
            && if Stale(s.db.tables, p, phase.present, oneStatement) then CreatesWith(p) && p.name.Some?
               else IndexRefuses(s.db.tables, p, s.transactions[pid].delivery.freshId))
  {
    hide Screen, Handled, IndexRefuses, ReceiptFor, Stale, CreatesWith, Held;
    var d := s.transactions[pid].delivery;
    if s.transactions[pid].phase.Found? {
      ClashIff(s.db.tables, Screen(d).value, d.now, d.freshId, s.transactions[pid].phase.present, oneStatement);
    }
  }

  // ---- two creations of one tenant ----

  lemma Snoc(start: Db, actions: seq<Action>, a: Action)
    ensures Run(Start(start), actions + [a]) == Step(Run(Start(start), actions), a)
  {
    hide Step;
    assert (actions + [a])[..|actions + [a]| - 1] == actions;
  }

  /** A delivery that would be accepted as the creation of a new tenant. */
  predicate NewTenant(db: Db, d: Delivery) {
    && Screen(d).Ok? && EventOf(d) !in db.receipts
    && Screen(d).value.event == "subscription.created" && CreatesWith(Screen(d).value) && Screen(d).value.name.Some?
    && Screen(d).value.code !in db.tables.tenants && !IndexRefuses(db.tables, Screen(d).value, d.freshId)
  }

  /** A transaction that runs up to its write finds what is there. */
  lemma RunsToFound(start: Db, actions: seq<Action>, pid: nat, d: Delivery) returns (longer: seq<Action>)
    requires
      var s := Run(Start(start), actions);
      && s.db == start && pid !in s.transactions && Screen(d).Ok? && EventOf(d) !in start.receipts && !Held(s, EventOf(d))
    ensures
      var s := Run(Start(start), actions);
      Run(Start(start), longer)
      == s.(transactions := s.transactions[pid := Transaction(d, Found(Screen(d).value.code in start.tables.tenants))])
  {
    hide Run, Screen;
    var s := Run(Start(start), actions);
    var a0 := actions + [Begin(pid, d)];
    Snoc(start, actions, Begin(pid, d));
    var a1 := a0 + [Advance(pid, false)];
    Snoc(start, a0, Advance(pid, false));
    assert Run(Start(start), a1) == s.(transactions := s.transactions[pid := Transaction(d, Inserting)]);
    var a2 := a1 + [Advance(pid, false)];
    Snoc(start, a1, Advance(pid, false));
    assert !Held(Run(Start(start), a1), EventOf(d));
    assert Run(Start(start), a2) == s.(transactions := s.transactions[pid := Transaction(d, Holding)]);
    Snoc(start, a2, Advance(pid, false));
    longer := a2 + [Advance(pid, false)];
  }

  lemma CreationSucceeds(t: Tables, p: Payload, now: int, freshId: string)
    requires p.event == "subscription.created" && CreatesWith(p) && p.name.Some? && !IndexRefuses(t, p, freshId)
    ensures ApplyEvent(t, p, now, freshId).Ok? && p.code in ApplyEvent(t, p, now, freshId).value.tenants
    ensures forall c | c in ApplyEvent(t, p, now, freshId).value.tenants && c != p.code ::
              c in t.tenants && ApplyEvent(t, p, now, freshId).value.tenants[c] == t.tenants[c]
  {
    hide EduplusIdTaken, IdTaken, IssuerOf;
  }

  /** Creating a tenant does not stand in the way of creating it again: the second time updates it. */
  lemma CreationCanBeRepeated(t: Tables, p: Payload, q: Payload, now: int, freshId: string, otherId: string)
    requires p.event == "subscription.created" && CreatesWith(p) && p.name.Some? && !IndexRefuses(t, p, freshId)
    requires q.code == p.code && q.tenantId == p.tenantId
    ensures ApplyEvent(t, p, now, freshId).Ok? && !IndexRefuses(ApplyEvent(t, p, now, freshId).value, q, otherId)
  {
    hide ApplyEvent, IdTaken;
    CreationSucceeds(t, p, now, freshId);
  }

  /**
   Exactly once is not at least once.  Two deliveries create one new tenant at the
   same time, in two statements each: the first is accepted, the second is
   answered duplicate:true although its event has no receipt and had no effect.
   One after the other, both are accepted.
   */
  lemma OverlappingCreationIsLost(start: Db, d: Delivery, e: Delivery) returns (actions: seq<Action>)
    requires NewTenant(start, d) && NewTenant(start, e) && EventOf(d) != EventOf(e)
    requires Screen(d).value.code == Screen(e).value.code && Screen(d).value.tenantId == Screen(e).value.tenantId
    ensures
      var t := Run(Start(start), actions);
      && t.transactions == map[0 := Transaction(d, Answered(Accepted(false))), 1 := Transaction(e, Answered(Accepted(true)))]
      && t.db == Receive(start, d).0 && EventOf(e) !in t.db.receipts
    ensures Receive(start, d).1 == Accepted(false) && Receive(Receive(start, d).0, e).1 == Accepted(false)
  {
    hide Run, Screen, ApplyEvent, IndexRefuses, Held, ReceiptFor, CreatesWith;
    NothingRun(start);
    var a0 := RunsToFound(start, [], 0, d);
    assert !Held(Run(Start(start), a0), EventOf(e)) by { OnlyHolder(Run(Start(start), a0), d, EventOf(e)); }
    var a1 := RunsToFound(start, a0, 1, e);
    var p, q := Screen(d).value, Screen(e).value;
    CreationSucceeds(start.tables, p, d.now, d.freshId);
    CreationCanBeRepeated(start.tables, p, q, d.now, d.freshId, e.freshId);
    Snoc(start, a1, Advance(0, false));
    var a2 := a1 + [Advance(0, false)];
    var after := Receive(start, d).0;
    CreationSucceeds(after.tables, q, e.now, e.freshId);
    assert Run(Start(start), a2).db == after;
    Snoc(start, a2, Advance(1, false));
    actions := a2 + [Advance(1, false)];
  }

  lemma NothingRun(start: Db)
    ensures Run(Start(start), []) == Start(start) && forall id: string :: !Held(Start(start), id)
  {
  }

  lemma OnlyHolder(s: State, d: Delivery, eventId: string)
    requires s.transactions.Keys == {0} && s.transactions[0].delivery == d && (Screen(d).Ok? ==> EventOf(d) != eventId)
    ensures !Held(s, eventId)
  {
    hide Screen;
  }
}
