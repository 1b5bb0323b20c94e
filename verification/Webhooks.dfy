/**
 Webhook deliveries: each event takes effect at most once, together with its
 receipt, and drives the state of tenants and OAuth credentials.
 */
module Webhooks {
  import opened Prelude

  datatype TenantStatus = Active | Suspended | Revoked

  datatype CredentialKind = OauthClientSecret | WebhookSecret

  datatype Tenant = Tenant(
    id: string, eduplusTenantId: Option<string>, name: string, issuerUrl: Option<string>,
    authorizationEndpoint: Option<string>, tokenEndpoint: Option<string>, jwksUri: Option<string>, status: TenantStatus)

  datatype Credential = Credential(clientId: string, secret: string, revokedAt: Option<int>)

  datatype Receipt = Receipt(eventName: string, body: string, tenantId: Option<string>)

  /** Tenants by their unique code, credentials by their unique (tenant id, kind). */
  datatype Tables = Tables(tenants: map<string, Tenant>, credentials: map<(string, CredentialKind), Credential>)

  datatype Db = Db(tables: Tables, receipts: map<string, Receipt>)

  datatype OauthClient = OauthClient(
    clientId: Option<string>, clientSecret: Option<string>, authServerUrl: Option<string>,
    authorizationEndpoint: Option<string>, tokenEndpoint: Option<string>, jwksUri: Option<string>)

  datatype RotatedCredential = RotatedCredential(clientId: Option<string>, newSecret: Option<string>)

  datatype Payload = Payload(
    event: string, eventId: string, tenantId: string, code: string, name: Option<string>,
    oauthClient: Option<OauthClient>, credential: Option<RotatedCredential>)

  /**
   One HTTP request: the event named in the signed header (None: the signature
   was refused), the parsed body (None: not JSON or a required member missing),
   the clock, and the id a new tenant would be given.
   */
  datatype Delivery = Delivery(header: Option<string>, payload: Option<Payload>, body: string, now: int, freshId: string)

  /** UniqueViolation is Prisma's P2002; Invalid a refused create. */
  datatype Error = Unsigned | BadRequest | NotFound | UniqueViolation | Invalid

  datatype Answer = Accepted(duplicate: bool) | Rejected(error: Error)

  // ---- applying one event ----

  function Truthy(s: Option<string>): bool {
    s.Some? && s.value != ""
  }

  function WithoutTrailingSlash(s: string): string {
    if s != "" && s[|s| - 1] == '/' then s[..|s| - 1] else s
  }

  /** An issuer is returned exactly when the endpoint is the issuer followed by the operation's path, up to one slash. */
  function IssuerFromEndpoint(endpoint: Option<string>, operation: string): (r: Option<string>)
    ensures r.Some? ==> Truthy(endpoint) && r.value + "/protocol/openid-connect/" + operation == WithoutTrailingSlash(endpoint.value)
    ensures r.None? && Truthy(endpoint) ==>
              forall issuer: string :: issuer + ("/protocol/openid-connect/" + operation) != WithoutTrailingSlash(endpoint.value)
  {
    if !Truthy(endpoint) then None
    else
      var suffix := "/protocol/openid-connect/" + operation;
      var normalized := WithoutTrailingSlash(endpoint.value);
      if |suffix| <= |normalized| && normalized[|normalized| - |suffix|..] == suffix
      then
        assert normalized[..|normalized| - |suffix|] + "/protocol/openid-connect/" + operation == normalized;
        Some(normalized[..|normalized| - |suffix|])
      else
        assert forall issuer: string :: (issuer + suffix)[|issuer|..] == suffix;
        None
  }

  function IssuerOf(o: OauthClient): Option<string> {
    IssuerFromEndpoint(o.tokenEndpoint, "token")
    .OrElse(IssuerFromEndpoint(o.jwksUri, "certs"))
    .OrElse(IssuerFromEndpoint(o.authorizationEndpoint, "auth"))
    .OrElse(o.authServerUrl)
  }

  predicate EduplusIdTaken(tenants: map<string, Tenant>, code: string, eduplusTenantId: string) {
    exists c :: c in tenants && c != code && tenants[c].eduplusTenantId == Some(eduplusTenantId)
  }

  predicate IdTaken(tenants: map<string, Tenant>, id: string) {
    exists c :: c in tenants && tenants[c].id == id
  }

  /** An undefined member is written as null by create and left alone by update. */
  function UpsertTenant(tenants: map<string, Tenant>, p: Payload, o: OauthClient, freshId: string): Result<map<string, Tenant>, Error> {
    if p.code in tenants then
      if EduplusIdTaken(tenants, p.code, p.tenantId) then Err(UniqueViolation)
      else
        var stored := tenants[p.code];
        Ok(tenants[p.code := Tenant(stored.id, Some(p.tenantId), p.name.GetOr(stored.name), IssuerOf(o).OrElse(stored.issuerUrl),
                                    o.authorizationEndpoint.OrElse(stored.authorizationEndpoint),
                                    o.tokenEndpoint.OrElse(stored.tokenEndpoint), o.jwksUri.OrElse(stored.jwksUri), Active)])
    else if p.name.None? then Err(Invalid)
    else if EduplusIdTaken(tenants, p.code, p.tenantId) || IdTaken(tenants, freshId) then Err(UniqueViolation)
    else Ok(tenants[p.code := Tenant(freshId, Some(p.tenantId), p.name.value, IssuerOf(o),
                                     o.authorizationEndpoint, o.tokenEndpoint, o.jwksUri, Active)])
  }

  function SaveOauthCredential(t: Tables, tenantId: string, clientId: string, secret: string): Tables {
    t.(credentials := t.credentials[(tenantId, OauthClientSecret) := Credential(clientId, secret, None)])
  }

  function SetStatus(t: Tables, code: string, status: TenantStatus): Tables
    requires code in t.tenants
  {
    t.(tenants := t.tenants[code := t.tenants[code].(status := status)])
  }

  function RevokeCredential(t: Tables, tenantId: string, c: Option<RotatedCredential>, now: int): Tables {
    var k := (tenantId, OauthClientSecret);
    if k in t.credentials && (c.Some? && Truthy(c.value.clientId) ==> t.credentials[k].clientId == c.value.clientId.value)
    then t.(credentials := t.credentials[k := t.credentials[k].(revokedAt := Some(now))])
    else t
  }

  function ApplyCreated(t: Tables, p: Payload, freshId: string): Result<Tables, Error> {
    if p.oauthClient.None? || !Truthy(p.oauthClient.value.clientId) || !Truthy(p.oauthClient.value.clientSecret) then Err(BadRequest)
    else
      var o := p.oauthClient.value;
      match UpsertTenant(t.tenants, p, o, freshId)
      case Err(e) => Err(e)
      case Ok(tenants) =>
        if p.code !in tenants then Err(Invalid)
        else Ok(SaveOauthCredential(t.(tenants := tenants), tenants[p.code].id, o.clientId.value, o.clientSecret.value))
  }

  /** The status an event gives its tenant, if it is a status event. */
  function StatusOf(event: string): Option<TenantStatus> {
    if event == "subscription.created" || event == "subscription.reactivated" then Some(Active)
    else if event == "subscription.suspended" then Some(Suspended)
    else if event == "subscription.terminated" || event == "subscription.expired" then Some(TenantStatus.Revoked)
    else None
  }

  function ApplyEvent(t: Tables, p: Payload, now: int, freshId: string): Result<Tables, Error> {
    if p.event == "subscription.created" then ApplyCreated(t, p, freshId)
    else if p.code !in t.tenants then Err(NotFound)
    else if StatusOf(p.event).Some? then Ok(SetStatus(t, p.code, StatusOf(p.event).value))
    else if p.event == "credential.rotated" then
      if p.credential.None? || !Truthy(p.credential.value.clientId) || !Truthy(p.credential.value.newSecret) then Err(BadRequest)
      else Ok(SaveOauthCredential(t, t.tenants[p.code].id, p.credential.value.clientId.value, p.credential.value.newSecret.value))
    else if p.event == "credential.revoked" then Ok(RevokeCredential(t, t.tenants[p.code].id, p.credential, now))
    else Ok(t)
  }

  // ---- one delivery ----

  /** The checks before the transaction: signature, body, header against body. */
  function Screen(d: Delivery): Result<Payload, Error> {
    if d.header.None? then Err(Unsigned)
    else if d.payload.None? || d.payload.value.code == "" then Err(BadRequest)
    else if d.payload.value.event != d.header.value then Err(BadRequest)
    else Ok(d.payload.value)
  }

  function ReceiptFor(t: Tables, p: Payload, body: string): Receipt {
    Receipt(p.event, body, if p.code in t.tenants then Some(t.tenants[p.code].id) else None)
  }

  function Receive(db: Db, d: Delivery): (Db, Answer) {
    match Screen(d)
    case Err(e) => (db, Rejected(e))
    case Ok(p) =>
      if p.eventId in db.receipts then (db, Accepted(true))
      else
        match ApplyEvent(db.tables, p, d.now, d.freshId)
        case Err(UniqueViolation) => (db, Accepted(true))
        case Err(e) => (db, Rejected(e))
        case Ok(tables) => (Db(tables, db.receipts[p.eventId := ReceiptFor(tables, p, d.body)]), Accepted(false))
  }

  class SubscriptionsService {
    var tenants: map<string, Tenant>
    var credentials: map<(string, CredentialKind), Credential>
    var receipts: map<string, Receipt>

    function Contents(): Db
      reads this
    {
      Db(Tables(tenants, credentials), receipts)
    }

    /** The upsert by code: a created row gets every member, an updated one only those that are given. */
    method UpsertTenantRow(p: Payload, o: OauthClient, freshId: string) returns (r: Result<Tenant, Error>)
      modifies this`tenants
      ensures
        match UpsertTenant(old(tenants), p, o, freshId)
        case Err(e) => r == Err(e) && tenants == old(tenants)
        case Ok(after) => tenants == after && p.code in after && r == Ok(after[p.code])
    {
      hide IssuerOf, EduplusIdTaken, IdTaken;
      var issuerUrl := IssuerOf(o);
      var row: Tenant;
      if p.code in tenants {
        row := tenants[p.code].(eduplusTenantId := Some(p.tenantId), status := Active);
        if p.name.Some? { row := row.(name := p.name.value); }
        if issuerUrl.Some? { row := row.(issuerUrl := issuerUrl); }
        if o.authorizationEndpoint.Some? { row := row.(authorizationEndpoint := o.authorizationEndpoint); }
        if o.tokenEndpoint.Some? { row := row.(tokenEndpoint := o.tokenEndpoint); }
        if o.jwksUri.Some? { row := row.(jwksUri := o.jwksUri); }
      } else {
        if p.name.None? { return Err(Invalid); }
        if IdTaken(tenants, freshId) { return Err(UniqueViolation); }
        row := Tenant(freshId, Some(p.tenantId), p.name.value, issuerUrl, o.authorizationEndpoint, o.tokenEndpoint, o.jwksUri, Active);
      }
      if EduplusIdTaken(tenants, p.code, p.tenantId) { return Err(UniqueViolation); }
      tenants := tenants[p.code := row];
      return Ok(row);
    }

    method SaveOauthCredentialRow(tenantId: string, clientId: string, secret: string)
      modifies this`credentials
      ensures credentials == old(credentials)[(tenantId, OauthClientSecret) := Credential(clientId, secret, None)]
    {
      var k := (tenantId, OauthClientSecret);
      var row := Credential(clientId, secret, None);
      if k in credentials { row := credentials[k].(clientId := clientId, secret := secret, revokedAt := None); }
      credentials := credentials[k := row];
    }

    /** The event handler; returns the id of the tenant concerned. */
    method ApplyEventRows(p: Payload, now: int, freshId: string) returns (r: Result<string, Error>)
      modifies this`tenants, this`credentials
      ensures
        match ApplyEvent(Tables(old(tenants), old(credentials)), p, now, freshId)
        case Err(e) => r == Err(e)
        case Ok(after) => Tables(tenants, credentials) == after && p.code in tenants && r == Ok(tenants[p.code].id)
    {
      hide UpsertTenant;
      if p.event == "subscription.created" {
        if p.oauthClient.None? || !Truthy(p.oauthClient.value.clientId) || !Truthy(p.oauthClient.value.clientSecret) {
          return Err(BadRequest);
        }
        var oauth := p.oauthClient.value;
        var upserted := UpsertTenantRow(p, oauth, freshId);
        if upserted.Err? { return Err(upserted.error); }
        SaveOauthCredentialRow(upserted.value.id, oauth.clientId.value, oauth.clientSecret.value);
        return Ok(upserted.value.id);
      }
      if p.code !in tenants { return Err(NotFound); }
      var tenant := tenants[p.code];
      if p.event == "subscription.suspended" {
        tenants := tenants[p.code := tenant.(status := Suspended)];
      } else if p.event == "subscription.reactivated" {
        tenants := tenants[p.code := tenant.(status := Active)];
      } else if p.event in {"subscription.terminated", "subscription.expired"} {
        tenants := tenants[p.code := tenant.(status := TenantStatus.Revoked)];
      }
      if p.event == "credential.rotated" {
        if p.credential.None? || !Truthy(p.credential.value.clientId) || !Truthy(p.credential.value.newSecret) { return Err(BadRequest); }
        SaveOauthCredentialRow(tenant.id, p.credential.value.clientId.value, p.credential.value.newSecret.value);
      }
      if p.event == "credential.revoked" {
        var k := (tenant.id, OauthClientSecret);
        var anyClient := p.credential.None? || !Truthy(p.credential.value.clientId);
        if k in credentials && (anyClient || credentials[k].clientId == p.credential.value.clientId.value) {
          credentials := credentials[k := credentials[k].(revokedAt := Some(now))];
        }
      }
      return Ok(tenant.id);
    }

    /** The transaction body; an error leaves partial writes for the caller to roll back. */
    method ReceiveInTransaction(p: Payload, d: Delivery) returns (r: Result<Answer, Error>)
      modifies this
      ensures p.eventId in old(receipts) ==> r == Ok(Accepted(true)) && Contents() == old(Contents())
      ensures p.eventId !in old(receipts) ==>
                match ApplyEvent(Tables(old(tenants), old(credentials)), p, d.now, d.freshId)
                case Err(e) => r == Err(e)
                case Ok(tables) => r == Ok(Accepted(false))
                                   && Contents() == Db(tables, old(receipts)[p.eventId := ReceiptFor(tables, p, d.body)])
    {
      hide ApplyEvent;
      if p.eventId in receipts { return Ok(Accepted(true)); }
      receipts := receipts[p.eventId := Receipt(p.event, d.body, None)];
      var applied := ApplyEventRows(p, d.now, d.freshId);
      if applied.Err? { return Err(applied.error); }
      receipts := receipts[p.eventId := receipts[p.eventId].(tenantId := Some(applied.value))];
      return Ok(Accepted(false));
    }

    method Deliver(d: Delivery) returns (answer: Answer)
      modifies this
      ensures (Contents(), answer) == Receive(old(Contents()), d)
    {
      var screened := Screen(d);
      if screened.Err? { return Rejected(screened.error); }
      var tenantsBefore, credentialsBefore, receiptsBefore := tenants, credentials, receipts;
      var r := ReceiveInTransaction(screened.value, d);
      if r.Err? {
        tenants, credentials, receipts := tenantsBefore, credentialsBefore, receiptsBefore;
        return if r.error == UniqueViolation then Accepted(true) else Rejected(r.error);
      }
      answer := r.value;
    }
  }

  // ---- any sequence of deliveries ----

  function Process(db: Db, ds: seq<Delivery>): Db {
    if ds == [] then db else Receive(Process(db, ds[..|ds| - 1]), ds[|ds| - 1]).0
  }

  /** The deliveries answered duplicate:false, in order. */
  function Effective(db: Db, ds: seq<Delivery>): seq<Delivery> {
    if ds == [] then []
    else
      var before := ds[..|ds| - 1];
      Effective(db, before)
      + if Receive(Process(db, before), ds[|ds| - 1]).1 == Accepted(false) then [ds[|ds| - 1]] else []
  }

  /** The fold of applyEvent; None if some event fails. */
  function ApplyAll(t: Tables, ds: seq<Delivery>): Option<Tables> {
    if ds == [] then Some(t)
    else
      match ApplyAll(t, ds[..|ds| - 1])
      case None => None
      case Some(before) =>
        var d := ds[|ds| - 1];
        if d.payload.None? then None
        else match ApplyEvent(before, d.payload.value, d.now, d.freshId)
             case Err(_) => None
             case Ok(after) => Some(after)
  }

  function EventIds(ds: seq<Delivery>): seq<string> {
    seq(|ds|, i requires 0 <= i < |ds| => if ds[i].payload.Some? then ds[i].payload.value.eventId else "")
  }

  /** A delivery that is not answered duplicate:false leaves the database exactly as it was. */
  lemma OtherAnswersChangeNothing(db: Db, d: Delivery)
    ensures Receive(db, d).1 != Accepted(false) ==> Receive(db, d).0 == db
  {
    hide ApplyEvent;
  }

  function IdSet(ds: seq<Delivery>): set<string> {
    set i | 0 <= i < |ds| :: EventIds(ds)[i]
  }

  predicate DistinctEvents(ds: seq<Delivery>) {
    forall i, j | 0 <= i < j < |ds| :: EventIds(ds)[i] != EventIds(ds)[j]
  }

  lemma IdsAppend(done: seq<Delivery>, d: Delivery)
    requires d.payload.Some?
    ensures IdSet(done + [d]) == IdSet(done) + {d.payload.value.eventId}
    ensures DistinctEvents(done) && d.payload.value.eventId !in IdSet(done) ==> DistinctEvents(done + [d])
  {
    var all := done + [d];
    assert EventIds(all)[|done|] == d.payload.value.eventId;
    assert forall i | 0 <= i < |done| :: EventIds(all)[i] == EventIds(done)[i];
    forall x ensures x in IdSet(all) <==> x in IdSet(done) + {d.payload.value.eventId} {
      if x in IdSet(done) {
        var i :| 0 <= i < |done| && EventIds(done)[i] == x;
        assert EventIds(all)[i] == x;
      }
    }
    assert forall i | 0 <= i < |done| :: EventIds(done)[i] in IdSet(done);
  }

  lemma RunSnoc(db: Db, before: seq<Delivery>, d: Delivery)
    ensures Process(db, before + [d]) == Receive(Process(db, before), d).0
    ensures Effective(db, before + [d])
         == if Receive(Process(db, before), d).1 == Accepted(false) then Effective(db, before) + [d] else Effective(db, before)
  {
    hide Receive;
    assert (before + [d])[..|before|] == before;
  }

  lemma ApplyAllSnoc(t: Tables, done: seq<Delivery>, d: Delivery, after: Tables)
    requires ApplyAll(t, done).Some? && d.payload.Some?
    requires ApplyEvent(ApplyAll(t, done).value, d.payload.value, d.now, d.freshId) == Ok(after)
    ensures ApplyAll(t, done + [d]) == Some(after)
  {
    hide ApplyEvent;
    assert (done + [d])[..|done|] == done;
  }

  predicate ExactlyOnce(db: Db, done: seq<Delivery>, after: Db) {
    && ApplyAll(db.tables, done) == Some(after.tables)
    && DistinctEvents(done)
    && IdSet(done) !! db.receipts.Keys
    && after.receipts.Keys == db.receipts.Keys + IdSet(done)
  }

  lemma ExactlyOnceStep(db: Db, done: seq<Delivery>, now: Db, d: Delivery)
    requires ExactlyOnce(db, done, now) && Receive(now, d).1 == Accepted(false)
    ensures ExactlyOnce(db, done + [d], Receive(now, d).0)
  {
    hide ApplyAll, Receive, DistinctEvents, IdSet, ApplyEvent;
    EffectiveStep(now, d);
    var id := d.payload.value.eventId;
    assert id !in IdSet(done) && id !in db.receipts.Keys;
    IdsAppend(done, d);
    ApplyAllSnoc(db.tables, done, d, Receive(now, d).0.tables);
  }

  lemma ExactlyOnceStart(db: Db)
    ensures ExactlyOnce(db, [], db)
  {
    NoEvents();
  }

  lemma {:induction false} ExactlyOnceHolds(db: Db, ds: seq<Delivery>)
    ensures ExactlyOnce(db, Effective(db, ds), Process(db, ds))
  {
    hide ExactlyOnce, Receive;
    if ds == [] {
      ExactlyOnceStart(db);
    } else {
      hide Effective, Process;
      var before, d := ds[..|ds| - 1], ds[|ds| - 1];
      ExactlyOnceHolds(db, before);
      assert ds == before + [d];
      RunSnoc(db, before, d);
      var done, now := Effective(db, before), Process(db, before);
      if Receive(now, d).1 == Accepted(false) {
        ExactlyOnceStep(db, done, now, d);
      } else {
        OtherAnswersChangeNothing(now, d);
      }
    }
  }

  /**
   Exactly once.  The state is the fold of applyEvent over the deliveries
   answered duplicate:false; their event ids are new and all different, and the
   receipts are exactly those that were there before plus theirs.
   */
  lemma EffectsAreExactlyOnce(db: Db, ds: seq<Delivery>)
    ensures
      var done := Effective(db, ds);
      var after := Process(db, ds);
      && ApplyAll(db.tables, done) == Some(after.tables)
      && DistinctEvents(done)
      && IdSet(done) !! db.receipts.Keys
      && after.receipts.Keys == db.receipts.Keys + IdSet(done)
  {
    hide ApplyAll, Receive, DistinctEvents, IdSet, Effective, Process;
    ExactlyOnceHolds(db, ds);
  }

  lemma NoEvents()
    ensures IdSet([]) == {} && DistinctEvents([])
  {
  }

  lemma EffectiveStep(db: Db, d: Delivery)
    requires Receive(db, d).1 == Accepted(false)
    ensures d.payload.Some? && d.payload.value.eventId !in db.receipts
    ensures ApplyEvent(db.tables, d.payload.value, d.now, d.freshId) == Ok(Receive(db, d).0.tables)
    ensures Receive(db, d).0.receipts.Keys == db.receipts.Keys + {d.payload.value.eventId}
  {
    hide ApplyEvent, ReceiptFor;
  }

  /** Receipts are never lost. */
  lemma {:induction false} ReceiptsStay(db: Db, ds: seq<Delivery>, eventId: string)
    requires eventId in db.receipts
    ensures eventId in Process(db, ds).receipts
  {
    hide ApplyEvent, Screen, ReceiptFor;
    if ds != [] { ReceiptsStay(db, ds[..|ds| - 1], eventId); }
  }

  lemma {:induction false} ProcessAppend(db: Db, a: seq<Delivery>, b: seq<Delivery>)
    ensures Process(db, a + b) == Process(Process(db, a), b)
    decreases |b|
  {
    hide Receive;
    if b == [] {
      assert a + b == a;
    } else {
      ProcessAppend(db, a, b[..|b| - 1]);
      assert (a + b)[..|a + b| - 1] == a + b[..|b| - 1];
    }
  }

  /** A redelivery of an event that has its receipt is answered duplicate:true and could as well not have come, whatever follows. */
  lemma RedeliveryIsHarmless(db: Db, before: seq<Delivery>, d: Delivery, after: seq<Delivery>)
    requires Screen(d).Ok? && Screen(d).value.eventId in Process(db, before).receipts
    ensures Receive(Process(db, before), d).1 == Accepted(true)
    ensures Process(db, before + [d] + after) == Process(db, before + after)
  {
    hide Screen, ApplyEvent;
    ProcessAppend(db, before, after);
    ProcessAppend(db, before + [d], after);
    assert (before + [d])[..|before + [d]| - 1] == before;
  }

  /**
   A tenant creation whose members are in order but whose EduPlus id another
   tenant has, or whose new row is given an id that is taken.
   */
  predicate IndexRefuses(t: Tables, p: Payload, freshId: string) {
    && p.event == "subscription.created"
    && p.oauthClient.Some? && Truthy(p.oauthClient.value.clientId) && Truthy(p.oauthClient.value.clientSecret)
    && (p.code in t.tenants || p.name.Some?)
    && (EduplusIdTaken(t.tenants, p.code, p.tenantId) || (p.code !in t.tenants && IdTaken(t.tenants, freshId)))
  }

  /** An event meets a unique index exactly then. */
  lemma UniqueViolationIff(t: Tables, p: Payload, now: int, freshId: string)
    ensures ApplyEvent(t, p, now, freshId) == Err(UniqueViolation) <==> IndexRefuses(t, p, freshId)
  {
    hide EduplusIdTaken, IdTaken, IssuerOf, Truthy;
  }

  /** duplicate:true means exactly that the receipt is there, or that a tenant creation was refused by a unique index. */
  lemma DuplicateIff(db: Db, d: Delivery)
    ensures Receive(db, d).1 == Accepted(true)
       <==> Screen(d).Ok? && (Screen(d).value.eventId in db.receipts || IndexRefuses(db.tables, Screen(d).value, d.freshId))
  {
    hide Screen, ApplyEvent, IndexRefuses;
    if Screen(d).Ok? { UniqueViolationIff(db.tables, Screen(d).value, d.now, d.freshId); }
  }

  /** So duplicate:true does not mean that the event ever took effect: the EduPlus id of another tenant is enough. */
  lemma DuplicateWithoutReceipt(owner: Tenant, eventId: string)
    requires owner.eduplusTenantId == Some("7")
    ensures
      var db := Db(Tables(map["a" := owner], map[]), map[]);
      var o := OauthClient(Some("client"), Some("secret"), None, None, None, None);
      var d := Delivery(Some("subscription.created"), Some(Payload("subscription.created", eventId, "7", "b", Some("B"), Some(o), None)), "", 0, "id");
      Receive(db, d) == (db, Accepted(true)) && eventId !in db.receipts
  {
    hide Receive, ApplyEvent;
    var tenants := map["a" := owner];
    var db := Db(Tables(tenants, map[]), map[]);
    var o := OauthClient(Some("client"), Some("secret"), None, None, None, None);
    var p := Payload("subscription.created", eventId, "7", "b", Some("B"), Some(o), None);
    var d := Delivery(Some("subscription.created"), Some(p), "", 0, "id");
    assert "a" in tenants && tenants["a"].eduplusTenantId == Some("7");
    assert EduplusIdTaken(tenants, "b", "7");
    DuplicateIff(db, d);
    OtherAnswersChangeNothing(db, d);
  }

  // ---- what the state means ----

  /** The status of the last accepted status event for a tenant code, or what it was. */
  function LastStatus(done: seq<Delivery>, code: string, start: Option<TenantStatus>): Option<TenantStatus> {
    if done == [] then start
    else
      var d := done[|done| - 1];
      if d.payload.Some? && d.payload.value.code == code && StatusOf(d.payload.value.event).Some?
      then StatusOf(d.payload.value.event)
      else LastStatus(done[..|done| - 1], code, start)
  }

  function CurrentStatus(t: Tables, code: string): Option<TenantStatus> {
    if code in t.tenants then Some(t.tenants[code].status) else None
  }

  lemma ApplyEventStatus(t: Tables, p: Payload, now: int, freshId: string, code: string)
    requires ApplyEvent(t, p, now, freshId).Ok?
    ensures CurrentStatus(ApplyEvent(t, p, now, freshId).value, code)
         == if p.code == code && StatusOf(p.event).Some? then StatusOf(p.event) else CurrentStatus(t, code)
  {
    hide IssuerOf, Truthy, EduplusIdTaken, IdTaken;
  }

  /** A tenant's status is the one set by the last accepted status event for its code. */
  lemma {:induction false} StatusFollowsLastEvent(db: Db, ds: seq<Delivery>, code: string)
    ensures CurrentStatus(Process(db, ds).tables, code) == LastStatus(Effective(db, ds), code, CurrentStatus(db.tables, code))
  {
    hide ApplyEvent, Screen, ReceiptFor, StatusOf, CurrentStatus;
    if ds != [] {
      var before, d := ds[..|ds| - 1], ds[|ds| - 1];
      StatusFollowsLastEvent(db, before, code);
      if Receive(Process(db, before), d).1 == Accepted(false) {
        EffectiveStep(Process(db, before), d);
        ApplyEventStatus(Process(db, before).tables, d.payload.value, d.now, d.freshId, code);
        var done := Effective(db, before) + [d];
        assert done[..|done| - 1] == Effective(db, before);
      } else {
        OtherAnswersChangeNothing(Process(db, before), d);
        assert Effective(db, ds) == Effective(db, before);
      }
    }
  }

  /** The two unique columns of the tenant table besides its code. */
  predicate UniqueTenants(tenants: map<string, Tenant>) {
    forall a, b | a in tenants && b in tenants && a != b ::
      tenants[a].id != tenants[b].id
      && (tenants[a].eduplusTenantId.Some? ==> tenants[a].eduplusTenantId != tenants[b].eduplusTenantId)
  }

  lemma UpsertKeepsUnique(tenants: map<string, Tenant>, p: Payload, o: OauthClient, freshId: string)
    requires UniqueTenants(tenants) && UpsertTenant(tenants, p, o, freshId).Ok?
    ensures UniqueTenants(UpsertTenant(tenants, p, o, freshId).value)
  {
    hide IssuerOf;
    var after := UpsertTenant(tenants, p, o, freshId).value;
    forall a, b | a in after && b in after && a != b
      ensures after[a].id != after[b].id
           && (after[a].eduplusTenantId.Some? ==> after[a].eduplusTenantId != after[b].eduplusTenantId)
    {
      if a != p.code && b != p.code { assert tenants[a].id != tenants[b].id; }
    }
  }

  lemma ApplyKeepsUnique(t: Tables, p: Payload, now: int, freshId: string)
    requires UniqueTenants(t.tenants) && ApplyEvent(t, p, now, freshId).Ok?
    ensures UniqueTenants(ApplyEvent(t, p, now, freshId).value.tenants)
  {
    hide IssuerOf, EduplusIdTaken, IdTaken;
    if p.event == "subscription.created" {
      hide UpsertTenant, UniqueTenants;
      UpsertKeepsUnique(t.tenants, p, p.oauthClient.value, freshId);
    }
  }

  lemma {:induction false} TenantsStayUnique(db: Db, ds: seq<Delivery>)
    requires UniqueTenants(db.tables.tenants)
    ensures UniqueTenants(Process(db, ds).tables.tenants)
  {
    hide ApplyEvent, UniqueTenants, Screen, ReceiptFor;
    if ds != [] {
      var before, d := ds[..|ds| - 1], ds[|ds| - 1];
      TenantsStayUnique(db, before);
      if Receive(Process(db, before), d).1 == Accepted(false) {
        EffectiveStep(Process(db, before), d);
        ApplyKeepsUnique(Process(db, before).tables, d.payload.value, d.now, d.freshId);
      } else {
        OtherAnswersChangeNothing(Process(db, before), d);
      }
    }
  }

  /** An event never touches another tenant's row, its credential, or any webhook secret. */
  lemma OtherTenantsUntouched(t: Tables, p: Payload, now: int, freshId: string, other: string)
    requires UniqueTenants(t.tenants) && ApplyEvent(t, p, now, freshId).Ok? && other in t.tenants && other != p.code
    ensures
      var after := ApplyEvent(t, p, now, freshId).value;
      var k := (t.tenants[other].id, OauthClientSecret);
      && other in after.tenants && after.tenants[other] == t.tenants[other]
      && (k in after.credentials <==> k in t.credentials) && (k in t.credentials ==> after.credentials[k] == t.credentials[k])
      && (forall id :: ((id, WebhookSecret) in after.credentials <==> (id, WebhookSecret) in t.credentials)
                    && ((id, WebhookSecret) in t.credentials ==> after.credentials[(id, WebhookSecret)] == t.credentials[(id, WebhookSecret)]))
  {
    hide IssuerOf, Truthy, StatusOf;
  }

  /** After credential.rotated the tenant has the new secret, unrevoked; after credential.revoked for that client it has it revoked. */
  lemma RotateThenRevoke(t: Tables, rotate: Payload, revoke: Payload, now: int, later: int, a: string, b: string)
    requires rotate.event == "credential.rotated" && revoke.event == "credential.revoked" && revoke.code == rotate.code
    requires ApplyEvent(t, rotate, now, a).Ok?
    requires revoke.credential.Some? ==> revoke.credential.value.clientId == rotate.credential.value.clientId
    ensures
      var rotated := ApplyEvent(t, rotate, now, a).value;
      var k := (t.tenants[rotate.code].id, OauthClientSecret);
      && k in rotated.credentials
      && rotated.credentials[k] == Credential(rotate.credential.value.clientId.value, rotate.credential.value.newSecret.value, None)
      && ApplyEvent(rotated, revoke, later, b)
         == Ok(rotated.(credentials := rotated.credentials[k := rotated.credentials[k].(revokedAt := Some(later))]))
  {
  }
}
