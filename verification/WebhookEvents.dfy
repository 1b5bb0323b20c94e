/** Event by event, what an accepted delivery does to the tables and why others are refused. */
module WebhookEvents {
  import opened Prelude
  import opened Webhooks

  // ---- subscription.created ----

  predicate Given(text: Option<string>) {
    match text
    case None => false
    case Some(t) => |t| > 0
  }

  predicate HasCredentials(p: Payload) {
    p.oauthClient.Some? && Given(p.oauthClient.value.clientId) && Given(p.oauthClient.value.clientSecret)
  }

  /** Another tenant has the EduPlus id, or the new row's id is in use. */
  predicate Clashes(t: Tables, p: Payload, freshId: string) {
    || (exists c :: c in t.tenants && c != p.code && t.tenants[c].eduplusTenantId == Some(p.tenantId))
    || (p.code !in t.tenants && exists c :: c in t.tenants && t.tenants[c].id == freshId)
  }

  /** A member that is sent wins over the one stored. */
  predicate Overrides<T(==)>(after: Option<T>, sent: Option<T>, stored: Option<T>) {
    after == match sent case Some(v) => Some(v) case None => stored
  }

  /** The issuer is cut from the token endpoint, else the key set, else the authorization endpoint, else taken as sent. */
  predicate IssuerIs(issuer: Option<string>, o: OauthClient) {
    var token, keys, login := IssuerFromEndpoint(o.tokenEndpoint, "token"), IssuerFromEndpoint(o.jwksUri, "certs"),
                              IssuerFromEndpoint(o.authorizationEndpoint, "auth");
    && (token.Some? ==> issuer == token)
    && (token.None? && keys.Some? ==> issuer == keys)
    && (token.None? && keys.None? && login.Some? ==> issuer == login)
    && (token.None? && keys.None? && login.None? ==> issuer == o.authServerUrl)
  }

  /** The tenant row after a creation: members sent, and for a known tenant the stored ones where nothing was sent. */
  ghost predicate CreatedRow(t: Tables, p: Payload, freshId: string, row: Tenant)
    requires HasCredentials(p) && (p.code in t.tenants || p.name.Some?)
  {
    var o, known := p.oauthClient.value, p.code in t.tenants;
    && row.id == (if known then t.tenants[p.code].id else freshId)
    && row.eduplusTenantId == Some(p.tenantId) && row.status == Active
    && row.name == (if p.name.Some? then p.name.value else t.tenants[p.code].name)
    && (exists issuer :: IssuerIs(issuer, o) && Overrides(row.issuerUrl, issuer, if known then t.tenants[p.code].issuerUrl else None))
    && Overrides(row.authorizationEndpoint, o.authorizationEndpoint, if known then t.tenants[p.code].authorizationEndpoint else None)
    && Overrides(row.tokenEndpoint, o.tokenEndpoint, if known then t.tenants[p.code].tokenEndpoint else None)
    && Overrides(row.jwksUri, o.jwksUri, if known then t.tenants[p.code].jwksUri else None)
  }

  /** An issuer is what stands before the path of the operation, which may end in one slash. */
  lemma IssuerIsCut(endpoint: string, operation: string, issuer: string)
    requires operation != "" && operation[|operation| - 1] != '/'
    ensures IssuerFromEndpoint(Some(endpoint), operation) == Some(issuer)
       <==> endpoint == issuer + "/protocol/openid-connect/" + operation || endpoint == issuer + "/protocol/openid-connect/" + operation + "/"
  {
    hide IssuerFromEndpoint;
    var path := "/protocol/openid-connect/" + operation;
    var cut := WithoutTrailingSlash(endpoint);
    assert issuer + "/protocol/openid-connect/" + operation == issuer + path;
    CutIs(endpoint, issuer + path);
    var r := IssuerFromEndpoint(Some(endpoint), operation);
    if r.Some? {
      assert r.value + "/protocol/openid-connect/" + operation == r.value + path;
      if cut == issuer + path {
        assert |r.value| == |issuer|;
        assert (r.value + path)[..|issuer|] == r.value && (issuer + path)[..|issuer|] == issuer;
      }
    }
  }

  lemma CutIs(endpoint: string, text: string)
    requires text != "" && text[|text| - 1] != '/'
    ensures WithoutTrailingSlash(endpoint) == text <==> endpoint == text || endpoint == text + "/"
  {
    if endpoint != "" && endpoint[|endpoint| - 1] == '/' { assert endpoint == endpoint[..|endpoint| - 1] + "/"; }
  }

  lemma IssuerPrecedence(o: OauthClient)
    ensures IssuerIs(IssuerOf(o), o)
  {
    hide IssuerFromEndpoint;
  }

  /** A creation succeeds exactly with credentials, for a known tenant or with a name, without a clash; and each refusal has its cause. */
  lemma CreationIs(t: Tables, p: Payload, now: int, freshId: string)
    requires p.event == "subscription.created"
    ensures
      var r := ApplyEvent(t, p, now, freshId);
      && (r == Err(BadRequest) <==> !HasCredentials(p))
      && (r == Err(Invalid) <==> HasCredentials(p) && p.code !in t.tenants && p.name.None?)
      && (r == Err(UniqueViolation) <==> HasCredentials(p) && (p.code in t.tenants || p.name.Some?) && Clashes(t, p, freshId))
      && (r.Ok? <==> HasCredentials(p) && (p.code in t.tenants || p.name.Some?) && !Clashes(t, p, freshId))
      && (r.Ok? ==>
            && p.code in r.value.tenants && CreatedRow(t, p, freshId, r.value.tenants[p.code])
            && r.value.tenants == t.tenants[p.code := r.value.tenants[p.code]]
            && r.value.credentials
               == t.credentials[(r.value.tenants[p.code].id, OauthClientSecret) :=
                                  Credential(p.oauthClient.value.clientId.value, p.oauthClient.value.clientSecret.value, None)])
  {
    hide IssuerOf, IssuerIs;
    if HasCredentials(p) { IssuerPrecedence(p.oauthClient.value); }
  }

  // ---- the other events ----

  /** Every other event is about a tenant that is there. */
  lemma UnknownTenant(t: Tables, p: Payload, now: int, freshId: string)
    requires p.event != "subscription.created"
    ensures ApplyEvent(t, p, now, freshId) == Err(NotFound) <==> p.code !in t.tenants
  {
  }

  lemma SuspensionIs(t: Tables, p: Payload, now: int, freshId: string)
    requires p.event == "subscription.suspended" && p.code in t.tenants
    ensures ApplyEvent(t, p, now, freshId) == Ok(t.(tenants := t.tenants[p.code := t.tenants[p.code].(status := Suspended)]))
  {
  }

  lemma ReactivationIs(t: Tables, p: Payload, now: int, freshId: string)
    requires p.event == "subscription.reactivated" && p.code in t.tenants
    ensures ApplyEvent(t, p, now, freshId) == Ok(t.(tenants := t.tenants[p.code := t.tenants[p.code].(status := Active)]))
  {
  }

  lemma TerminationIs(t: Tables, p: Payload, now: int, freshId: string)
    requires (p.event == "subscription.terminated" || p.event == "subscription.expired") && p.code in t.tenants
    ensures ApplyEvent(t, p, now, freshId) == Ok(t.(tenants := t.tenants[p.code := t.tenants[p.code].(status := TenantStatus.Revoked)]))
  {
  }

  lemma RotationIs(t: Tables, p: Payload, now: int, freshId: string)
    requires p.event == "credential.rotated" && p.code in t.tenants
    ensures
      var complete := p.credential.Some? && Given(p.credential.value.clientId) && Given(p.credential.value.newSecret);
      ApplyEvent(t, p, now, freshId)
      == if complete
         then Ok(t.(credentials := t.credentials[(t.tenants[p.code].id, OauthClientSecret) :=
                                                   Credential(p.credential.value.clientId.value, p.credential.value.newSecret.value, None)]))
         else Err(BadRequest)
  {
  }

  /** A revocation stamps the tenant's client secret, of whatever client if the event names none, and otherwise of that client only. */
  lemma RevocationIs(t: Tables, p: Payload, now: int, freshId: string)
    requires p.event == "credential.revoked" && p.code in t.tenants
    ensures
      var k := (t.tenants[p.code].id, OauthClientSecret);
      var meant := k in t.credentials
                   && (p.credential.Some? && Given(p.credential.value.clientId) ==> p.credential.value.clientId == Some(t.credentials[k].clientId));
      ApplyEvent(t, p, now, freshId)
      == if meant then Ok(t.(credentials := t.credentials[k := t.credentials[k].(revokedAt := Some(now))])) else Ok(t)
  {
  }

  predicate Named(event: string) {
    event in {"subscription.created", "subscription.suspended", "subscription.reactivated", "subscription.terminated", "subscription.expired",
              "credential.rotated", "credential.revoked"}
  }

  /** An event of any other name is accepted for a known tenant and changes neither tenants nor credentials. */
  lemma OtherEventsDoNothing(t: Tables, p: Payload, now: int, freshId: string)
    requires !Named(p.event) && p.code in t.tenants
    ensures ApplyEvent(t, p, now, freshId) == Ok(t)
  {
  }

  // ---- one delivery ----

  /** The refusals before the transaction, in order: signature, body and tenant code, then header against body. */
  lemma Refusals(db: Db, d: Delivery)
    ensures Receive(db, d).1 == Rejected(Unsigned) <==> d.header.None?
    ensures d.header.Some? && (d.payload.None? || d.payload.value.code == "" || Some(d.payload.value.event) != d.header) ==>
              Receive(db, d) == (db, Rejected(BadRequest))
  {
    hide ApplyEvent;
    if Screen(d).Ok? { NeverUnsigned(db.tables, d.payload.value, d.now, d.freshId); }
  }

  lemma NeverUnsigned(t: Tables, p: Payload, now: int, freshId: string)
    ensures ApplyEvent(t, p, now, freshId) != Err(Unsigned)
  {
    hide IssuerOf, Truthy, EduplusIdTaken, IdTaken, StatusOf;
  }

  /** An effective delivery leaves exactly one receipt: its event's name, its body, and the tenant it was about. */
  lemma EffectiveLeavesReceipt(db: Db, d: Delivery)
    requires Receive(db, d).1 == Accepted(false)
    ensures d.payload.Some? && d.payload.value.eventId !in db.receipts
    ensures
      var after, p := Receive(db, d).0, d.payload.value;
      && Ok(after.tables) == ApplyEvent(db.tables, p, d.now, d.freshId) && p.code in after.tables.tenants
      && after.receipts == db.receipts[p.eventId := Receipt(p.event, d.body, Some(after.tables.tenants[p.code].id))]
  {
    hide ApplyEvent;
    TenantIsThere(db.tables, d.payload.value, d.now, d.freshId);
  }

  lemma TenantIsThere(t: Tables, p: Payload, now: int, freshId: string)
    requires ApplyEvent(t, p, now, freshId).Ok?
    ensures p.code in ApplyEvent(t, p, now, freshId).value.tenants
  {
    hide IssuerOf, EduplusIdTaken, IdTaken;
  }

  // ---- any sequence of deliveries ----

  predicate AboutStatus(d: Delivery, code: string) {
    && d.payload.Some? && d.payload.value.code == code
    && d.payload.value.event in {"subscription.created", "subscription.suspended", "subscription.reactivated",
                                 "subscription.terminated", "subscription.expired"}
  }

  lemma StatusEvents(event: string)
    ensures StatusOf(event).Some?
       <==> event in {"subscription.created", "subscription.suspended", "subscription.reactivated",
                      "subscription.terminated", "subscription.expired"}
    ensures event in {"subscription.created", "subscription.reactivated"} ==> StatusOf(event) == Some(Active)
    ensures event == "subscription.suspended" ==> StatusOf(event) == Some(Suspended)
    ensures event in {"subscription.terminated", "subscription.expired"} ==> StatusOf(event) == Some(TenantStatus.Revoked)
  {
  }

  lemma {:induction false} LastStatusIs(done: seq<Delivery>, code: string, start: Option<TenantStatus>, k: nat)
    requires k < |done| && AboutStatus(done[k], code) && forall j | k < j < |done| :: !AboutStatus(done[j], code)
    ensures LastStatus(done, code, start) == StatusOf(done[k].payload.value.event)
  {
    hide StatusOf;
    var n := |done| - 1;
    if done[n].payload.Some? { StatusEvents(done[n].payload.value.event); }
    if k < n {
      assert !AboutStatus(done[n], code);
      assert forall j | k < j < n :: done[..n][j] == done[j];
      LastStatusIs(done[..n], code, start, k);
    }
  }

  lemma {:induction false} NoStatusEvent(done: seq<Delivery>, code: string, start: Option<TenantStatus>)
    requires forall j | 0 <= j < |done| :: !AboutStatus(done[j], code)
    ensures LastStatus(done, code, start) == start
  {
    hide StatusOf;
    if done != [] {
      var n := |done| - 1;
      assert !AboutStatus(done[n], code);
      if done[n].payload.Some? { StatusEvents(done[n].payload.value.event); }
      assert forall j | 0 <= j < n :: done[..n][j] == done[j];
      NoStatusEvent(done[..n], code, start);
    }
  }

  /**
   Over any run: a tenant is suspended if the last effective status event for its
   code was a suspension, active if it was a creation or reactivation, revoked if
   it was a termination or expiry; without one it is as it was.
   */
  lemma StatusIsThatOfTheLastEvent(db: Db, ds: seq<Delivery>, code: string, k: nat)
    requires
      var done := Effective(db, ds);
      k <= |done| && (k < |done| ==> AboutStatus(done[k], code)) && forall j | k < j < |done| :: !AboutStatus(done[j], code)
    requires k == |Effective(db, ds)| ==> forall j | 0 <= j < k :: !AboutStatus(Effective(db, ds)[j], code)
    ensures
      var done, tenants := Effective(db, ds), Process(db, ds).tables.tenants;
      if k == |done| then
        (code in tenants <==> code in db.tables.tenants) && (code in tenants ==> tenants[code].status == db.tables.tenants[code].status)
      else
        var event := done[k].payload.value.event;
        && code in tenants
        && (event == "subscription.suspended" ==> tenants[code].status == Suspended)
        && (event == "subscription.created" || event == "subscription.reactivated" ==> tenants[code].status == Active)
        && (event == "subscription.terminated" || event == "subscription.expired" ==> tenants[code].status == TenantStatus.Revoked)
  {
    hide Process, Effective, StatusOf, LastStatus;
    StatusFollowsLastEvent(db, ds, code);
    var done := Effective(db, ds);
    if k == |done| {
      NoStatusEvent(done, code, CurrentStatus(db.tables, code));
    } else {
      LastStatusIs(done, code, CurrentStatus(db.tables, code), k);
      StatusEvents(done[k].payload.value.event);
    }
  }
}
