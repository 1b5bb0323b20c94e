/**
 The fixed-window limiter in front of the login and webhook routes.  A bucket is
 opened by the first request that finds none or an expired one; every request
 counts, refused or not.
 */
module RateLimiter {
  import opened Prelude

  datatype Bucket = Bucket(count: nat, resetAt: real)

  datatype Settings = Settings(maximum: real, windowMs: real) {
    predicate Valid() { maximum > 0.0 && windowMs > 0.0 }

    /** How many requests a window admits: counts are whole, the configured maximum need not be. */
    function Quota(): int { maximum.Floor }
  }

  /** A configured number counts only if it is finite (Some) and positive. */
  function NumberSetting(configured: Option<real>, fallback: real): (r: real)
    requires fallback > 0.0
    ensures r > 0.0
    ensures configured.Some? && configured.value > 0.0 ==> r == configured.value
    ensures configured.None? || configured.value <= 0.0 ==> r == fallback
  {
    if configured.Some? && configured.value > 0.0 then configured.value else fallback
  }

  datatype Boundary = Auth | Webhook

  /** The settings of a boundary, from the two numbers configured for it. */
  function Configured(boundary: Boundary, maximum: Option<real>, window: Option<real>): Settings {
    Settings(NumberSetting(maximum, if boundary.Auth? then 30.0 else 120.0), NumberSetting(window, 60000.0))
  }

  /** Whatever is configured, a boundary has a window of some length; by default 30 logins or 120 webhooks a minute. */
  lemma ConfiguredIsValid(boundary: Boundary, maximum: Option<real>, window: Option<real>)
    ensures Configured(boundary, maximum, window).Valid()
    ensures Configured(Auth, None, None).Quota() == 30 && Configured(Webhook, None, None).Quota() == 120
    ensures Configured(boundary, None, None).windowMs == 60.0 * 1000.0
    ensures maximum.Some? && maximum.value >= 1.0 ==> Configured(boundary, maximum, window).Quota() == maximum.value.Floor
  {
  }

  predicate StartsWith(s: string, prefix: string) {
    prefix <= s
  }

  function BeforeQuery(url: string): string {
    if url == "" || url[0] == '?' then "" else [url[0]] + BeforeQuery(url[1..])
  }

  function BoundaryOf(url: string): Option<Boundary> {
    var path := BeforeQuery(url);
    if StartsWith(path, "/api/auth/") then Some(Auth)
    else if path == "/api/webhooks/eduplus" then Some(Webhook)
    else None
  }

  lemma {:induction false} QueryIsCut(path: string, query: string)
    requires '?' !in path
    ensures BeforeQuery(path) == path && BeforeQuery(path + "?" + query) == path
  {
    if path != "" {
      QueryIsCut(path[1..], query);
      assert (path + "?" + query)[1..] == path[1..] + "?" + query;
    }
  }

  /** Which routes are limited: the login routes and the one webhook route, with or without a query. */
  lemma RouteIs(path: string, query: string)
    requires '?' !in path
    ensures BoundaryOf(path + "?" + query) == BoundaryOf(path)
    ensures BoundaryOf(path) == Some(Auth) <==> exists rest :: path == "/api/auth/" + rest
    ensures BoundaryOf(path) == Some(Webhook) <==> path == "/api/webhooks/eduplus"
  {
    QueryIsCut(path, query);
    if "/api/auth/" <= path { assert path == "/api/auth/" + path[|"/api/auth/"|..]; }
    var auth, webhook := "/api/auth/", "/api/webhooks/eduplus";
    assert auth[5] != webhook[5];
  }

  function KeyOf(boundary: Boundary, address: string): string {
    (match boundary case Auth => "auth" case Webhook => "webhook") + ":" + address
  }

  /** Different boundaries and different addresses never share a bucket. */
  lemma KeysAreDistinct(b: Boundary, x: string, c: Boundary, y: string)
    ensures KeyOf(b, x) == KeyOf(c, y) <==> b == c && x == y
  {
    if KeyOf(b, x) == KeyOf(c, y) {
      assert KeyOf(b, x)[0] == KeyOf(c, y)[0];
      var n := if b.Auth? then 5 else 8;
      assert KeyOf(b, x)[n..] == x && KeyOf(c, y)[n..] == y;
    }
  }

  type Buckets = map<string, Bucket>

  /** The bucket of a key after a request at time now. */
  function Hit(buckets: Buckets, key: string, now: int, windowMs: real): Bucket {
    if key !in buckets || buckets[key].resetAt <= now as real then Bucket(1, now as real + windowMs)
    else buckets[key].(count := buckets[key].count + 1)
  }

  class BoundaryRateLimitGuard {
    var buckets: Buckets
    const auth: Settings
    const webhook: Settings

    constructor (auth: Settings, webhook: Settings)
      ensures this.auth == auth && this.webhook == webhook && buckets == map[]
    {
      this.auth := auth;
      this.webhook := webhook;
      buckets := map[];
    }

    method CanActivate(url: string, address: string, now: int) returns (allowed: bool)
      modifies this
      ensures BoundaryOf(url).None? ==> allowed && buckets == old(buckets)
      ensures BoundaryOf(url).Some? ==>
                var key := KeyOf(BoundaryOf(url).value, address);
                var settings := if BoundaryOf(url).value.Auth? then auth else webhook;
                && buckets == old(buckets)[key := Hit(old(buckets), key, now, settings.windowMs)]
                && (allowed <==> buckets[key].count <= settings.Quota())
    {
      var boundary := BoundaryOf(url);
      if boundary.None? { return true; }
      var settings := if boundary.value.Auth? then auth else webhook;
      var key := KeyOf(boundary.value, address);
      var bucket := if key !in buckets || buckets[key].resetAt <= now as real
                    then Bucket(0, now as real + settings.windowMs) else buckets[key];
      bucket := bucket.(count := bucket.count + 1);
      buckets := buckets[key := bucket];
      return !(bucket.count as real > settings.maximum);
    }
  }

  // ---- request traces under one setting ----

  datatype Request = Request(key: string, now: int)

  ghost predicate Ordered(trace: seq<Request>) {
    forall i, j | 0 <= i < j < |trace| :: trace[i].now <= trace[j].now
  }

  function After(s: Settings, trace: seq<Request>): Buckets
    decreases |trace|
  {
    if trace == [] then map[]
    else
      var r := trace[|trace| - 1];
      var before := After(s, trace[..|trace| - 1]);
      before[r.key := Hit(before, r.key, r.now, s.windowMs)]
  }

  /** Whether the last request of the trace is admitted. */
  predicate Admits(s: Settings, trace: seq<Request>)
    requires trace != []
  {
    var r := trace[|trace| - 1];
    Hit(After(s, trace[..|trace| - 1]), r.key, r.now, s.windowMs).count <= s.Quota()
  }

  /** How many requests of the key were admitted at times in [from, from + windowMs). */
  function AdmittedIn(s: Settings, trace: seq<Request>, key: string, from: real): nat
    decreases |trace|
  {
    if trace == [] then 0
    else
      var r := trace[|trace| - 1];
      AdmittedIn(s, trace[..|trace| - 1], key, from)
      + if r.key == key && from <= r.now as real < from + s.windowMs && Admits(s, trace) then 1 else 0
  }

  lemma OneMore(s: Settings, trace: seq<Request>, r: Request, key: string, from: real)
    ensures After(s, trace + [r]) == After(s, trace)[r.key := Hit(After(s, trace), r.key, r.now, s.windowMs)]
    ensures AdmittedIn(s, trace + [r], key, from) == AdmittedIn(s, trace, key, from)
         + if r.key == key && from <= r.now as real < from + s.windowMs
                && Hit(After(s, trace), r.key, r.now, s.windowMs).count <= s.Quota() then 1 else 0
  {
    assert (trace + [r])[..|trace + [r]| - 1] == trace;
  }

  function Min(a: int, b: int): int { if a < b then a else b }

  /** The bound on an interval, in terms of the key's current bucket. */
  ghost predicate IntervalBound(s: Settings, buckets: Buckets, key: string, from: real, admitted: int) {
    var m := s.Quota();
    if key !in buckets then admitted == 0
    else
      var b := buckets[key];
      var since := b.resetAt - s.windowMs;
      && b.count >= 1
      && (since < from ==> admitted <= Min(b.count, m) - 1)
      && (from <= since < from + s.windowMs ==> admitted <= m - 1 + Min(b.count, m))
      && (since >= from + s.windowMs ==> admitted <= 2 * m - 1)
  }

  /** Buckets were opened no later than the last request. */
  lemma {:induction false} OpenedEarlier(s: Settings, trace: seq<Request>, key: string)
    requires Ordered(trace) && key in After(s, trace)
    ensures trace != [] && After(s, trace)[key].resetAt <= trace[|trace| - 1].now as real + s.windowMs
    decreases |trace|
  {
    var before := trace[..|trace| - 1];
    if key in After(s, before) { OpenedEarlier(s, before, key); }
  }

  lemma {:induction false} NothingBeforeInterval(s: Settings, trace: seq<Request>, key: string, from: real)
    requires forall i | 0 <= i < |trace| :: (trace[i].now as real) < from
    ensures AdmittedIn(s, trace, key, from) == 0
    decreases |trace|
  {
    if trace != [] { NothingBeforeInterval(s, trace[..|trace| - 1], key, from); }
  }

  lemma {:induction false} IntervalBoundHolds(s: Settings, trace: seq<Request>, key: string, from: real)
    requires s.Valid() && s.Quota() >= 1 && Ordered(trace)
    ensures IntervalBound(s, After(s, trace), key, from, AdmittedIn(s, trace, key, from))
    decreases |trace|
  {
    if trace != [] {
      var before := trace[..|trace| - 1];
      IntervalBoundHolds(s, before, key, from);
      var r := trace[|trace| - 1];
      if key in After(s, before) { OpenedEarlier(s, before, key); }
      if r.key == key && (r.now as real) < from {
        NothingBeforeInterval(s, before, key, from);
      }
    }
  }

  lemma {:induction false} ZeroQuotaAdmitsNone(s: Settings, trace: seq<Request>, key: string, from: real)
    requires s.Quota() <= 0
    ensures AdmittedIn(s, trace, key, from) == 0
    decreases |trace|
  {
    if trace != [] {
      ZeroQuotaAdmitsNone(s, trace[..|trace| - 1], key, from);
    }
  }

  /** In any interval of the window's length a key is admitted at most twice its quota less one. */
  lemma AtMostTwiceTheQuotaLessOne(s: Settings, trace: seq<Request>, key: string, from: real)
    requires s.Valid() && Ordered(trace)
    ensures AdmittedIn(s, trace, key, from) <= if s.Quota() >= 1 then 2 * s.Quota() - 1 else 0
  {
    if s.Quota() >= 1 { IntervalBoundHolds(s, trace, key, from); }
    else { ZeroQuotaAdmitsNone(s, trace, key, from); }
  }

  /** The window a bucket covers. */
  ghost predicate WindowBound(s: Settings, buckets: Buckets, key: string, from: real, admitted: int) {
    && key in buckets
    && buckets[key].count >= 1
    && buckets[key].resetAt - s.windowMs >= from
    && (buckets[key].resetAt - s.windowMs == from ==> admitted <= Min(buckets[key].count, s.Quota()))
    && (buckets[key].resetAt - s.windowMs > from ==> buckets[key].resetAt - s.windowMs >= from + s.windowMs && admitted <= s.Quota())
  }

  lemma {:induction false} ExpiredBucketIsEarlier(s: Settings, trace: seq<Request>, key: string, at: real)
    requires s.Valid() && Ordered(trace)
    requires key !in After(s, trace) || After(s, trace)[key].resetAt <= at
    ensures AdmittedIn(s, trace, key, at) == 0
    decreases |trace|
  {
    if trace != [] {
      var before, r := trace[..|trace| - 1], trace[|trace| - 1];
      if r.key == key {
        forall i | 0 <= i < |trace| ensures (trace[i].now as real) < at { HitIsBeforeReset(s, trace, key); }
        NothingBeforeInterval(s, trace, key, at);
      } else {
        ExpiredBucketIsEarlier(s, before, key, at);
      }
    }
  }

  lemma HitIsBeforeReset(s: Settings, trace: seq<Request>, key: string)
    requires s.Valid() && Ordered(trace) && trace != [] && trace[|trace| - 1].key == key
    ensures key in After(s, trace)
    ensures forall i | 0 <= i < |trace| :: (trace[i].now as real) < After(s, trace)[key].resetAt
  {
  }

  lemma WindowOpens(s: Settings, start: seq<Request>)
    requires s.Valid() && start != [] && Ordered(start) && s.Quota() >= 0
    requires
      var r, before := start[|start| - 1], After(s, start[..|start| - 1]);
      r.key !in before || before[r.key].resetAt <= r.now as real
    ensures
      var r := start[|start| - 1];
      WindowBound(s, After(s, start), r.key, r.now as real, AdmittedIn(s, start, r.key, r.now as real))
  {
    ExpiredBucketIsEarlier(s, start[..|start| - 1], start[|start| - 1].key, start[|start| - 1].now as real);
  }

  lemma WindowStep(s: Settings, buckets: Buckets, r: Request, key: string, from: real, admitted: int)
    requires s.Valid() && WindowBound(s, buckets, key, from, admitted)
    requires buckets[key].resetAt <= r.now as real + s.windowMs
    ensures
      var hit := Hit(buckets, r.key, r.now, s.windowMs);
      WindowBound(s, buckets[r.key := hit], key, from,
                  admitted + if r.key == key && from <= r.now as real < from + s.windowMs && hit.count <= s.Quota() then 1 else 0)
  {
  }

  /** A window opened by the last request of `start` admits at most the quota, whatever follows. */
  lemma {:induction false} AtMostQuotaPerWindow(s: Settings, start: seq<Request>, rest: seq<Request>)
    requires s.Valid() && start != [] && Ordered(start + rest)
    requires
      var r, before := start[|start| - 1], After(s, start[..|start| - 1]);
      r.key !in before || before[r.key].resetAt <= r.now as real
    requires s.Quota() >= 0
    ensures
      var r := start[|start| - 1];
      && WindowBound(s, After(s, start + rest), r.key, r.now as real, AdmittedIn(s, start + rest, r.key, r.now as real))
      && AdmittedIn(s, start + rest, r.key, r.now as real) <= s.Quota()
    decreases |rest|
  {
    hide After, AdmittedIn;
    var key, from := start[|start| - 1].key, start[|start| - 1].now as real;
    if rest == [] {
      assert start + rest == start;
      WindowOpens(s, start);
    } else {
      var shorter, r := rest[..|rest| - 1], rest[|rest| - 1];
      var trace := start + shorter;
      assert start + rest == trace + [r];
      assert forall i | 0 <= i < |trace| :: trace[i] == (start + rest)[i];
      AtMostQuotaPerWindow(s, start, shorter);
      OpenedEarlier(s, trace, key);
      assert trace[|trace| - 1] == (start + rest)[|trace| - 1] && r == (start + rest)[|trace|];
      OneMore(s, trace, r, key, from);
      WindowStep(s, After(s, trace), r, key, from, AdmittedIn(s, trace, key, from));
    }
  }

  // ---- the bound is reached ----

  function Repeat(r: Request, n: nat): seq<Request> { seq(n, i => r) }

  /** n more requests inside an open window are all admitted while the quota lasts. */
  lemma {:induction false} BurstIsAdmitted(s: Settings, trace: seq<Request>, r: Request, n: nat, from: real)
    requires r.key in After(s, trace) && After(s, trace)[r.key].resetAt > r.now as real
    requires After(s, trace)[r.key].count + n <= s.Quota()
    requires from <= r.now as real < from + s.windowMs
    ensures
      var after := After(s, trace + Repeat(r, n));
      && r.key in after
      && after[r.key] == After(s, trace)[r.key].(count := After(s, trace)[r.key].count + n)
      && AdmittedIn(s, trace + Repeat(r, n), r.key, from) == AdmittedIn(s, trace, r.key, from) + n
  {
    hide After, AdmittedIn;
    if n == 0 {
      assert trace + Repeat(r, n) == trace;
    } else {
      BurstIsAdmitted(s, trace, r, n - 1, from);
      OneMore(s, trace + Repeat(r, n - 1), r, r.key, from);
      assert trace + Repeat(r, n) == trace + Repeat(r, n - 1) + [r];
    }
  }

  /** The bound cannot be improved: for every quota and every window longer than a tick some trace reaches it. */
  lemma TheBoundIsReached(s: Settings, key: string) returns (trace: seq<Request>, from: real)
    requires s.Valid() && s.Quota() >= 1 && s.windowMs > 1.0
    ensures Ordered(trace)
    ensures AdmittedIn(s, trace, key, from) == 2 * s.Quota() - 1
  {
    hide After, AdmittedIn;
    var m := s.Quota();
    var f := if (s.windowMs.Floor as real) < s.windowMs then s.windowMs.Floor + 1 else s.windowMs.Floor;
    var e := f - 1;
    from := e as real;
    var late, next := Request(key, e), Request(key, f);
    trace := [Request(key, 0)] + Repeat(late, m - 1) + [next] + Repeat(next, m - 1);
    FirstBurst(s, key, e);
    var t2 := [Request(key, 0)] + Repeat(late, m - 1);
    OneMore(s, t2, next, key, from);
    BurstIsAdmitted(s, t2 + [next], next, m - 1, from);
  }

  /** The opening request, then the rest of the quota at time e: the opening one falls before the interval. */
  lemma FirstBurst(s: Settings, key: string, e: int)
    requires s.Valid() && s.Quota() >= 1 && 0 < e && (e as real) < s.windowMs
    ensures
      var trace := [Request(key, 0)] + Repeat(Request(key, e), s.Quota() - 1);
      && key in After(s, trace) && After(s, trace)[key] == Bucket(s.Quota(), s.windowMs)
      && AdmittedIn(s, trace, key, e as real) == s.Quota() - 1
  {
    var opening := Request(key, 0);
    OneMore(s, [], opening, key, e as real);
    assert [] + [opening] == [opening];
    BurstIsAdmitted(s, [opening], Request(key, e), s.Quota() - 1, e as real);
  }

  // ---- isolation ----

  function Only(trace: seq<Request>, key: string): seq<Request>
    decreases |trace|
  {
    if trace == [] then []
    else
      var r := trace[|trace| - 1];
      Only(trace[..|trace| - 1], key) + if r.key == key then [r] else []
  }

  lemma {:induction false} BucketDependsOnOwnKey(s: Settings, trace: seq<Request>, key: string)
    ensures key in After(s, trace) <==> key in After(s, Only(trace, key))
    ensures key in After(s, trace) ==> After(s, trace)[key] == After(s, Only(trace, key))[key]
    decreases |trace|
  {
    if trace != [] {
      var r := trace[|trace| - 1];
      BucketDependsOnOwnKey(s, trace[..|trace| - 1], key);
      if r.key == key { OneMore(s, Only(trace[..|trace| - 1], key), r, key, 0.0); }
      else { assert Only(trace[..|trace| - 1], key) + [] == Only(trace[..|trace| - 1], key); }
    }
  }

  /** The answer to a request is a function of the earlier requests of its own key. */
  lemma TrafficIsIsolated(s: Settings, trace: seq<Request>)
    requires trace != []
    ensures Only(trace, trace[|trace| - 1].key) != []
    ensures Admits(s, trace) <==> Admits(s, Only(trace, trace[|trace| - 1].key))
  {
    var r := trace[|trace| - 1];
    BucketDependsOnOwnKey(s, trace[..|trace| - 1], r.key);
    var own := Only(trace[..|trace| - 1], r.key);
    assert (own + [r])[..|own + [r]| - 1] == own;
  }

  // ---- when the bound exceeds the quota ----

  /** In a window of at most one tick all admissions of an interval happen at one instant t. */
  lemma {:induction false} InstantBound(s: Settings, trace: seq<Request>, key: string, from: real, t: int)
    requires s.Valid() && s.Quota() >= 1 && s.windowMs <= 1.0 && Ordered(trace)
    requires from <= t as real < from + s.windowMs
    ensures AdmittedIn(s, trace, key, from) <= s.Quota()
    ensures AdmittedIn(s, trace, key, from) > 0 && trace[|trace| - 1].now <= t ==>
              key in After(s, trace) && After(s, trace)[key].resetAt > t as real
              && AdmittedIn(s, trace, key, from) <= After(s, trace)[key].count
    decreases |trace|
  {
    if trace != [] {
      var before, r := trace[..|trace| - 1], trace[|trace| - 1];
      InstantBound(s, before, key, from, t);
      if from <= r.now as real < from + s.windowMs { assert r.now == t by { SameInstant(from, s.windowMs, r.now, t); } }
      if before != [] { assert trace[|before| - 1].now <= r.now; }
    }
  }

  lemma SameInstant(from: real, length: real, x: int, t: int)
    requires 0.0 < length <= 1.0 && from <= x as real < from + length && from <= t as real < from + length
    ensures x == t
  {
    assert -1.0 < (x - t) as real < 1.0;
  }

  lemma {:induction false} NoInstant(s: Settings, trace: seq<Request>, key: string, from: real)
    requires forall i | 0 <= i < |trace| :: !(from <= trace[i].now as real < from + s.windowMs)
    ensures AdmittedIn(s, trace, key, from) == 0
    decreases |trace|
  {
    if trace != [] { NoInstant(s, trace[..|trace| - 1], key, from); }
  }

  ghost predicate Exceeds(s: Settings, trace: seq<Request>, key: string, from: real) {
    Ordered(trace) && AdmittedIn(s, trace, key, from) > s.Quota()
  }

  lemma ShortWindowNeverExceeds(s: Settings, trace: seq<Request>, key: string, from: real)
    requires s.Valid() && s.Quota() >= 1 && s.windowMs <= 1.0 && Ordered(trace)
    ensures AdmittedIn(s, trace, key, from) <= s.Quota()
  {
    if i :| 0 <= i < |trace| && from <= trace[i].now as real < from + s.windowMs {
      InstantBound(s, trace, key, from, trace[i].now);
    } else {
      NoInstant(s, trace, key, from);
    }
  }

  /**
   On the integer clock, some interval of the window's length can see more
   admissions than the quota exactly when the quota is at least two and the
   window longer than one tick; it can then see as many as 2m - 1.
   */
  lemma QuotaIsExceededIff(s: Settings)
    requires s.Valid()
    ensures (exists trace, key, from :: Exceeds(s, trace, key, from)) <==> s.Quota() >= 2 && s.windowMs > 1.0
  {
    if s.Quota() >= 2 && s.windowMs > 1.0 {
      var trace, from := TheBoundIsReached(s, "");
      assert Exceeds(s, trace, "", from);
    }
    forall trace, key, from | Exceeds(s, trace, key, from) ensures s.Quota() >= 2 && s.windowMs > 1.0 {
      AtMostTwiceTheQuotaLessOne(s, trace, key, from);
      if s.Quota() >= 1 && s.windowMs <= 1.0 { ShortWindowNeverExceeds(s, trace, key, from); }
    }
  }

  // ---- a guard serves two boundaries from one map ----

  datatype HttpRequest = HttpRequest(url: string, address: string, now: int)

  /** The requests of one boundary, as that boundary's limiter sees them. */
  function TraceOf(b: Boundary, rs: seq<HttpRequest>): seq<Request> {
    if rs == [] then []
    else
      var r := rs[|rs| - 1];
      TraceOf(b, rs[..|rs| - 1]) + if BoundaryOf(r.url) == Some(b) then [Request(KeyOf(b, r.address), r.now)] else []
  }

  function SettingsOf(b: Boundary, auth: Settings, webhook: Settings): Settings {
    if b.Auth? then auth else webhook
  }

  /** What the last request is to be answered. */
  predicate Allowed(auth: Settings, webhook: Settings, rs: seq<HttpRequest>)
    requires rs != []
  {
    var b := BoundaryOf(rs[|rs| - 1].url);
    b.Some? ==> TraceOf(b.value, rs) != [] && Admits(SettingsOf(b.value, auth, webhook), TraceOf(b.value, rs))
  }

  /** The shared map holds, under the keys of each boundary, the buckets of that boundary's own limiter. */
  ghost predicate Shared(buckets: Buckets, auth: Settings, webhook: Settings, rs: seq<HttpRequest>) {
    forall b: Boundary, address: string ::
      var key, own := KeyOf(b, address), After(SettingsOf(b, auth, webhook), TraceOf(b, rs));
      (key in buckets <==> key in own) && (key in buckets ==> buckets[key] == own[key])
  }

  lemma TraceSnoc(b: Boundary, rs: seq<HttpRequest>, r: HttpRequest)
    ensures TraceOf(b, rs + [r]) == TraceOf(b, rs) + if BoundaryOf(r.url) == Some(b) then [Request(KeyOf(b, r.address), r.now)] else []
  {
    assert (rs + [r])[..|rs|] == rs;
  }

  lemma SharedStep(buckets: Buckets, auth: Settings, webhook: Settings, rs: seq<HttpRequest>, r: HttpRequest, b: Boundary)
    requires Shared(buckets, auth, webhook, rs) && BoundaryOf(r.url) == Some(b)
    ensures
      var key, settings := KeyOf(b, r.address), SettingsOf(b, auth, webhook);
      var hit := Hit(buckets, key, r.now, settings.windowMs);
      && Shared(buckets[key := hit], auth, webhook, rs + [r])
      && (Allowed(auth, webhook, rs + [r]) <==> hit.count <= settings.Quota())
  {
    hide After, KeyOf, BoundaryOf, TraceOf;
    var key, settings := KeyOf(b, r.address), SettingsOf(b, auth, webhook);
    var hit := Hit(buckets, key, r.now, settings.windowMs);
    TraceSnoc(b, rs, r);
    var own := TraceOf(b, rs);
    OneMore(settings, own, Request(key, r.now), key, 0.0);
    assert (own + [Request(key, r.now)])[..|own|] == own;
    forall c: Boundary, address: string
      ensures
        var k, mine := KeyOf(c, address), After(SettingsOf(c, auth, webhook), TraceOf(c, rs + [r]));
        (k in buckets[key := hit] <==> k in mine) && (k in buckets[key := hit] ==> buckets[key := hit][k] == mine[k])
    {
      TraceSnoc(c, rs, r);
      KeysAreDistinct(b, r.address, c, address);
      assert TraceOf(c, rs) + [] == TraceOf(c, rs);
    }
  }

  lemma OtherRouteChangesNothing(buckets: Buckets, auth: Settings, webhook: Settings, rs: seq<HttpRequest>, r: HttpRequest)
    requires Shared(buckets, auth, webhook, rs) && BoundaryOf(r.url).None?
    ensures Shared(buckets, auth, webhook, rs + [r]) && Allowed(auth, webhook, rs + [r])
  {
    hide After, KeyOf, BoundaryOf, TraceOf;
    forall b: Boundary ensures TraceOf(b, rs + [r]) == TraceOf(b, rs) { TraceSnoc(b, rs, r); }
  }

  lemma NothingShared(auth: Settings, webhook: Settings)
    ensures Shared(map[], auth, webhook, [])
  {
  }

  /** A guard answers any mixture of routes, boundaries and addresses as two limiters of one setting each would. */
  method Serve(auth: Settings, webhook: Settings, rs: seq<HttpRequest>) returns (answers: seq<bool>)
    ensures |answers| == |rs|
    ensures forall i | 0 <= i < |rs| :: answers[i] <==> Allowed(auth, webhook, rs[..i + 1])
  {
    hide After, KeyOf, BoundaryOf, TraceOf, Shared, Hit, Allowed;
    var guard := new BoundaryRateLimitGuard(auth, webhook);
    NothingShared(auth, webhook);
    answers := [];
    for i := 0 to |rs|
      invariant fresh(guard) && guard.auth == auth && guard.webhook == webhook && |answers| == i
      invariant Shared(guard.buckets, auth, webhook, rs[..i])
      invariant forall j | 0 <= j < i :: answers[j] <==> Allowed(auth, webhook, rs[..j + 1])
    {
      assert rs[..i + 1] == rs[..i] + [rs[i]];
      var boundary := BoundaryOf(rs[i].url);
      if boundary.Some? { SharedStep(guard.buckets, auth, webhook, rs[..i], rs[i], boundary.value); }
      else { OtherRouteChangesNothing(guard.buckets, auth, webhook, rs[..i], rs[i]); }
      var allowed := guard.CanActivate(rs[i].url, rs[i].address, rs[i].now);
      answers := answers + [allowed];
    }
    assert rs[..|rs|] == rs;
  }
}
