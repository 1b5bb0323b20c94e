/**
 The authorisation context a widget session is bound to, and the two ways the
 services compare such contexts: normalise-and-compare in the session store and
 canonicalise-and-compare in the refresh call.

 JSON.stringify is injective on these values (fixed member order, strings and
 arrays only), so texts are compared as values.  The two key lists use the
 default string order; the endpoint pairs use localeCompare on their JSON text,
 of which only totality and transitivity are assumed (le).
 */
module WidgetContext {
  import opened Prelude
  import opened StableSort

  datatype EndpointPair = EndpointPair(widgetKey: string, dataEndpointKey: string, queryPresetKey: Option<string>)

  datatype Authorization = Authorization(
    widgetKeys: seq<string>, dataEndpointKeys: seq<string>, endpointPairs: seq<EndpointPair>)

  datatype Context = Context(
    tenantId: string, userId: string, identityId: string, identityType: string,
    appCode: string, configSnapshotId: string, scope: string, authorization: Authorization)

  /** The verified claims of a widget access token. */
  datatype Identity = Identity(
    sub: string, identityId: string, identityType: string, appCode: string,
    configSnapshotId: string, scope: string, authorization: Authorization)

  /** localeCompare on the JSON text of two pairs, as "not after". */
  type Collation = le: (EndpointPair, EndpointPair) -> bool | TotalPreorder(le)
    witness (x: EndpointPair, y: EndpointPair) => true

  /** A preset is written only when it is truthy, so the empty string disappears. */
  function NormalizePair(p: EndpointPair): EndpointPair {
    if p.queryPresetKey == Some("") then p.(queryPresetKey := None) else p
  }

  function NormalizePairs(ps: seq<EndpointPair>): seq<EndpointPair> {
    seq(|ps|, i requires 0 <= i < |ps| => NormalizePair(ps[i]))
  }

  function NormalizeAuthorization(a: Authorization, le: Collation): Authorization {
    Authorization(Sort(a.widgetKeys, LexLe), Sort(a.dataEndpointKeys, LexLe), Sort(NormalizePairs(a.endpointPairs), le))
  }

  function Normalize(c: Context, le: Collation): Context {
    c.(authorization := NormalizeAuthorization(c.authorization, le))
  }

  /** The refresh call's own normal form, which leaves presets alone. */
  function Canonical(c: Context, le: Collation): Context {
    c.(authorization := Authorization(
         Sort(c.authorization.widgetKeys, LexLe),
         Sort(c.authorization.dataEndpointKeys, LexLe),
         Sort(c.authorization.endpointPairs, le)))
  }

  /** assertContext: true when it returns, false when it throws SESSION_CONTEXT_MISMATCH. */
  predicate ContextMatches(actual: Context, expected: Context, le: Collation) {
    && actual.tenantId == expected.tenantId
    && actual.userId == expected.userId
    && actual.identityId == expected.identityId
    && actual.identityType == expected.identityType
    && actual.appCode == expected.appCode
    && actual.configSnapshotId == expected.configSnapshotId
    && actual.scope == expected.scope
    && actual.authorization == NormalizeAuthorization(expected.authorization, le)
  }

  /** The context a verified token grants inside a tenant. */
  function SessionContext(tenantId: string, who: Identity): Context {
    Context(tenantId, who.sub, who.identityId, who.identityType, who.appCode, who.configSnapshotId, who.scope,
            who.authorization.(endpointPairs := NormalizePairs(who.authorization.endpointPairs)))
  }

  /** Equality of everything but the three authorisation lists. */
  predicate SameBinding(c: Context, d: Context) {
    c.(authorization := d.authorization) == d
  }

  /** The three lists are permutations of each other, pairs read after presets are normalised. */
  predicate SamePermissions(a: Authorization, b: Authorization) {
    && multiset(a.widgetKeys) == multiset(b.widgetKeys)
    && multiset(a.dataEndpointKeys) == multiset(b.dataEndpointKeys)
    && multiset(NormalizePairs(a.endpointPairs)) == multiset(NormalizePairs(b.endpointPairs))
  }

  /** Pairs that the collation cannot tell apart appear in the same order in both lists. */
  ghost predicate SameTieOrder(a: Authorization, b: Authorization, le: Collation) {
    SameTies(NormalizePairs(a.endpointPairs), NormalizePairs(b.endpointPairs), le)
  }

  predicate NoEmptyPreset(a: Authorization) {
    forall i | 0 <= i < |a.endpointPairs| :: a.endpointPairs[i].queryPresetKey != Some("")
  }

  lemma NormalizePairsFixed(ps: seq<EndpointPair>)
    requires forall i | 0 <= i < |ps| :: ps[i].queryPresetKey != Some("")
    ensures NormalizePairs(ps) == ps
  {
  }

  lemma SortedPairsHaveNoEmptyPreset(ps: seq<EndpointPair>, le: Collation)
    ensures forall i | 0 <= i < |ps| :: Sort(NormalizePairs(ps), le)[i].queryPresetKey != Some("")
  {
    var r := Sort(NormalizePairs(ps), le);
    forall i | 0 <= i < |ps| ensures r[i].queryPresetKey != Some("") {
      assert r[i] in multiset(r);
      assert r[i] in NormalizePairs(ps);
    }
  }

  lemma SortedPairsStayNormal(ps: seq<EndpointPair>, le: Collation)
    ensures NormalizePairs(Sort(NormalizePairs(ps), le)) == Sort(NormalizePairs(ps), le)
  {
    SortedPairsHaveNoEmptyPreset(ps, le);
    NormalizePairsFixed(Sort(NormalizePairs(ps), le));
  }

  /** Reading a stored row normalises an authorisation that was normalised when it was written. */
  lemma NormalizeIdempotent(c: Context, le: Collation)
    ensures Normalize(Normalize(c, le), le) == Normalize(c, le)
  {
    LexIsTotalOrder();
    SortIdempotent(c.authorization.widgetKeys, LexLe);
    SortIdempotent(c.authorization.dataEndpointKeys, LexLe);
    SortedPairsStayNormal(c.authorization.endpointPairs, le);
    SortIdempotent(NormalizePairs(c.authorization.endpointPairs), le);
  }

  /**
   Exactly which contexts compare equal, for any collation: same bindings, same
   keys in any order, same pairs in any order except that pairs the collation
   ties must come in the same order.
   */
  lemma NormalizeEqualIff(c: Context, d: Context, le: Collation)
    ensures Normalize(c, le) == Normalize(d, le)
        <==> SameBinding(c, d) && SamePermissions(c.authorization, d.authorization)
             && SameTieOrder(c.authorization, d.authorization, le)
  {
    var a, b := c.authorization, d.authorization;
    LexIsTotalOrder();
    SortForgetsOrder(a.widgetKeys, b.widgetKeys, LexLe);
    SortForgetsOrder(a.dataEndpointKeys, b.dataEndpointKeys, LexLe);
    var p, q := NormalizePairs(a.endpointPairs), NormalizePairs(b.endpointPairs);
    SortEqualIff(p, q, le);
    assert Sort(p, le) == Sort(q, le) ==> multiset(Sort(p, le)) == multiset(Sort(q, le));
    assert Normalize(c, le) == Normalize(d, le)
      <==> SameBinding(c, d) && NormalizeAuthorization(a, le) == NormalizeAuthorization(b, le);
  }

  /** With a collation that separates different pairs, equality is equality up to list order. */
  lemma NormalizeEqualIffPermuted(c: Context, d: Context, le: Collation)
    requires Separates(le)
    ensures Normalize(c, le) == Normalize(d, le)
        <==> SameBinding(c, d) && SamePermissions(c.authorization, d.authorization)
  {
    NormalizeEqualIff(c, d, le);
    var p, q := NormalizePairs(c.authorization.endpointPairs), NormalizePairs(d.authorization.endpointPairs);
    SortForgetsOrder(p, q, le);
    SortEqualIff(p, q, le);
  }

  /** The store's check on a stored (normalised) context is equality of normal forms. */
  lemma ContextMatchesIff(stored: Context, expected: Context, le: Collation)
    requires stored == Normalize(stored, le)
    ensures ContextMatches(stored, expected, le) <==> stored == Normalize(expected, le)
  {
  }

  lemma SessionContextHasNoEmptyPreset(tenantId: string, who: Identity)
    ensures NoEmptyPreset(SessionContext(tenantId, who).authorization)
  {
  }

  /** The two comparisons agree on every context that comes from a verified token. */
  lemma CanonicalIsNormalize(c: Context, le: Collation)
    requires NoEmptyPreset(c.authorization)
    ensures Canonical(c, le) == Normalize(c, le)
  {
    NormalizePairsFixed(c.authorization.endpointPairs);
  }

  lemma ComparisonsAgree(c: Context, d: Context, le: Collation)
    requires NoEmptyPreset(c.authorization) && NoEmptyPreset(d.authorization)
    ensures Canonical(c, le) == Canonical(d, le) <==> ContextMatches(Normalize(c, le), d, le)
  {
    CanonicalIsNormalize(c, le);
    CanonicalIsNormalize(d, le);
    NormalizeIdempotent(c, le);
  }

  /** Off that domain they part: an empty preset is dropped by one form and kept by the other. */
  lemma EmptyPresetSplitsComparisons(c: Context, w: string, e: string, le: Collation)
    ensures
      var withEmpty := c.(authorization := c.authorization.(endpointPairs := [EndpointPair(w, e, Some(""))]));
      var without := c.(authorization := c.authorization.(endpointPairs := [EndpointPair(w, e, None)]));
      ContextMatches(Normalize(withEmpty, le), without, le) && Canonical(withEmpty, le) != Canonical(without, le)
  {
    var p, q := EndpointPair(w, e, Some("")), EndpointPair(w, e, None);
    assert NormalizePairs([p]) == [q] && NormalizePairs([q]) == [q];
    assert multiset(Sort([p], le)) == multiset([p]) && p in multiset([p]);
    assert multiset(Sort([q], le)) == multiset([q]) && p !in multiset([q]);
  }
}
