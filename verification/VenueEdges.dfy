/** The candidate venue edges of all sources together, and the whole venue stage. */
module VenueEdges {
  import opened Listings
  import opened GuardedClustering
  import opened Venues
  import opened VenueReasons
  import opened VenueLinks
  import opened VenueGrid
  import opened VenueNames
  import opened Sorting
  import opened UnionFind

  /** Every edge joins two listings of one city. */
  ghost predicate WithinCities(listings: seq<VenueListing>, edges: EdgeMap) {
    forall p :: p in edges ==> p.0 <= p.1 < |listings| && listings[p.0].city == listings[p.1].city
  }

  // ---- all sources together ----

  /** An edge is collected exactly when its two listings give a reason, and its
      priority is the best that they give. */
  ghost predicate BestReasons(globe: Globe, listings: seq<VenueListing>, edges: EdgeMap) {
    && (forall p :: p in edges ==> Reason(globe, listings, p, edges[p]))
    && (forall p, q: nat :: Reason(globe, listings, p, q) ==> p in edges && edges[p] <= q)
  }

  ghost function Either(r: Reasons, s: Reasons): Reasons {
    (p: Edge, q: nat) => r(p, q) || s(p, q)
  }

  lemma OffersAdd(before: EdgeMap, middle: EdgeMap, after: EdgeMap, r: Reasons, s: Reasons)
    requires OffersExactly(before, middle, r) && OffersExactly(middle, after, s)
    ensures OffersExactly(before, after, Either(r, s))
  {
    forall p | p in after ensures Kept(before, after, p) || Either(r, s)(p, after[p]) {
      if Kept(middle, after, p) && !Kept(before, middle, p) {
        assert r(p, middle[p]);
      }
    }
    forall p, q: nat | Either(r, s)(p, q) ensures p in after && after[p] <= q {
      if r(p, q) { assert p in middle && middle[p] <= q; }
    }
  }

  /** The five sources are the reasons. */
  lemma SourcesAreReasons(globe: Globe, listings: seq<VenueListing>, p: Edge, q: nat)
    ensures Reason(globe, listings, p, q) <==>
      || BucketReasons(listings, SameVenueId, false, PROVIDER_PRIORITY)(p, q)
      || SeedReasons(listings)(p, q)
      || GeoReasons(globe, listings)(p, q)
      || BucketReasons(listings, SameCompact, true, COMPACT_PRIORITY)(p, q)
      || NameReasons(listings)(p, q)
  {
    if NameReasons(listings)(p, q) {
      assert p.0 <= p.1 < |listings|;
    }
  }

  lemma BestOfSources(
      globe: Globe, listings: seq<VenueListing>, byProvider: EdgeMap, bySeed: EdgeMap, byGeo: EdgeMap,
      byCompact: EdgeMap, edges: EdgeMap)
    requires OffersExactly(map[], byProvider, BucketReasons(listings, SameVenueId, false, PROVIDER_PRIORITY))
    requires OffersExactly(byProvider, bySeed, SeedReasons(listings))
    requires OffersExactly(bySeed, byGeo, GeoReasons(globe, listings))
    requires OffersExactly(byGeo, byCompact, BucketReasons(listings, SameCompact, true, COMPACT_PRIORITY))
    requires OffersExactly(byCompact, edges, NameReasons(listings))
    ensures BestReasons(globe, listings, edges)
  {
    var provider := BucketReasons(listings, SameVenueId, false, PROVIDER_PRIORITY);
    var seed, geo := SeedReasons(listings), GeoReasons(globe, listings);
    var compact, name := BucketReasons(listings, SameCompact, true, COMPACT_PRIORITY), NameReasons(listings);
    OffersAdd(map[], byProvider, bySeed, provider, seed);
    OffersAdd(map[], bySeed, byGeo, Either(provider, seed), geo);
    OffersAdd(map[], byGeo, byCompact, Either(Either(provider, seed), geo), compact);
    OffersAdd(map[], byCompact, edges, Either(Either(Either(provider, seed), geo), compact), name);
    SourcesGiveReasons(globe, listings, edges);
  }

  lemma SourcesGiveReasons(globe: Globe, listings: seq<VenueListing>, edges: EdgeMap)
    requires OffersExactly(map[], edges,
      Either(Either(Either(Either(
        BucketReasons(listings, SameVenueId, false, PROVIDER_PRIORITY), SeedReasons(listings)),
        GeoReasons(globe, listings)), BucketReasons(listings, SameCompact, true, COMPACT_PRIORITY)),
        NameReasons(listings)))
    ensures BestReasons(globe, listings, edges)
  {
    var sources := Either(Either(Either(Either(
      BucketReasons(listings, SameVenueId, false, PROVIDER_PRIORITY), SeedReasons(listings)),
      GeoReasons(globe, listings)), BucketReasons(listings, SameCompact, true, COMPACT_PRIORITY)),
      NameReasons(listings));
    forall p | p in edges ensures Reason(globe, listings, p, edges[p]) {
      assert sources(p, edges[p]);
      SourcesAreReasons(globe, listings, p, edges[p]);
    }
    forall p, q: nat | Reason(globe, listings, p, q) ensures p in edges && edges[p] <= q {
      SourcesAreReasons(globe, listings, p, q);
      assert sources(p, q);
    }
  }

  lemma BestReasonsStayInCity(globe: Globe, listings: seq<VenueListing>, edges: EdgeMap)
    requires BestReasons(globe, listings, edges)
    ensures WithinCities(listings, edges)
  {
    forall p | p in edges ensures p.0 <= p.1 < |listings| && listings[p.0].city == listings[p.1].city {
      ReasonsStayInCity(globe, listings, p, edges[p]);
    }
  }

  /** Collects every candidate edge, at the best priority there is a reason for,
      and no other: all of them inside one city, and each source complete:
      provider ids, reviewed seeds, near points, equal and distinctive names. */
  method CollectEdges(globe: Globe, listings: seq<VenueListing>) returns (edges: EdgeMap)
    requires Plausible(globe) && AllUsable(listings)
    ensures BestReasons(globe, listings, edges)
    ensures WithinCities(listings, edges)
    ensures forall i: nat, j: nat :: i < j < |listings| && SharesSeed(listings, i, j) ==>
      Offered(edges, i, j, SEED_PRIORITY)
    ensures NearPairsOffered(NearTest(globe, listings), |listings|, edges)
    ensures BucketsLinked(listings, ProviderKey, false, PROVIDER_PRIORITY, edges)
    ensures BucketsLinked(listings, CompactKey, true, COMPACT_PRIORITY, edges)
    ensures NamesLinked(listings, edges)
  {
    var byProvider := LinkBuckets(listings, ProviderKey, false, PROVIDER_PRIORITY, map[], SameVenueId);
    var bySeed := LinkSeeds(listings, byProvider);
    var byGeo := AddGeoEdges(globe, listings, bySeed);
    var byCompact := LinkBuckets(listings, CompactKey, true, COMPACT_PRIORITY, byGeo, SameCompact);
    edges := LinkNames(listings, byCompact);
    BucketsStayLinked(listings, ProviderKey, false, PROVIDER_PRIORITY, byProvider, edges);
    BucketsStayLinked(listings, CompactKey, true, COMPACT_PRIORITY, byCompact, edges);
    OffersSurvive(globe, listings, bySeed, byGeo, byCompact, edges);
    BestOfSources(globe, listings, byProvider, bySeed, byGeo, byCompact, edges);
    BestReasonsStayInCity(globe, listings, edges);
  }

  lemma OffersSurvive(
      globe: Globe, listings: seq<VenueListing>, bySeed: EdgeMap, byGeo: EdgeMap, byCompact: EdgeMap, edges: EdgeMap)
    requires Extends(bySeed, byGeo) && Extends(byGeo, byCompact) && Extends(byCompact, edges)
    ensures Extends(bySeed, edges) && Extends(byGeo, edges)
    ensures forall i, j, priority :: Offered(bySeed, i, j, priority) ==> Offered(edges, i, j, priority)
    ensures forall i, j, priority :: Offered(byGeo, i, j, priority) ==> Offered(edges, i, j, priority)
  {
  }

  // ---- the whole venue stage ----

  datatype RankedEdge = RankedEdge(left: nat, right: nat, priority: nat)

  /** Better priority first, then by position. */
  predicate RankedBefore(a: RankedEdge, b: RankedEdge) {
    if a.priority != b.priority then a.priority < b.priority
    else if a.left != b.left then a.left < b.left
    else a.right <= b.right
  }

  /** list holds every collected edge once. */
  ghost predicate ListsEdges(edges: EdgeMap, list: seq<RankedEdge>) {
    && (forall k :: 0 <= k < |list| ==>
      (list[k].left, list[k].right) in edges && edges[(list[k].left, list[k].right)] == list[k].priority)
    && (forall p :: p in edges ==> RankedEdge(p.0, p.1, edges[p]) in list)
  }

  /** Every edge comes before those of a worse priority, and at one priority before
      those of later listings. */
  ghost predicate InRankOrder(list: seq<RankedEdge>) {
    forall j, k :: 0 <= j < k < |list| ==>
      || list[j].priority < list[k].priority
      || (list[j].priority == list[k].priority && list[j].left < list[k].left)
      || (list[j].priority == list[k].priority && list[j].left == list[k].left && list[j].right < list[k].right)
  }

  lemma RankedInOrder(list: seq<RankedEdge>)
    requires Ordered(RankedBefore, list) && Distinct(list)
    ensures InRankOrder(list)
  {
    forall j, k | 0 <= j < k < |list|
      ensures RankedBefore(list[j], list[k]) && list[j] != list[k]
    {
      OrderedPairs(RankedBefore, list, j, k);
    }
  }

  method ListEdges(edges: EdgeMap) returns (unsorted: seq<RankedEdge>)
    ensures ListsEdges(edges, unsorted) && Distinct(unsorted)
  {
    unsorted := [];
    var keys := edges.Keys;
    while keys != {}
      invariant keys <= edges.Keys
      invariant forall k :: 0 <= k < |unsorted| ==>
        && (unsorted[k].left, unsorted[k].right) in edges
        && edges[(unsorted[k].left, unsorted[k].right)] == unsorted[k].priority
      invariant forall k :: 0 <= k < |unsorted| ==> (unsorted[k].left, unsorted[k].right) !in keys
      invariant Distinct(unsorted)
      invariant forall p :: p in edges && p !in keys ==> RankedEdge(p.0, p.1, edges[p]) in unsorted
      decreases keys
    {
      var p :| p in keys;
      unsorted := unsorted + [RankedEdge(p.0, p.1, edges[p])];
      keys := keys - {p};
    }
  }

  lemma StillListsEdges(edges: EdgeMap, unsorted: seq<RankedEdge>, list: seq<RankedEdge>)
    requires ListsEdges(edges, unsorted)
    requires forall k :: 0 <= k < |list| ==> list[k] in unsorted
    requires forall k :: 0 <= k < |unsorted| ==> unsorted[k] in list
    ensures ListsEdges(edges, list)
  {
  }

  method RankEdges(edges: EdgeMap) returns (list: seq<RankedEdge>)
    ensures ListsEdges(edges, list) && Ordered(RankedBefore, list) && Distinct(list)
    ensures InRankOrder(list)
  {
    var unsorted := ListEdges(edges);
    list := Sort(RankedBefore, unsorted);
    SortKeeps(RankedBefore, unsorted);
    SortOrders(RankedBefore, unsorted);
    SortKeepsPositions(RankedBefore, unsorted, list);
    StillListsEdges(edges, unsorted, list);
    RankedInOrder(list);
  }

  function Plain(list: seq<RankedEdge>): (edges: seq<Edge>)
    ensures |edges| == |list| && forall k :: 0 <= k < |list| ==> edges[k] == (list[k].left, list[k].right)
  {
    seq(|list|, k requires 0 <= k < |list| => (list[k].left, list[k].right))
  }

  function EvidenceOf(listings: seq<VenueListing>): (evidence: seq<Evidence>)
    ensures |evidence| == |listings| && forall i :: 0 <= i < |listings| ==> evidence[i] == listings[i].evidence
  {
    seq(|listings|, i requires 0 <= i < |listings| => listings[i].evidence)
  }

  /** A point is kept exactly inside the bounds of the province; nothing else of a
      listing changes. */
  predicate Cleaned(raw: VenueListing, l: VenueListing) {
    && l == raw.(evidence := raw.evidence.(geo := l.evidence.geo))
    && match raw.evidence.geo
       case None => l.evidence.geo == None
       case Some(at) =>
         l.evidence.geo == if 40.7 <= at.lat && at.lat <= 41.7 && 27.9 <= at.lon && at.lon <= 29.95 then Some(at)
           else None
  }

  /** No venue holds two listings that rule each other out, and a collected edge
      is left unused only if its two venues hold such listings. */
  ghost predicate Settled(globe: Globe, listings: seq<VenueListing>, edges: EdgeMap, roots: seq<nat>) {
    && |roots| == |listings|
    && (forall x: nat, y: nat :: x < y < |listings| && roots[x] == roots[y] ==>
          MayShareVenue(globe, listings[x].evidence, listings[y].evidence))
    && (forall p :: p in edges ==>
          p.0 < |listings| && p.1 < |listings| && (roots[p.0] == roots[p.1] || RuledOut(globe, listings, roots, p)))
  }

  ghost predicate RuledOut(globe: Globe, listings: seq<VenueListing>, roots: seq<nat>, p: Edge)
    requires |roots| == |listings| && p.0 < |listings| && p.1 < |listings|
  {
    exists x: nat, y: nat :: x < |listings| && y < |listings| && roots[x] == roots[p.0] && roots[y] == roots[p.1]
      && !MayShareVenue(globe, listings[x].evidence, listings[y].evidence)
  }

  lemma VenuesAreSettled(globe: Globe, listings: seq<VenueListing>, edges: EdgeMap, list: seq<RankedEdge>)
    requires ListsEdges(edges, list) && InRange(Plain(list), |listings|)
    ensures Settled(globe, listings, edges, VenueRoots(ConflictsOn(globe), EvidenceOf(listings), Plain(list)))
  {
    var evidence, pairs := EvidenceOf(listings), Plain(list);
    var roots := VenueRoots(ConflictsOn(globe), evidence, pairs);
    ConflictsOnGlobeAreSymmetric(globe);
    forall x: nat, y: nat | x < y < |listings| && roots[x] == roots[y]
      ensures MayShareVenue(globe, listings[x].evidence, listings[y].evidence)
    {
      VenuesHoldNoConflict(ConflictsOn(globe), evidence, pairs, x, y);
      ConflictByFields(globe, evidence[x], evidence[y]);
    }
    forall p | p in edges
      ensures p.0 < |listings| && p.1 < |listings|
      ensures roots[p.0] == roots[p.1] || RuledOut(globe, listings, roots, p)
    {
      var k :| 0 <= k < |list| && list[k] == RankedEdge(p.0, p.1, edges[p]);
      assert pairs[k] == p;
      UnusedEdgesConflict(ConflictsOn(globe), evidence, pairs, k);
      if roots[p.0] != roots[p.1] {
        var x: nat, y: nat :| x < |roots| && y < |roots| && x != y && roots[x] == roots[p.0] && roots[y] == roots[p.1]
          && ConflictsOn(globe)(evidence[x], evidence[y]);
        ConflictByFields(globe, evidence[x], evidence[y]);
      }
    }
  }

  /** Placeholder points outside the bounds are unknown evidence. */
  function WithUsablePoint(l: VenueListing): VenueListing {
    if l.evidence.geo.Some? && !Usable(l.evidence.geo.value) then l.(evidence := l.evidence.(geo := None)) else l
  }

  function Cleansed(raw: seq<VenueListing>): (listings: seq<VenueListing>)
    ensures |listings| == |raw| && AllUsable(listings)
    ensures forall i :: 0 <= i < |raw| ==> listings[i] == WithUsablePoint(raw[i]) && Cleaned(raw[i], listings[i])
  {
    seq(|raw|, i requires 0 <= i < |raw| => WithUsablePoint(raw[i]))
  }

  method ResolveVenues(
      globe: Globe, raw: seq<VenueListing>) returns (listings: seq<VenueListing>, edges: EdgeMap, list: seq<RankedEdge>,
      sets: DisjointSet)
    requires Plausible(globe)
    ensures |listings| == |raw| && forall i :: 0 <= i < |raw| ==> listings[i] == WithUsablePoint(raw[i])
    ensures forall i :: 0 <= i < |raw| ==> Cleaned(raw[i], listings[i])
    ensures BestReasons(globe, listings, edges)
    ensures WithinCities(listings, edges)
    ensures forall i: nat, j: nat :: i < j < |listings| && SharesSeed(listings, i, j) ==>
      Offered(edges, i, j, SEED_PRIORITY)
    ensures NearPairsOffered(NearTest(globe, listings), |listings|, edges)
    ensures BucketsLinked(listings, ProviderKey, false, PROVIDER_PRIORITY, edges)
    ensures BucketsLinked(listings, CompactKey, true, COMPACT_PRIORITY, edges)
    ensures NamesLinked(listings, edges)
    ensures ListsEdges(edges, list) && Ordered(RankedBefore, list)
    ensures InRankOrder(list)
    ensures fresh(sets) && fresh(sets.parent) && sets.Valid() && InRange(Plain(list), |listings|)
    ensures Labels(sets.parent[..], VenueRoots(ConflictsOn(globe), EvidenceOf(listings), Plain(list)))
    ensures Settled(globe, listings, edges, VenueRoots(ConflictsOn(globe), EvidenceOf(listings), Plain(list)))
  {
    listings := Cleansed(raw);
    edges := CollectEdges(globe, listings);
    list := RankEdges(edges);
    sets := JoinVenues(ConflictsOn(globe), EvidenceOf(listings), Plain(list));
    VenuesAreSettled(globe, listings, edges, list);
  }

  /** A venue never spans two cities. */
  lemma VenuesStayInOneCity(
      globe: Globe, listings: seq<VenueListing>, edges: EdgeMap, list: seq<RankedEdge>, x: nat, y: nat)
    requires WithinCities(listings, edges) && ListsEdges(edges, list) && InRange(Plain(list), |listings|)
    requires x < |listings| && y < |listings|
    requires var roots := VenueRoots(ConflictsOn(globe), EvidenceOf(listings), Plain(list)); roots[x] == roots[y]
    ensures listings[x].city == listings[y].city
  {
    var city := (i: nat) => if i < |listings| then listings[i].city else "";
    var pairs := Plain(list);
    forall k | 0 <= k < |pairs| ensures city(pairs[k].0) == city(pairs[k].1) {
      assert (list[k].left, list[k].right) in edges;
    }
    LabelsFollowEdges(Singletons(|listings|), VenueClash(ConflictsOn(globe), EvidenceOf(listings)), pairs, city, x, y);
  }

  /** Near listings of one city that share a name word end in one venue unless
      the venues of the two hold a conflicting pair. */
  lemma NearListingsShareVenue(
      globe: Globe, listings: seq<VenueListing>, edges: EdgeMap, list: seq<RankedEdge>, i: nat, j: nat)
    requires NearPairsOffered(NearTest(globe, listings), |listings|, edges) && ListsEdges(edges, list)
    requires InRange(Plain(list), |listings|)
    requires i < j < |listings| && Near(globe, listings, i, j)
    ensures var roots := VenueRoots(ConflictsOn(globe), EvidenceOf(listings), Plain(list));
      roots[i] == roots[j] <==> !HoldConflict(ConflictsOn(globe), EvidenceOf(listings), roots, i, j)
  {
    ConflictsOnGlobeAreSymmetric(globe);
    assert Offered(edges, i, j, GEO_PRIORITY);
    var k :| 0 <= k < |list| && list[k] == RankedEdge(i, j, edges[(i, j)]);
    UnusedEdgesConflict(ConflictsOn(globe), EvidenceOf(listings), Plain(list), k);
  }
}
