/** Offering candidate edges: stars, chains and pairs over the listings that share
    a provider's venue id, a compact name or a reviewed seed. */
module VenueLinks {
  import opened Listings
  import opened GuardedClustering
  import opened Venues
  import opened VenueReasons
  import opened Buckets

  /** Collected edges with the best priority offered for each. */
  type EdgeMap = map<Edge, nat>

  function Oriented(left: nat, right: nat): Edge {
    if left > right then (right, left) else (left, right)
  }

  function AddEdge(edges: EdgeMap, left: nat, right: nat, priority: nat): EdgeMap {
    var key := Oriented(left, right);
    if key !in edges || priority < edges[key] then edges[key := priority] else edges
  }

  /** Nothing offered earlier is lost or loses priority. */
  ghost predicate Extends(before: EdgeMap, after: EdgeMap) {
    forall p :: p in before ==> p in after && after[p] <= before[p]
  }

  /** The edge was there before, at the same priority. */
  ghost predicate Kept(before: EdgeMap, after: EdgeMap, p: Edge)
    requires p in after
  {
    p in before && after[p] == before[p]
  }

  ghost predicate Offered(edges: EdgeMap, left: nat, right: nat, priority: nat) {
    Oriented(left, right) in edges && edges[Oriented(left, right)] <= priority
  }

  /** Why a pair may be offered at a priority. */
  type Reasons = (Edge, nat) -> bool

  /** Nothing is lost, and whatever is new or better was offered for a reason. */
  ghost predicate OfferedFor(before: EdgeMap, after: EdgeMap, reasons: Reasons) {
    && Extends(before, after)
    && forall p :: p in after ==> Kept(before, after, p) || reasons(p, after[p])
  }

  /** Whatever there is a reason for was offered, and nothing else was. */
  ghost predicate OffersExactly(before: EdgeMap, after: EdgeMap, reasons: Reasons) {
    && OfferedFor(before, after, reasons)
    && forall p, priority: nat :: reasons(p, priority) ==> p in after && after[p] <= priority
  }

  // ---- stars, chains and pairs ----

  ghost predicate ReasonsForStar(bucket: seq<nat>, priority: nat, reasons: Reasons) {
    forall k :: 1 <= k < |bucket| ==> reasons(Oriented(bucket[0], bucket[k]), priority)
  }

  ghost predicate ReasonsForChain(bucket: seq<nat>, priority: nat, reasons: Reasons) {
    forall h, k :: 0 <= h && h + 1 == k < |bucket| ==> reasons(Oriented(bucket[h], bucket[k]), priority)
  }

  ghost predicate ReasonsForHub(left: seq<nat>, hub: nat, priority: nat, reasons: Reasons) {
    forall k :: 0 <= k < |left| ==> reasons(Oriented(left[k], hub), priority)
  }

  ghost predicate ReasonsForPairs(
      left: seq<nat>, right: seq<nat>, admissible: (nat, nat) -> bool, priority: nat, reasons: Reasons) {
    forall i, j :: 0 <= i < |left| && 0 <= j < |right| && left[i] != right[j] && admissible(left[i], right[j]) ==>
      reasons(Oriented(left[i], right[j]), priority)
  }

  ghost predicate ReasonsForAll(left: seq<nat>, right: seq<nat>, priority: nat, reasons: Reasons) {
    if |left| * |right| > LINK_ALL_LIMIT
    then right != [] && ReasonsForChain(right, priority, reasons) && ReasonsForHub(left, right[0], priority, reasons)
    else ReasonsForPairs(left, right, (a, b) => true, priority, reasons)
  }

  /** The first listing of a bucket with every other one. */
  method LinkToFirst(bucket: seq<nat>, priority: nat, edges0: EdgeMap, ghost reasons: Reasons) returns (edges: EdgeMap)
    requires ReasonsForStar(bucket, priority, reasons)
    ensures OfferedFor(edges0, edges, reasons)
    ensures forall k :: 1 <= k < |bucket| ==> Offered(edges, bucket[0], bucket[k], priority)
  {
    edges := edges0;
    for index := 0 to |bucket|
      invariant OfferedFor(edges0, edges, reasons)
      invariant forall k :: 1 <= k < index ==> Offered(edges, bucket[0], bucket[k], priority)
    {
      if index > 0 {
        edges := AddEdge(edges, bucket[0], bucket[index], priority);
      }
    }
  }

  /** Each listing of a bucket with the one before it. */
  method LinkChain(bucket: seq<nat>, priority: nat, edges0: EdgeMap, ghost reasons: Reasons) returns (edges: EdgeMap)
    requires ReasonsForChain(bucket, priority, reasons)
    ensures OfferedFor(edges0, edges, reasons)
    ensures forall h, k :: 0 <= h && h + 1 == k < |bucket| ==> Offered(edges, bucket[h], bucket[k], priority)
  {
    edges := edges0;
    for index := 0 to |bucket|
      invariant OfferedFor(edges0, edges, reasons)
      invariant forall h, k :: 0 <= h && h + 1 == k < index ==> Offered(edges, bucket[h], bucket[k], priority)
    {
      if index > 0 {
        edges := AddEdge(edges, bucket[index - 1], bucket[index], priority);
      }
    }
  }

  /** Every admissible pair of distinct members, one from each side. */
  method LinkPairs(
      left: seq<nat>, right: seq<nat>, admissible: (nat, nat) -> bool, priority: nat, edges0: EdgeMap,
      ghost reasons: Reasons) returns (edges: EdgeMap)
    requires ReasonsForPairs(left, right, admissible, priority, reasons)
    ensures OfferedFor(edges0, edges, reasons)
    ensures forall a, b :: a in left && b in right && a != b && admissible(a, b) ==> Offered(edges, a, b, priority)
  {
    edges := edges0;
    for i := 0 to |left|
      invariant OfferedFor(edges0, edges, reasons)
      invariant forall a, b :: a in left[..i] && b in right && a != b && admissible(a, b) ==>
        Offered(edges, a, b, priority)
    {
      for j := 0 to |right|
        invariant OfferedFor(edges0, edges, reasons)
        invariant forall a, b :: a in left[..i] && b in right && a != b && admissible(a, b) ==>
          Offered(edges, a, b, priority)
        invariant forall b :: b in right[..j] && left[i] != b && admissible(left[i], b) ==>
          Offered(edges, left[i], b, priority)
      {
        if left[i] != right[j] && admissible(left[i], right[j]) {
          edges := AddEdge(edges, left[i], right[j], priority);
        }
      }
    }
    assert left[..|left|] == left;
  }

  method LinkToHub(
      left: seq<nat>, hub: nat, priority: nat, edges0: EdgeMap, ghost reasons: Reasons)
    returns (edges: EdgeMap)
    requires ReasonsForHub(left, hub, priority, reasons)
    ensures OfferedFor(edges0, edges, reasons)
    ensures forall k :: 0 <= k < |left| ==> Offered(edges, left[k], hub, priority)
  {
    edges := edges0;
    for i := 0 to |left|
      invariant OfferedFor(edges0, edges, reasons)
      invariant forall k :: 0 <= k < i ==> Offered(edges, left[k], hub, priority)
    {
      edges := AddEdge(edges, left[i], hub, priority);
    }
  }

  ghost predicate LinkedToFirst(edges: EdgeMap, bucket: seq<nat>, priority: nat) {
    forall k :: 1 <= k < |bucket| ==> Offered(edges, bucket[0], bucket[k], priority)
  }

  ghost predicate Chained(edges: EdgeMap, bucket: seq<nat>, priority: nat) {
    forall h, k :: 0 <= h && h + 1 == k < |bucket| ==> Offered(edges, bucket[h], bucket[k], priority)
  }

  /** Every pair across two groups, or a chain through one and a star to its head. */
  ghost predicate LinkedAll(edges: EdgeMap, left: seq<nat>, right: seq<nat>, priority: nat) {
    if |left| * |right| <= LINK_ALL_LIMIT then forall a, b :: a in left && b in right && a != b ==>
      Offered(edges, a, b, priority)
    else |right| > 0 && Chained(edges, right, priority) && forall k :: 0 <= k < |left| ==>
      Offered(edges, left[k], right[0], priority)
  }

  lemma LinksStay(before: EdgeMap, after: EdgeMap, left: seq<nat>, right: seq<nat>, priority: nat)
    requires Extends(before, after)
    ensures LinkedToFirst(before, left, priority) ==> LinkedToFirst(after, left, priority)
    ensures Chained(before, left, priority) ==> Chained(after, left, priority)
    ensures LinkedAll(before, left, right, priority) ==> LinkedAll(after, left, right, priority)
  {
    forall i: nat, j: nat | Offered(before, i, j, priority) ensures Offered(after, i, j, priority) {
    }
  }

  /** Links two name groups pair by pair, or by a chain and a star when there
      are too many pairs. */
  method LinkAll(
      left: seq<nat>, right: seq<nat>, priority: nat, edges0: EdgeMap, ghost reasons: Reasons)
    returns (edges: EdgeMap)
    requires |right| > 0 && ReasonsForAll(left, right, priority, reasons)
    ensures OfferedFor(edges0, edges, reasons)
    ensures LinkedAll(edges, left, right, priority)
  {
    if |left| * |right| > LINK_ALL_LIMIT {
      var chained := LinkChain(right, priority, edges0, reasons);
      edges := LinkToHub(left, right[0], priority, chained, reasons);
      LinksStay(chained, edges, right, right, priority);
    } else {
      edges := LinkPairs(left, right, (a, b) => true, priority, edges0, reasons);
    }
  }

  // ---- listings that share a key ----

  function Keyed(text: string, key: (string, string, string)): Option<(string, string, string)> {
    if text == "" then None else Some(key)
  }

  /** Bucket keys. */
  function ProviderKey(l: VenueListing): Option<(string, string, string)> {
    Keyed(l.venueIdKey, (l.city, l.evidence.provider, l.venueIdKey))
  }

  function SeedKey(l: VenueListing): Option<(string, string, string)> {
    Keyed(l.seed, (l.city, "seed", l.seed))
  }

  function CompactKey(l: VenueListing): Option<(string, string, string)> {
    Keyed(l.compact, (l.city, "compact", l.compact))
  }

  function NameKey(l: VenueListing): Option<(string, string, string)> {
    Keyed(l.distinctive.key, (l.city, "name", l.distinctive.key))
  }

  type KeyFunction = VenueListing -> Option<(string, string, string)>

  function Keys(listings: seq<VenueListing>, key: KeyFunction): (keys: seq<Option<(string, string, string)>>)
    ensures |keys| == |listings|
  {
    seq(|listings|, i requires 0 <= i < |listings| => key(listings[i]))
  }

  /** The key tells which listings are alike. */
  ghost predicate Tells(key: KeyFunction, alike: Likeness) {
    forall l, m :: alike(l, m) <==> key(l).Some? && key(l) == key(m)
  }

  /** The first of the listings that are alike with the others and, when asked,
      each of them with the next. */
  ghost function BucketReasons(listings: seq<VenueListing>, alike: Likeness, chain: bool, priority: nat): Reasons {
    (p: Edge, q: nat) => q == priority
      && (FirstAnd(listings, alike, p.0, p.1) || (chain && Next(listings, alike, p.0, p.1)))
  }

  /** The bucket of a listing. */
  function BucketOf(listings: seq<VenueListing>, key: KeyFunction, i: nat): seq<nat>
    requires i < |listings| && key(listings[i]).Some?
  {
    MembersOf(Keys(listings, key), key(listings[i]).value, |listings|)
  }

  lemma BucketHolds(listings: seq<VenueListing>, key: KeyFunction, alike: Likeness, i: nat)
    requires Tells(key, alike) && i < |listings| && key(listings[i]).Some?
    ensures Rising(BucketOf(listings, key, i)) && i in BucketOf(listings, key, i)
    ensures forall k: nat :: k in BucketOf(listings, key, i) <==> k < |listings| && alike(listings[i], listings[k])
  {
    var keys := Keys(listings, key);
    MembersExact(keys, key(listings[i]).value, |keys|);
    MembersAscend(keys, key(listings[i]).value, |keys|);
    assert forall k :: 0 <= k < |listings| ==> keys[k] == key(listings[k]);
  }

  /** The star and the chain of a bucket, place by place. */
  lemma BucketPlaces(listings: seq<VenueListing>, key: KeyFunction, alike: Likeness, i: nat)
    requires Tells(key, alike) && i < |listings| && key(listings[i]).Some?
    ensures var bucket := BucketOf(listings, key, i);
      && bucket != [] && First(listings, alike, bucket[0])
      && (forall k :: 1 <= k < |bucket| ==> FirstAnd(listings, alike, bucket[0], bucket[k]))
      && (forall h, k :: 0 <= h && h + 1 == k < |bucket| ==> Next(listings, alike, bucket[h], bucket[k]))
  {
    var bucket := BucketOf(listings, key, i);
    BucketHolds(listings, key, alike, i);
    assert forall k :: 0 <= k < |bucket| ==> bucket[k] in bucket;
    forall x | 0 <= x < bucket[0] ensures !alike(listings[x], listings[bucket[0]]) {
      assert x !in bucket;
    }
    forall h, k | 0 <= h && h + 1 == k < |bucket| ensures Next(listings, alike, bucket[h], bucket[k]) {
      forall x | bucket[h] < x < bucket[k] ensures !alike(listings[x], listings[bucket[h]]) {
        NothingBetween(bucket, k, x);
      }
    }
  }

  lemma BucketFor(
      listings: seq<VenueListing>, key: KeyFunction, alike: Likeness, i: nat, chain: bool, priority: nat)
    requires Tells(key, alike) && i < |listings| && key(listings[i]).Some?
    ensures var bucket, reasons := BucketOf(listings, key, i), BucketReasons(listings, alike, chain, priority);
      && ReasonsForStar(bucket, priority, reasons)
      && (chain ==> ReasonsForChain(bucket, priority, reasons))
  {
    BucketPlaces(listings, key, alike, i);
  }

  /** Every reason of a bucket was offered. */
  lemma BucketCovers(
      listings: seq<VenueListing>, key: KeyFunction, alike: Likeness, chain: bool, priority: nat, edges: EdgeMap,
      p: Edge)
    requires Tells(key, alike) && BucketsLinked(listings, key, chain, priority, edges)
    requires BucketReasons(listings, alike, chain, priority)(p, priority)
    ensures p in edges && edges[p] <= priority
  {
    var bucket := BucketOf(listings, key, p.0);
    assert BucketLinked(bucket, chain, priority, edges);
    BucketHolds(listings, key, alike, p.0);
    if FirstAnd(listings, alike, p.0, p.1) {
      BucketPlaces(listings, key, alike, p.0);
      assert bucket[0] in bucket && bucket[0] <= p.0;
      var k :| 0 <= k < |bucket| && bucket[k] == p.1;
      assert Offered(edges, bucket[0], bucket[k], priority);
    } else {
      forall x: nat | p.0 < x < p.1 ensures x !in bucket {
        assert !alike(listings[x], listings[p.0]);
      }
      var k := NextPlace(bucket, p.0, p.1);
      assert Offered(edges, bucket[k - 1], bucket[k], priority);
    }
  }

  /** Links the first listing of every bucket with the others, and when asked
      each listing with the one before it. */
  method LinkBuckets(
      listings: seq<VenueListing>, key: KeyFunction, chain: bool, priority: nat, edges0: EdgeMap, ghost alike: Likeness)
    returns (edges: EdgeMap)
    requires Tells(key, alike)
    ensures OffersExactly(edges0, edges, BucketReasons(listings, alike, chain, priority))
    ensures BucketsLinked(listings, key, chain, priority, edges)
  {
    var groups, names := GroupByKey(Keys(listings, key));
    ghost var reasons := BucketReasons(listings, alike, chain, priority);
    edges := edges0;
    for g := 0 to |groups|
      invariant OfferedFor(edges0, edges, reasons)
      invariant forall h :: 0 <= h < g ==> BucketLinked(groups[h], chain, priority, edges)
    {
      ghost var before := edges;
      GroupIsBucket(listings, key, groups, names, g);
      BucketFor(listings, key, alike, groups[g][0], chain, priority);
      edges := LinkBucket(groups[g], chain, priority, edges, reasons);
      forall h | 0 <= h < g ensures BucketLinked(groups[h], chain, priority, edges) {
        LinksStay(before, edges, groups[h], groups[h], priority);
      }
    }
    forall i | 0 <= i < |listings| && key(listings[i]).Some?
      ensures BucketLinked(MembersOf(Keys(listings, key), key(listings[i]).value, |listings|), chain, priority, edges)
    {
      assert Keys(listings, key)[i] == key(listings[i]);
      var g :| 0 <= g < |names| && names[g] == key(listings[i]).value;
      assert BucketLinked(groups[g], chain, priority, edges);
    }
    forall p | reasons(p, priority) ensures p in edges && edges[p] <= priority {
      BucketCovers(listings, key, alike, chain, priority, edges, p);
    }
  }

  /** Every group is the bucket of its first listing. */
  lemma GroupIsBucket(
      listings: seq<VenueListing>, key: KeyFunction, groups: seq<seq<nat>>, names: seq<(string, string, string)>,
      g: nat)
    requires GroupedByKey(Keys(listings, key), |listings|, groups, names) && g < |groups|
    ensures groups[g] != [] && groups[g][0] < |listings| && key(listings[groups[g][0]]).Some?
    ensures groups[g] == BucketOf(listings, key, groups[g][0])
  {
    var keys := Keys(listings, key);
    MembersExact(keys, names[g], |keys|);
    assert groups[g][0] in groups[g];
    assert keys[groups[g][0]] == key(listings[groups[g][0]]);
  }

  ghost predicate BucketLinked(bucket: seq<nat>, chain: bool, priority: nat, edges: EdgeMap) {
    LinkedToFirst(edges, bucket, priority) && (chain ==> Chained(edges, bucket, priority))
  }

  /** In every bucket the first listing is linked with each other one. */
  ghost predicate BucketsLinked(
      listings: seq<VenueListing>, key: KeyFunction, chain: bool, priority: nat, edges: EdgeMap) {
    forall i :: 0 <= i < |listings| && key(listings[i]).Some? ==>
      BucketLinked(MembersOf(Keys(listings, key), key(listings[i]).value, |listings|), chain, priority, edges)
  }

  lemma BucketsStayLinked(
      listings: seq<VenueListing>, key: KeyFunction, chain: bool, priority: nat, before: EdgeMap, after: EdgeMap)
    requires BucketsLinked(listings, key, chain, priority, before) && Extends(before, after)
    ensures BucketsLinked(listings, key, chain, priority, after)
  {
    forall i | 0 <= i < |listings| && key(listings[i]).Some?
      ensures BucketLinked(MembersOf(Keys(listings, key), key(listings[i]).value, |listings|), chain, priority, after)
    {
      var bucket := MembersOf(Keys(listings, key), key(listings[i]).value, |listings|);
      LinksStay(before, after, bucket, bucket, priority);
    }
  }

  method LinkBucket(bucket: seq<nat>, chain: bool, priority: nat, edges0: EdgeMap, ghost reasons: Reasons)
    returns (edges: EdgeMap)
    requires ReasonsForStar(bucket, priority, reasons)
    requires chain ==> ReasonsForChain(bucket, priority, reasons)
    ensures OfferedFor(edges0, edges, reasons) && BucketLinked(bucket, chain, priority, edges)
  {
    edges := LinkToFirst(bucket, priority, edges0, reasons);
    if chain {
      ghost var before := edges;
      edges := LinkChain(bucket, priority, edges, reasons);
      LinksStay(before, edges, bucket, bucket, priority);
    }
  }

  // ---- reviewed seeds ----

  function CompatiblePlaces(listings: seq<VenueListing>): (nat, nat) -> bool {
    (a: nat, b: nat) =>
      a < |listings| && b < |listings| && !LocationConflict(listings[a].evidence, listings[b].evidence)
  }

  /** Every compatible pair of the group has been offered. */
  ghost predicate GroupLinked(admissible: (nat, nat) -> bool, group: seq<nat>, priority: nat, edges: EdgeMap) {
    forall a, b :: a in group && b in group && a != b && admissible(a, b) ==> Offered(edges, a, b, priority)
  }

  lemma GroupStaysLinked(
      admissible: (nat, nat) -> bool, group: seq<nat>, priority: nat, before: EdgeMap, after: EdgeMap)
    requires GroupLinked(admissible, group, priority, before) && Extends(before, after)
    ensures GroupLinked(admissible, group, priority, after)
  {
  }

  ghost predicate FirstGroupsLinked(admissible: (nat, nat) -> bool, groups: seq<seq<nat>>, n: nat, edges: EdgeMap)
    requires n <= |groups|
  {
    forall h :: 0 <= h < n ==> GroupLinked(admissible, groups[h], SEED_PRIORITY, edges)
  }

  lemma FirstGroupsStay(admissible: (nat, nat) -> bool, groups: seq<seq<nat>>, n: nat, before: EdgeMap, after: EdgeMap)
    requires n < |groups| && FirstGroupsLinked(admissible, groups, n, before) && Extends(before, after)
    requires GroupLinked(admissible, groups[n], SEED_PRIORITY, after)
    ensures FirstGroupsLinked(admissible, groups, n + 1, after)
  {
    forall h | 0 <= h < n ensures GroupLinked(admissible, groups[h], SEED_PRIORITY, after) {
      GroupStaysLinked(admissible, groups[h], SEED_PRIORITY, before, after);
    }
  }

  /** One reviewed seed, and places that agree. */
  ghost function SeedReasons(listings: seq<VenueListing>): Reasons {
    (p: Edge, q: nat) => q == SEED_PRIORITY && p.0 < p.1 < |listings|
      && SameSeed(listings[p.0], listings[p.1]) && PlacesAgree(listings[p.0].evidence, listings[p.1].evidence)
  }

  lemma SeedsByFields(listings: seq<VenueListing>, i: nat, j: nat)
    requires i < |listings| && j < |listings|
    ensures SharesSeed(listings, i, j)
       <==> SameSeed(listings[i], listings[j]) && PlacesAgree(listings[i].evidence, listings[j].evidence)
    ensures SharesSeed(listings, i, j) <==> SharesSeed(listings, j, i)
  {
    SeedKeyTells();
    LocationsByFields(listings[i].evidence, listings[j].evidence);
    LocationsByFields(listings[j].evidence, listings[i].evidence);
  }

  lemma SeedKeyTells()
    ensures Tells(SeedKey, SameSeed)
  {
  }

  lemma SeedGroupFor(listings: seq<VenueListing>, groups: seq<seq<nat>>, names: seq<(string, string, string)>, g: nat)
    requires GroupedByKey(Keys(listings, SeedKey), |listings|, groups, names) && g < |groups|
    ensures ReasonsForPairs(
      groups[g], groups[g], CompatiblePlaces(listings), SEED_PRIORITY, SeedReasons(listings))
  {
    GroupIsBucket(listings, SeedKey, groups, names, g);
    SeedKeyTells();
    BucketHolds(listings, SeedKey, SameSeed, groups[g][0]);
    var group, reasons := groups[g], SeedReasons(listings);
    forall i, j | 0 <= i < |group| && 0 <= j < |group| && group[i] != group[j]
        && CompatiblePlaces(listings)(group[i], group[j])
      ensures reasons(Oriented(group[i], group[j]), SEED_PRIORITY)
    {
      assert group[i] in group && group[j] in group;
      SeedsByFields(listings, group[i], group[j]);
      SeedsByFields(listings, group[j], group[i]);
    }
  }

  method LinkSeedGroup(listings: seq<VenueListing>, group: seq<nat>, edges0: EdgeMap) returns (edges: EdgeMap)
    requires ReasonsForPairs(group, group, CompatiblePlaces(listings), SEED_PRIORITY, SeedReasons(listings))
    ensures OfferedFor(edges0, edges, SeedReasons(listings))
    ensures GroupLinked(CompatiblePlaces(listings), group, SEED_PRIORITY, edges)
  {
    edges := LinkPairs(group, group, CompatiblePlaces(listings), SEED_PRIORITY, edges0, SeedReasons(listings));
  }

  /** Links every pair of one reviewed seed whose places are compatible. */
  method LinkSeeds(listings: seq<VenueListing>, edges0: EdgeMap) returns (edges: EdgeMap)
    ensures OffersExactly(edges0, edges, SeedReasons(listings))
    ensures forall i: nat, j: nat :: i < j < |listings| && SharesSeed(listings, i, j) ==>
      Offered(edges, i, j, SEED_PRIORITY)
  {
    var groups, names := GroupByKey(Keys(listings, SeedKey));
    edges := edges0;
    for g := 0 to |groups|
      invariant OfferedFor(edges0, edges, SeedReasons(listings))
      invariant FirstGroupsLinked(CompatiblePlaces(listings), groups, g, edges)
    {
      ghost var before := edges;
      SeedGroupFor(listings, groups, names, g);
      edges := LinkSeedGroup(listings, groups[g], edges);
      FirstGroupsStay(CompatiblePlaces(listings), groups, g, before, edges);
    }
    AllSeedsLinked(listings, groups, names, edges);
    forall p | SeedReasons(listings)(p, SEED_PRIORITY) ensures p in edges && edges[p] <= SEED_PRIORITY {
      SeedsByFields(listings, p.0, p.1);
      assert Offered(edges, p.0, p.1, SEED_PRIORITY);
    }
  }

  /** Listings of one city and one reviewed seed with compatible places. */
  predicate SharesSeed(listings: seq<VenueListing>, i: nat, j: nat)
    requires i < |listings| && j < |listings|
  {
    SeedKey(listings[i]).Some? && SeedKey(listings[i]) == SeedKey(listings[j]) && CompatiblePlaces(listings)(i, j)
  }

  lemma AllSeedsLinked(
      listings: seq<VenueListing>, groups: seq<seq<nat>>, names: seq<(string, string, string)>, edges: EdgeMap)
    requires GroupedByKey(Keys(listings, SeedKey), |listings|, groups, names)
    requires forall h :: 0 <= h < |groups| ==> GroupLinked(CompatiblePlaces(listings), groups[h], SEED_PRIORITY, edges)
    ensures forall i: nat, j: nat :: i < j < |listings| && SharesSeed(listings, i, j) ==>
      Offered(edges, i, j, SEED_PRIORITY)
  {
    var keys := Keys(listings, SeedKey);
    forall i: nat, j: nat | i < j < |listings| && SharesSeed(listings, i, j)
      ensures Offered(edges, i, j, SEED_PRIORITY)
    {
      assert keys[i] == SeedKey(listings[i]) && keys[j] == SeedKey(listings[j]);
      var g :| 0 <= g < |names| && names[g] == keys[i].value;
      MembersExact(keys, names[g], |keys|);
      assert GroupLinked(CompatiblePlaces(listings), groups[g], SEED_PRIORITY, edges);
    }
  }
}
