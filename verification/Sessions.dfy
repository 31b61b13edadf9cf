/** Session resolution: pairwise decisions inside each city and instant, then
    guarded joining of the accepted pairs. */
module Sessions {
  import opened Listings
  import opened UnionFind
  import opened GuardedClustering
  import opened Sorting

  /** Listings in identifier order with their resolved venues. */
  datatype Input = Input(listings: seq<Listing>, venues: seq<string>, contains: Contains) {
    ghost predicate Valid() {
      && |venues| == |listings|
      && forall i, j :: 0 <= i < j < |listings| ==> listings[i].listingId != listings[j].listingId
    }
  }

  datatype Decision = Decision(left: nat, right: nat, outcome: Outcome, rule: Rule)

  // ---- which pairs are decided, and how ----

  /** Listings are compared only inside one bucket. */
  datatype BucketKey = At(city: string, instant: int) | Invalid(listingId: string)

  function KeyOf(listing: Listing): BucketKey {
    match listing.startsAt
    case Some(instant) => At(listing.city, instant)
    case None => Invalid(listing.listingId)
  }

  /** The indexes below n with the given key, ascending. */
  function IndexesOf(listings: seq<Listing>, key: BucketKey, n: nat): seq<nat>
    requires n <= |listings|
  {
    if n == 0 then []
    else if KeyOf(listings[n - 1]) == key then IndexesOf(listings, key, n - 1) + [n - 1]
    else IndexesOf(listings, key, n - 1)
  }

  predicate Ascending(indexes: seq<nat>, n: nat) {
    && (forall k :: 0 <= k < |indexes| ==> indexes[k] < n)
    && forall x, y :: 0 <= x < y < |indexes| ==> indexes[x] < indexes[y]
  }

  lemma {:induction false} IndexesOfExact(listings: seq<Listing>, key: BucketKey, n: nat)
    requires n <= |listings|
    ensures Ascending(IndexesOf(listings, key, n), n)
    ensures forall i: nat :: i in IndexesOf(listings, key, n) <==> i < n && KeyOf(listings[i]) == key
  {
    if n > 0 { IndexesOfExact(listings, key, n - 1); }
  }

  lemma NoIndexes(listings: seq<Listing>, key: BucketKey, n: nat)
    requires n <= |listings| && forall i :: 0 <= i < n ==> KeyOf(listings[i]) != key
    ensures IndexesOf(listings, key, n) == []
  {
  }

  predicate InFamily(input: Input, candidate: nat, left: nat)
    requires |input.venues| == |input.listings| && candidate < |input.listings| && left < |input.listings|
  {
    var c, l := input.listings[candidate], input.listings[left];
    && input.venues[candidate] == input.venues[left]
    && (TitlesMatch(c, l) || input.contains(c, l) || SeedsMatch(l, c))
  }

  /** The listings of left's bucket and venue that share its title. */
  function Family(input: Input, indexes: seq<nat>, left: nat): seq<Listing>
    requires |input.venues| == |input.listings| && left < |input.listings|
    requires forall k :: 0 <= k < |indexes| ==> indexes[k] < |input.listings|
  {
    if indexes == [] then []
    else
      (if InFamily(input, indexes[0], left) then [input.listings[indexes[0]]] else [])
      + Family(input, indexes[1..], left)
  }

  /** The decision published for a pair of one bucket, or None when the pair is
      not compared. */
  function Decide(input: Input, indexes: seq<nat>, i: nat, j: nat): Option<Verdict>
    requires |input.venues| == |input.listings| && i < |input.listings| && j < |input.listings|
    requires forall k :: 0 <= k < |indexes| ==> indexes[k] < |input.listings|
  {
    var left, right := input.listings[i], input.listings[j];
    var sameVenue := input.venues[i] == input.venues[j];
    var titled := TitlesMatch(left, right) || input.contains(left, right) || SeedsMatch(left, right);
    if !sameVenue && !titled then None
    else
      var verdict := AssessIdentityPair(input.contains, left, right, input.venues[i], input.venues[j]);
      if sameVenue && titled && verdict.outcome != NeverMerge then
        var family := Family(input, indexes, i);
        var leftTag, rightTag := AggregatePolicyTag(left, family), AggregatePolicyTag(right, family);
        if leftTag.Some? && leftTag != rightTag then Some(Verdict(NeverMerge, PolicyConflict)) else Some(verdict)
      else Some(verdict)
  }

  /** A decision for some of the pairs (x, y) with x < y. */
  type Verdicts = (nat, nat) -> Option<Verdict>

  /** x and y were decided to be one session. */
  predicate Accepts(verdicts: Verdicts, x: nat, y: nat) {
    var verdict := if x < y then verdicts(x, y) else verdicts(y, x);
    x != y && verdict.Some? && Merging(verdict.value.outcome)
  }

  /** Two listings that may never share a session. */
  ghost function Clash(listings: seq<Listing>, verdicts: Verdicts): (nat, nat) -> bool {
    (x: nat, y: nat) =>
      && x < |listings| && y < |listings|
      && (listings[x].provider == listings[y].provider || !Accepts(verdicts, x, y))
  }

  /** The components left by trying the pairs in order. */
  ghost function FinalRoots(listings: seq<Listing>, verdicts: Verdicts, pairs: seq<Edge>): seq<nat>
    requires InRange(pairs, |listings|)
  {
    Run(Singletons(|listings|), Clash(listings, verdicts), pairs)
  }

  // ---- recording the decisions ----

  /** slot maps a decided pair to its position in the decision list. */
  ghost predicate Records(n: nat, decisions: seq<Decision>, slot: map<Edge, nat>) {
    forall p :: p in slot ==>
      p.0 < p.1 < n && slot[p] < |decisions| && decisions[slot[p]].left == p.0 && decisions[slot[p]].right == p.1
  }

  /** Every listed decision is recorded at its own position. */
  ghost predicate Indexed(decisions: seq<Decision>, slot: map<Edge, nat>) {
    forall k :: 0 <= k < |decisions| ==>
      (decisions[k].left, decisions[k].right) in slot && slot[(decisions[k].left, decisions[k].right)] == k
  }

  /** Every recorded decision is the one the rules give. */
  ghost predicate AsDecided(n: nat, verdicts: Verdicts, decisions: seq<Decision>, slot: map<Edge, nat>) {
    && Records(n, decisions, slot) && Indexed(decisions, slot)
    && forall p :: p in slot ==>
      verdicts(p.0, p.1) == Some(Verdict(decisions[slot[p]].outcome, decisions[slot[p]].rule))
  }

  /** accepted lists the merging decisions, each once. */
  ghost predicate ListsAccepted(verdicts: Verdicts, slot: map<Edge, nat>, accepted: seq<Edge>) {
    && (forall k :: 0 <= k < |accepted| ==> accepted[k] in slot && Accepts(verdicts, accepted[k].0, accepted[k].1))
    && (forall p :: p in slot && Accepts(verdicts, p.0, p.1) ==> p in accepted)
    && (forall x, y :: 0 <= x < y < |accepted| ==> accepted[x] != accepted[y])
  }

  method BuildBuckets(listings: seq<Listing>) returns (order: seq<BucketKey>, buckets: map<BucketKey, seq<nat>>)
    ensures forall i :: 0 <= i < |listings| ==> KeyOf(listings[i]) in buckets
    ensures forall x, y :: 0 <= x < y < |order| ==> order[x] != order[y]
    ensures forall key :: key in order <==> key in buckets
    ensures forall key :: key in buckets ==> buckets[key] == IndexesOf(listings, key, |listings|)
  {
    order, buckets := [], map[];
    for index := 0 to |listings|
      invariant forall i :: 0 <= i < index ==> KeyOf(listings[i]) in buckets
      invariant forall x, y :: 0 <= x < y < |order| ==> order[x] != order[y]
      invariant forall key :: key in order <==> key in buckets
      invariant forall key :: key in buckets ==> buckets[key] == IndexesOf(listings, key, index)
    {
      var key := KeyOf(listings[index]);
      if key in buckets {
        buckets := buckets[key := buckets[key] + [index]];
      } else {
        NoIndexes(listings, key, index);
        order := order + [key];
        buckets := buckets[key := [index]];
      }
    }
  }

  /** Record one pair. */
  method RecordPair(n: nat, verdicts: Verdicts, left: nat, right: nat,
                    decisions0: seq<Decision>, slot0: map<Edge, nat>, accepted0: seq<Edge>)
    returns (decisions: seq<Decision>, slot: map<Edge, nat>, accepted: seq<Edge>)
    requires left < right < n && (left, right) !in slot0
    requires AsDecided(n, verdicts, decisions0, slot0) && ListsAccepted(verdicts, slot0, accepted0)
    ensures AsDecided(n, verdicts, decisions, slot) && ListsAccepted(verdicts, slot, accepted)
    ensures slot.Keys == slot0.Keys + if verdicts(left, right).Some? then {(left, right)} else {}
  {
    decisions, slot, accepted := decisions0, slot0, accepted0;
    var verdict := verdicts(left, right);
    if verdict.Some? {
      slot := slot[(left, right) := |decisions|];
      decisions := decisions + [Decision(left, right, verdict.value.outcome, verdict.value.rule)];
      if Merging(verdict.value.outcome) {
        accepted := accepted + [(left, right)];
        assert (left, right) in accepted;
      }
    }
  }

  /** The pair has been looked at: its first place is before i, or is i and its
      second place is before j. */
  ghost predicate Seen(indexes: seq<nat>, i: nat, j: nat, p: Edge) {
    exists a, b :: 0 <= a <= i && a < b < |indexes| && (a < i || b < j) && p == (indexes[a], indexes[b])
  }

  lemma SeenNext(indexes: seq<nat>, i: nat, j: nat, p: Edge)
    requires i < j < |indexes|
    ensures Seen(indexes, i, j + 1, p) <==> Seen(indexes, i, j, p) || p == (indexes[i], indexes[j])
  {
  }

  lemma SeenRow(indexes: seq<nat>, i: nat, p: Edge)
    requires i < |indexes|
    ensures Seen(indexes, i, |indexes|, p) <==> Seen(indexes, i + 1, i + 2, p)
  {
  }

  lemma SeenAll(indexes: seq<nat>, n: nat, p: Edge)
    requires Ascending(indexes, n)
    ensures Seen(indexes, |indexes|, |indexes| + 1, p) <==> p.0 in indexes && p.1 in indexes && p.0 < p.1
  {
    if p.0 in indexes && p.1 in indexes && p.0 < p.1 {
      var a, b :| 0 <= a < |indexes| && 0 <= b < |indexes| && indexes[a] == p.0 && indexes[b] == p.1;
      assert a < b && p == (indexes[a], indexes[b]);
    }
  }

  lemma NotSeenYet(indexes: seq<nat>, n: nat, i: nat, j: nat)
    requires Ascending(indexes, n) && i < j < |indexes|
    ensures !Seen(indexes, i, j, (indexes[i], indexes[j]))
  {
  }

  /** The slots hold what was recorded before and the decided pairs seen since. */
  ghost predicate HoldsSeen(
      verdicts: Verdicts, indexes: seq<nat>, i: nat, j: nat, slot0: map<Edge, nat>, slot: map<Edge, nat>) {
    forall p: Edge :: p in slot <==> p in slot0 || (Seen(indexes, i, j, p) && verdicts(p.0, p.1).Some?)
  }

  lemma HoldsSeenNext(
      verdicts: Verdicts, indexes: seq<nat>, i: nat, j: nat, slot0: map<Edge, nat>, slot: map<Edge, nat>,
      next: map<Edge, nat>)
    requires i < j < |indexes| && HoldsSeen(verdicts, indexes, i, j, slot0, slot)
    requires next.Keys == slot.Keys + if verdicts(indexes[i], indexes[j]).Some? then {(indexes[i], indexes[j])} else {}
    ensures HoldsSeen(verdicts, indexes, i, j + 1, slot0, next)
  {
    forall p: Edge ensures p in next <==> p in slot0 || (Seen(indexes, i, j + 1, p) && verdicts(p.0, p.1).Some?) {
      SeenNext(indexes, i, j, p);
      assert p in next <==> p in slot || (p == (indexes[i], indexes[j]) && verdicts(p.0, p.1).Some?);
    }
  }

  lemma HoldsSeenRow(verdicts: Verdicts, indexes: seq<nat>, i: nat, slot0: map<Edge, nat>, slot: map<Edge, nat>)
    requires i < |indexes| && HoldsSeen(verdicts, indexes, i, |indexes|, slot0, slot)
    ensures HoldsSeen(verdicts, indexes, i + 1, i + 2, slot0, slot)
  {
    forall p: Edge ensures p in slot <==> p in slot0 || (Seen(indexes, i + 1, i + 2, p) && verdicts(p.0, p.1).Some?) {
      SeenRow(indexes, i, p);
    }
  }

  /** One listing of a bucket against every later one. */
  method DecideRow(n: nat, verdicts: Verdicts, indexes: seq<nat>, i: nat, ghost before: map<Edge, nat>,
                   decisions0: seq<Decision>, slot0: map<Edge, nat>, accepted0: seq<Edge>)
    returns (decisions: seq<Decision>, slot: map<Edge, nat>, accepted: seq<Edge>)
    requires Ascending(indexes, n) && i < |indexes|
    requires AsDecided(n, verdicts, decisions0, slot0) && ListsAccepted(verdicts, slot0, accepted0)
    requires HoldsSeen(verdicts, indexes, i, i + 1, before, slot0) && forall p :: p in before ==> p.0 !in indexes
    ensures AsDecided(n, verdicts, decisions, slot) && ListsAccepted(verdicts, slot, accepted)
    ensures HoldsSeen(verdicts, indexes, i + 1, i + 2, before, slot)
  {
    decisions, slot, accepted := decisions0, slot0, accepted0;
    for j := i + 1 to |indexes|
      invariant AsDecided(n, verdicts, decisions, slot) && ListsAccepted(verdicts, slot, accepted)
      invariant HoldsSeen(verdicts, indexes, i, j, before, slot)
    {
      NotSeenYet(indexes, n, i, j);
      assert indexes[i] in indexes;
      ghost var last := slot;
      decisions, slot, accepted := RecordPair(n, verdicts, indexes[i], indexes[j], decisions, slot, accepted);
      HoldsSeenNext(verdicts, indexes, i, j, before, last, slot);
    }
    HoldsSeenRow(verdicts, indexes, i, before, slot);
  }

  /** Every pair of one bucket, in order. */
  method DecideBucket(n: nat, verdicts: Verdicts, indexes: seq<nat>,
                      decisions0: seq<Decision>, slot0: map<Edge, nat>, accepted0: seq<Edge>)
    returns (decisions: seq<Decision>, slot: map<Edge, nat>, accepted: seq<Edge>)
    requires Ascending(indexes, n)
    requires AsDecided(n, verdicts, decisions0, slot0) && ListsAccepted(verdicts, slot0, accepted0)
    requires forall p :: p in slot0 ==> p.0 !in indexes
    ensures AsDecided(n, verdicts, decisions, slot) && ListsAccepted(verdicts, slot, accepted)
    ensures forall p: Edge :: p in slot <==>
      p in slot0 || (p.0 in indexes && p.1 in indexes && p.0 < p.1 && verdicts(p.0, p.1).Some?)
  {
    decisions, slot, accepted := decisions0, slot0, accepted0;
    for i := 0 to |indexes|
      invariant AsDecided(n, verdicts, decisions, slot) && ListsAccepted(verdicts, slot, accepted)
      invariant HoldsSeen(verdicts, indexes, i, i + 1, slot0, slot)
    {
      decisions, slot, accepted := DecideRow(n, verdicts, indexes, i, slot0, decisions, slot, accepted);
    }
    forall p: Edge
      ensures p in slot <==> p in slot0 || (p.0 in indexes && p.1 in indexes && p.0 < p.1 && verdicts(p.0, p.1).Some?)
    {
      SeenAll(indexes, n, p);
    }
  }

  /** The rules applied to a whole input: a pair is decided inside its bucket. */
  function VerdictsOf(input: Input): Verdicts
    requires |input.venues| == |input.listings|
  {
    (x: nat, y: nat) =>
      if x < |input.listings| && y < |input.listings| && KeyOf(input.listings[x]) == KeyOf(input.listings[y])
      then
        IndexesOfExact(input.listings, KeyOf(input.listings[x]), |input.listings|);
        Decide(input, IndexesOf(input.listings, KeyOf(input.listings[x]), |input.listings|), x, y)
      else None
  }

  /** Every pair that the rules decide, recorded once. */
  ghost predicate Complete(n: nat, verdicts: Verdicts, slot: map<Edge, nat>) {
    forall x: nat, y: nat :: (x, y) in slot <==> x < y < n && verdicts(x, y).Some?
  }

  /** Every pair decided in the buckets of these keys is recorded, and no other. */
  ghost predicate CompleteFor(listings: seq<Listing>, verdicts: Verdicts, keys: seq<BucketKey>, slot: map<Edge, nat>) {
    forall x: nat, y: nat :: (x, y) in slot
      <==> x < y < |listings| && verdicts(x, y).Some? && KeyOf(listings[x]) in keys
  }

  lemma OneMoreBucket(
      listings: seq<Listing>, verdicts: Verdicts, keys: seq<BucketKey>, key: BucketKey, indexes: seq<nat>,
      slot0: map<Edge, nat>, slot: map<Edge, nat>)
    requires InsideBuckets(listings, verdicts) && CompleteFor(listings, verdicts, keys, slot0)
    requires forall i: nat :: i in indexes <==> i < |listings| && KeyOf(listings[i]) == key
    requires forall p: Edge :: p in slot <==>
      p in slot0 || (p.0 in indexes && p.1 in indexes && p.0 < p.1 && verdicts(p.0, p.1).Some?)
    ensures CompleteFor(listings, verdicts, keys + [key], slot)
  {
    forall x: nat, y: nat
      ensures (x, y) in slot <==> x < y < |listings| && verdicts(x, y).Some? && KeyOf(listings[x]) in keys + [key]
    {
      assert (x, y) in slot0 <==> x < y < |listings| && verdicts(x, y).Some? && KeyOf(listings[x]) in keys;
    }
  }

  lemma NewBucket(
      listings: seq<Listing>, verdicts: Verdicts, keys: seq<BucketKey>, key: BucketKey, indexes: seq<nat>,
      slot: map<Edge, nat>)
    requires CompleteFor(listings, verdicts, keys, slot) && key !in keys
    requires forall i: nat :: i in indexes <==> i < |listings| && KeyOf(listings[i]) == key
    ensures forall p :: p in slot ==> p.0 !in indexes
  {
    forall p | p in slot ensures p.0 !in indexes {
      assert (p.0, p.1) in slot;
    }
  }

  method DecideAll(listings: seq<Listing>, verdicts: Verdicts)
    returns (decisions: seq<Decision>, slot: map<Edge, nat>, accepted: seq<Edge>)
    requires InsideBuckets(listings, verdicts)
    ensures AsDecided(|listings|, verdicts, decisions, slot) && ListsAccepted(verdicts, slot, accepted)
    ensures Complete(|listings|, verdicts, slot)
  {
    var order, buckets := BuildBuckets(listings);
    decisions, slot, accepted := [], map[], [];
    for b := 0 to |order|
      invariant AsDecided(|listings|, verdicts, decisions, slot) && ListsAccepted(verdicts, slot, accepted)
      invariant CompleteFor(listings, verdicts, order[..b], slot)
    {
      var key := order[b];
      var indexes := buckets[key];
      IndexesOfExact(listings, key, |listings|);
      NewBucket(listings, verdicts, order[..b], key, indexes, slot);
      ghost var before := slot;
      decisions, slot, accepted := DecideBucket(|listings|, verdicts, indexes, decisions, slot, accepted);
      OneMoreBucket(listings, verdicts, order[..b], key, indexes, before, slot);
      assert order[..b + 1] == order[..b] + [key];
    }
    assert order[..|order|] == order;
  }

  // ---- joining the accepted pairs ----

  function Pair(x: nat, y: nat): Edge {
    if x < y then (x, y) else (y, x)
  }

  /** The pair is recorded and its decision currently says merge. */
  predicate StillMerging(decisions: seq<Decision>, slot: map<Edge, nat>, x: nat, y: nat) {
    var p := Pair(x, y);
    p in slot && slot[p] < |decisions| && Merging(decisions[slot[p]].outcome)
  }

  /** Why a tried pair was demoted: its components hold one provider twice, or a
      pair that was not accepted. */
  ghost predicate Justified(listings: seq<Listing>, verdicts: Verdicts, roots: seq<nat>, p: Edge, rule: Rule)
    requires |roots| == |listings| && p.0 < |roots| && p.1 < |roots|
  {
    exists x, y :: 0 <= x < |roots| && 0 <= y < |roots| && roots[x] == roots[p.0] && roots[y] == roots[p.1]
      && Vetoes(listings, verdicts, x, y, rule)
  }

  predicate Vetoes(listings: seq<Listing>, verdicts: Verdicts, x: nat, y: nat, rule: Rule)
    requires x < |listings| && y < |listings|
  {
    || (rule == GraphSameProviderCollision && listings[x].provider == listings[y].provider)
    || (rule == GraphPairwiseIncompatibility && !Accepts(verdicts, x, y))
  }

  /** The published decision of one pair: a tried pair whose ends are in
      different components is demoted, any other is as the rules gave it. */
  ghost predicate PairPublished(
      listings: seq<Listing>, verdicts: Verdicts, tried: bool, roots: seq<nat>, p: Edge, d: Decision)
    requires |roots| == |listings| && p.0 < |roots| && p.1 < |roots|
  {
    if tried && roots[p.0] != roots[p.1]
    then d.outcome == NeverMerge && Justified(listings, verdicts, roots, p, d.rule)
    else verdicts(p.0, p.1) == Some(Verdict(d.outcome, d.rule))
  }

  ghost predicate Published(
      listings: seq<Listing>, verdicts: Verdicts, slot: map<Edge, nat>, tried: seq<Edge>, roots: seq<nat>,
      decisions: seq<Decision>) {
    && |roots| == |listings|
    && Records(|listings|, decisions, slot)
    && forall p :: p in slot ==> PairPublished(listings, verdicts, p in tried, roots, p, decisions[slot[p]])
  }

  lemma ClashIsSymmetric(listings: seq<Listing>, verdicts: Verdicts)
    ensures Symmetric(Clash(listings, verdicts))
  {
  }

  /** A pair that is not accepted, or was demoted, blocks its two components. */
  lemma NotMergingBlocks(
      listings: seq<Listing>, verdicts: Verdicts, tried: seq<Edge>, roots: seq<nat>, l: nat, r: nat, x: nat, y: nat)
    requires InRange(tried, |listings|)
    requires roots == Run(Singletons(|listings|), Clash(listings, verdicts), tried)
    requires l < |roots| && r < |roots| && x < |roots| && y < |roots|
    requires roots[l] != roots[r] && roots[x] == roots[l] && roots[y] == roots[r]
    requires Pair(x, y) in tried || !Accepts(verdicts, x, y)
    ensures Blocked(roots, Clash(listings, verdicts), l, r)
  {
    var clash := Clash(listings, verdicts);
    if !clash(x, y) {
      ClashIsSymmetric(listings, verdicts);
      var k :| 0 <= k < |tried| && tried[k] == Pair(x, y);
      EdgesAreSettled(Singletons(|listings|), clash, tried, k);
      var u, v :| 0 <= u < |roots| && 0 <= v < |roots| && u != v && roots[u] == roots[tried[k].0]
        && roots[v] == roots[tried[k].1] && clash(u, v);
      assert clash(v, u);
    }
  }

  /** Joining or leaving two components keeps an earlier decision as published. */
  lemma PublishedSurvives(
      listings: seq<Listing>, verdicts: Verdicts, tried: seq<Edge>, roots: seq<nat>, e: Edge, p: Edge, d: Decision)
    requires InRange(tried, |listings|) && InRange([e], |listings|) && p.0 < |listings| && p.1 < |listings|
    requires roots == Run(Singletons(|listings|), Clash(listings, verdicts), tried)
    requires p != e && PairPublished(listings, verdicts, p in tried, roots, p, d)
    ensures PairPublished(listings, verdicts, p in tried, Step(roots, Clash(listings, verdicts), e), p, d)
  {
    if p in tried {
      var clash := Clash(listings, verdicts);
      ClashIsSymmetric(listings, verdicts);
      var k :| 0 <= k < |tried| && tried[k] == p;
      EdgesAreSettled(Singletons(|listings|), clash, tried, k);
      if roots[p.0] == roots[p.1] {
        StepCoarsens(roots, clash, e, p.0, p.1);
      } else {
        StepKeepsBlocked(roots, clash, e, p.0, p.1);
        var x, y :| 0 <= x < |roots| && 0 <= y < |roots| && roots[x] == roots[p.0] && roots[y] == roots[p.1]
          && Vetoes(listings, verdicts, x, y, d.rule);
        StepCoarsens(roots, clash, e, x, p.0);
        StepCoarsens(roots, clash, e, y, p.1);
      }
    }
  }

  ghost predicate ProvidersDiffer(listings: seq<Listing>, left: seq<nat>, right: seq<nat>) {
    forall a, b :: a in left && b in right ==>
      a < |listings| && b < |listings| && listings[a].provider != listings[b].provider
  }

  /** What the cross check found, read from the current decisions. */
  ghost predicate CheckResult(
      listings: seq<Listing>, decisions: seq<Decision>, slot: map<Edge, nat>, left: seq<nat>, right: seq<nat>,
      reason: Option<Rule>) {
    match reason
    case None =>
      ProvidersDiffer(listings, left, right) && forall a, b :: a in left && b in right ==>
        StillMerging(decisions, slot, a, b)
    case Some(GraphSameProviderCollision) =>
      exists a, b :: a in left && b in right && a < |listings| && b < |listings|
        && listings[a].provider == listings[b].provider
    case Some(GraphPairwiseIncompatibility) =>
      ProvidersDiffer(listings, left, right) && exists a, b ::
        a in left && b in right && !StillMerging(decisions, slot, a, b)
    case Some(_) => false
  }

  /** The veto on joining two components, read from the current decisions. */
  method CrossCheck(
      listings: seq<Listing>, decisions: array<Decision>, slot: map<Edge, nat>, left: seq<nat>, right: seq<nat>)
    returns (reason: Option<Rule>)
    requires forall k :: 0 <= k < |left| ==> left[k] < |listings|
    requires forall k :: 0 <= k < |right| ==> right[k] < |listings|
    requires forall p :: p in slot ==> slot[p] < decisions.Length
    ensures CheckResult(listings, decisions[..], slot, left, right, reason)
  {
    var providers := set k | 0 <= k < |left| :: listings[left[k]].provider;
    if k :| 0 <= k < |right| && listings[right[k]].provider in providers {
      var h :| 0 <= h < |left| && listings[left[h]].provider == listings[right[k]].provider;
      assert left[h] in left && right[k] in right;
      return Some(GraphSameProviderCollision);
    }
    forall h, k | 0 <= h < |left| && 0 <= k < |right|
      ensures listings[left[h]].provider != listings[right[k]].provider
    {
      assert listings[left[h]].provider in providers;
    }
    reason := None;
    for h := 0 to |left|
      invariant reason == None || reason == Some(GraphPairwiseIncompatibility)
      invariant reason.None? ==> forall a, b :: a in left[..h] && b in right ==> StillMerging(decisions[..], slot, a, b)
      invariant reason.Some? ==> exists a, b :: a in left && b in right && !StillMerging(decisions[..], slot, a, b)
    {
      for k := 0 to |right|
        invariant reason == None || reason == Some(GraphPairwiseIncompatibility)
        invariant reason.None? ==>
          forall a, b :: a in left[..h] && b in right ==> StillMerging(decisions[..], slot, a, b)
        invariant reason.None? ==> forall b :: b in right[..k] ==> StillMerging(decisions[..], slot, left[h], b)
        invariant reason.Some? ==> exists a, b :: a in left && b in right && !StillMerging(decisions[..], slot, a, b)
      {
        var pair := Pair(left[h], right[k]);
        if pair !in slot || !Merging(decisions[slot[pair]].outcome) {
          assert left[h] in left && right[k] in right && !StillMerging(decisions[..], slot, left[h], right[k]);
          reason := Some(GraphPairwiseIncompatibility);
        }
      }
    }
  }

  /** Testing the current decisions, demotions included, is testing the rules. */
  lemma CheckDecidesStep(
      listings: seq<Listing>, verdicts: Verdicts, slot: map<Edge, nat>, tried: seq<Edge>, roots: seq<nat>,
      decisions: seq<Decision>, e: Edge, left: seq<nat>, right: seq<nat>, reason: Option<Rule>)
    requires Published(listings, verdicts, slot, tried, roots, decisions)
    requires Complete(|listings|, verdicts, slot) && InRange(tried, |listings|)
    requires roots == Run(Singletons(|listings|), Clash(listings, verdicts), tried)
    requires e.0 < |roots| && e.1 < |roots| && roots[e.0] != roots[e.1]
    requires forall a: nat :: a in left <==> a < |roots| && roots[a] == roots[e.0]
    requires forall b: nat :: b in right <==> b < |roots| && roots[b] == roots[e.1]
    requires CheckResult(listings, decisions, slot, left, right, reason)
    ensures reason.Some? <==> Blocked(roots, Clash(listings, verdicts), e.0, e.1)
    ensures reason.Some? ==> Justified(listings, verdicts, roots, e, reason.value)
  {
    var clash := Clash(listings, verdicts);
    if reason.None? {
      forall x, y | 0 <= x < |roots| && 0 <= y < |roots| && x != y && roots[x] == roots[e.0] && roots[y] == roots[e.1]
        ensures !clash(x, y)
      {
        assert x in left && y in right;
        StillMergingIsAccepted(listings, verdicts, slot, tried, roots, decisions, x, y);
      }
    } else if reason.value == GraphSameProviderCollision {
      var a, b :| a in left && b in right && a < |listings| && b < |listings|
        && listings[a].provider == listings[b].provider;
      assert Vetoes(listings, verdicts, a, b, reason.value) && clash(a, b);
    } else {
      var a, b :| a in left && b in right && !StillMerging(decisions, slot, a, b);
      StillMergingIsAccepted(listings, verdicts, slot, tried, roots, decisions, a, b);
      NotMergingBlocks(listings, verdicts, tried, roots, e.0, e.1, a, b);
      var x, y :| 0 <= x < |roots| && 0 <= y < |roots| && x != y && roots[x] == roots[e.0] && roots[y] == roots[e.1]
        && clash(x, y);
      assert x in left && y in right && Vetoes(listings, verdicts, x, y, reason.value);
    }
  }

  /** Between two components, the current decision says merge exactly when the
      rules accept the pair and it has not been tried. */
  lemma StillMergingIsAccepted(
      listings: seq<Listing>, verdicts: Verdicts, slot: map<Edge, nat>, tried: seq<Edge>, roots: seq<nat>,
      decisions: seq<Decision>, x: nat, y: nat)
    requires Published(listings, verdicts, slot, tried, roots, decisions)
    requires Complete(|listings|, verdicts, slot)
    requires x < |roots| && y < |roots| && roots[x] != roots[y]
    ensures StillMerging(decisions, slot, x, y) <==> Accepts(verdicts, x, y) && Pair(x, y) !in tried
  {
    var p := Pair(x, y);
    assert p in slot <==> verdicts(p.0, p.1).Some?;
    if p in slot {
      assert PairPublished(listings, verdicts, p in tried, roots, p, decisions[slot[p]]);
    }
  }

  ghost predicate RootsAre(sets: DisjointSet, roots: seq<nat>)
    reads sets, sets.parent, sets.componentMembers
  {
    sets.Valid() && Labels(sets.parent[..], roots)
  }

  /** The members of a listing's component. */
  method Gather(sets: DisjointSet, ghost roots: seq<nat>, index: nat) returns (members: seq<nat>)
    requires RootsAre(sets, roots) && index < |roots|
    modifies sets.parent
    ensures RootsAre(sets, roots)
    ensures forall a: nat :: a in members <==> a < |roots| && roots[a] == roots[index]
    ensures forall k :: 0 <= k < |members| ==> members[k] < |roots|
  {
    members := sets.Members(index);
    ghost var p := sets.parent[..];
    ListedInRange(p, Root(p, index), members);
  }

  datatype Proposal = AlreadyJoined | Veto(rule: Rule) | Join

  /** What to do with one accepted pair, read from its components and the
      current decisions. */
  method Propose(
      listings: seq<Listing>, verdicts: Verdicts, decisions: array<Decision>, slot: map<Edge, nat>, sets: DisjointSet,
      ghost tried: seq<Edge>, ghost roots: seq<nat>, pair: Edge)
    returns (proposal: Proposal)
    requires Published(listings, verdicts, slot, tried, roots, decisions[..])
    requires Complete(|listings|, verdicts, slot) && InRange(tried, |listings|)
    requires roots == Run(Singletons(|listings|), Clash(listings, verdicts), tried)
    requires pair in slot && RootsAre(sets, roots)
    requires decisions as object != sets.parent && decisions as object != sets.componentMembers
    modifies sets.parent
    ensures RootsAre(sets, roots)
    ensures proposal.AlreadyJoined? <==> roots[pair.0] == roots[pair.1]
    ensures proposal.Veto?
       <==> roots[pair.0] != roots[pair.1] && Blocked(roots, Clash(listings, verdicts), pair.0, pair.1)
    ensures proposal.Veto? ==> Justified(listings, verdicts, roots, pair, proposal.rule)
  {
    var (left, right) := pair;
    var leftMembers := Gather(sets, roots, left);
    var rightMembers := Gather(sets, roots, right);
    var leftRoot := sets.Find(left);
    var rightRoot := sets.Find(right);
    if leftRoot == rightRoot {
      return AlreadyJoined;
    }
    var reason := CrossCheck(listings, decisions, slot, leftMembers, rightMembers);
    CheckDecidesStep(listings, verdicts, slot, tried, roots, decisions[..], pair, leftMembers, rightMembers, reason);
    proposal := if reason.Some? then Veto(reason.value) else Join;
  }

  lemma PublishedNext(
      listings: seq<Listing>, verdicts: Verdicts, slot: map<Edge, nat>, tried: seq<Edge>, roots: seq<nat>,
      before: seq<Decision>, after: seq<Decision>, pair: Edge)
    requires Published(listings, verdicts, slot, tried, roots, before)
    requires InRange(tried, |listings|) && InRange([pair], |listings|)
    requires roots == Run(Singletons(|listings|), Clash(listings, verdicts), tried)
    requires pair in slot && Records(|listings|, after, slot) && |after| == |before|
    requires forall k :: 0 <= k < |after| && k != slot[pair] ==> after[k] == before[k]
    requires PairPublished(listings, verdicts, true, Step(roots, Clash(listings, verdicts), pair), pair,
      after[slot[pair]])
    ensures Published(listings, verdicts, slot, tried + [pair], Step(roots, Clash(listings, verdicts), pair), after)
  {
    var next := Step(roots, Clash(listings, verdicts), pair);
    forall p | p in slot ensures PairPublished(listings, verdicts, p in tried + [pair], next, p, after[slot[p]]) {
      if p != pair {
        assert slot[p] != slot[pair];
        assert PairPublished(listings, verdicts, p in tried, roots, p, before[slot[p]]);
        PublishedSurvives(listings, verdicts, tried, roots, pair, p, before[slot[p]]);
      }
    }
  }

  /** Demotes or joins one accepted pair. */
  method TryPair(
      listings: seq<Listing>, verdicts: Verdicts, decisions: array<Decision>, slot: map<Edge, nat>, sets: DisjointSet,
      ghost tried: seq<Edge>, ghost roots: seq<nat>, pair: Edge)
    requires Published(listings, verdicts, slot, tried, roots, decisions[..])
    requires Complete(|listings|, verdicts, slot) && InRange(tried, |listings|) && InRange([pair], |listings|)
    requires roots == Run(Singletons(|listings|), Clash(listings, verdicts), tried)
    requires pair in slot && pair !in tried && RootsAre(sets, roots) && Indexed(decisions[..], slot)
    requires decisions as object != sets.parent && decisions as object != sets.componentMembers
    modifies decisions, sets.parent, sets.componentMembers
    ensures RootsAre(sets, Step(roots, Clash(listings, verdicts), pair))
    ensures Published(listings, verdicts, slot, tried + [pair], Step(roots, Clash(listings, verdicts), pair),
      decisions[..])
    ensures Indexed(decisions[..], slot)
  {
    ghost var before := decisions[..];
    assert PairPublished(listings, verdicts, false, roots, pair, before[slot[pair]]);
    var proposal := Propose(listings, verdicts, decisions, slot, sets, tried, roots, pair);
    match proposal {
      case AlreadyJoined =>
      case Veto(rule) =>
        decisions[slot[pair]] := decisions[slot[pair]].(outcome := NeverMerge, rule := rule);
      case Join =>
        ghost var p := sets.parent[..];
        var _ := sets.Union(pair.0, pair.1);
        JoinedIsMerge(p, sets.parent[..], roots, pair.0, pair.1);
    }
    PublishedNext(listings, verdicts, slot, tried, roots, before, decisions[..], pair);
  }

  lemma NextPair(listings: seq<Listing>, verdicts: Verdicts, slot: map<Edge, nat>, accepted: seq<Edge>, k: nat)
    requires InRange(accepted, |listings|) && ListsAccepted(verdicts, slot, accepted) && k < |accepted|
    ensures accepted[k] in slot && accepted[k] !in accepted[..k] && accepted[..k + 1] == accepted[..k] + [accepted[k]]
    ensures FinalRoots(listings, verdicts, accepted[..k + 1])
         == Step(FinalRoots(listings, verdicts, accepted[..k]), Clash(listings, verdicts), accepted[k])
  {
    assert accepted[..k + 1][..k] == accepted[..k];
  }

  method TryNext(
      listings: seq<Listing>, verdicts: Verdicts, decisions: array<Decision>, slot: map<Edge, nat>, sets: DisjointSet,
      accepted: seq<Edge>, k: nat)
    requires Complete(|listings|, verdicts, slot) && InRange(accepted, |listings|)
    requires ListsAccepted(verdicts, slot, accepted) && k < |accepted|
    requires decisions as object != sets.parent && decisions as object != sets.componentMembers
    requires RootsAre(sets, FinalRoots(listings, verdicts, accepted[..k]))
    requires Published(listings, verdicts, slot, accepted[..k], FinalRoots(listings, verdicts, accepted[..k]),
      decisions[..])
    requires Indexed(decisions[..], slot)
    modifies decisions, sets.parent, sets.componentMembers
    ensures RootsAre(sets, FinalRoots(listings, verdicts, accepted[..k + 1]))
    ensures Published(listings, verdicts, slot, accepted[..k + 1], FinalRoots(listings, verdicts, accepted[..k + 1]),
      decisions[..])
    ensures Indexed(decisions[..], slot)
  {
    ghost var tried := accepted[..k];
    NextPair(listings, verdicts, slot, accepted, k);
    TryPair(listings, verdicts, decisions, slot, sets, tried, FinalRoots(listings, verdicts, tried), accepted[k]);
  }

  /** Tries every accepted pair in order. The components are those of the
      guarded run, and the decision list is kept in step with them. */
  method JoinAccepted(
      listings: seq<Listing>, verdicts: Verdicts, decisions: array<Decision>, slot: map<Edge, nat>,
      accepted: seq<Edge>)
    returns (sets: DisjointSet)
    requires AsDecided(|listings|, verdicts, decisions[..], slot) && Complete(|listings|, verdicts, slot)
    requires ListsAccepted(verdicts, slot, accepted)
    modifies decisions
    ensures fresh(sets) && fresh(sets.parent) && fresh(sets.componentMembers)
    ensures InRange(accepted, |listings|)
    ensures RootsAre(sets, FinalRoots(listings, verdicts, accepted))
    ensures Published(listings, verdicts, slot, accepted, FinalRoots(listings, verdicts, accepted), decisions[..])
    ensures Indexed(decisions[..], slot)
  {
    sets := new DisjointSet(|listings|);
    assert InRange(accepted, |listings|);
    for k := 0 to |accepted|
      invariant fresh(sets.parent) && fresh(sets.componentMembers)
      invariant RootsAre(sets, FinalRoots(listings, verdicts, accepted[..k]))
      invariant Published(listings, verdicts, slot, accepted[..k], FinalRoots(listings, verdicts, accepted[..k]),
        decisions[..])
      invariant Indexed(decisions[..], slot)
    {
      TryNext(listings, verdicts, decisions, slot, sets, accepted, k);
    }
    assert accepted[..|accepted|] == accepted;
  }

  // ---- order of the accepted pairs ----

  /** Exact and reviewed matches come first, then title containment; inside a
      kind, by list position. */
  predicate Before(verdicts: Verdicts, a: Edge, b: Edge) {
    var weakA, weakB := Weak(verdicts, a), Weak(verdicts, b);
    if weakA != weakB then weakB
    else a.0 < b.0 || (a.0 == b.0 && a.1 <= b.1)
  }

  predicate Weak(verdicts: Verdicts, pair: Edge) {
    var verdict := verdicts(pair.0, pair.1);
    verdict.Some? && verdict.value.rule == TitleContainment
  }

  function TryOrder(verdicts: Verdicts): (Edge, Edge) -> bool {
    (a: Edge, b: Edge) => Before(verdicts, a, b)
  }

  /** The pairs of one kind, in list order. */
  function OfKind(verdicts: Verdicts, pairs: seq<Edge>, weak: bool): seq<Edge> {
    if pairs == [] then []
    else (if Weak(verdicts, pairs[0]) == weak then [pairs[0]] else []) + OfKind(verdicts, pairs[1..], weak)
  }

  lemma {:induction false} SortedSplits(verdicts: Verdicts, pairs: seq<Edge>)
    requires Ordered(TryOrder(verdicts), pairs)
    ensures pairs == OfKind(verdicts, pairs, false) + OfKind(verdicts, pairs, true)
    ensures pairs != [] && Weak(verdicts, pairs[0]) ==> OfKind(verdicts, pairs, false) == []
  {
    if pairs != [] {
      SortedSplits(verdicts, pairs[1..]);
    }
  }

  /** Whether an exact or reviewed title match joins two sessions does not
      depend on the title-containment matches at all. */
  lemma ContainmentNeverDisplacesExactMatches(listings: seq<Listing>, verdicts: Verdicts, pairs: seq<Edge>, k: nat)
    requires InRange(pairs, |listings|) && Ordered(TryOrder(verdicts), pairs)
    requires k < |OfKind(verdicts, pairs, false)|
    ensures InRange(OfKind(verdicts, pairs, false), |listings|)
    ensures var exact := OfKind(verdicts, pairs, false);
      var alone, all := FinalRoots(listings, verdicts, exact), FinalRoots(listings, verdicts, pairs);
      alone[exact[k].0] == alone[exact[k].1] <==> all[exact[k].0] == all[exact[k].1]
  {
    SortedSplits(verdicts, pairs);
    ClashIsSymmetric(listings, verdicts);
    LaterEdgesChangeNothing(Singletons(|listings|), Clash(listings, verdicts),
                            OfKind(verdicts, pairs, false), OfKind(verdicts, pairs, true), k);
  }

  // ---- the published result ----

  /** What resolution publishes: the sessions, the decisions and where each
      decided pair is recorded. */
  datatype Resolution = Resolution(components: seq<seq<nat>>, decisions: seq<Decision>, slot: map<Edge, nat>)

  ghost predicate Resolves(
      listings: seq<Listing>, verdicts: Verdicts, accepted: seq<Edge>, roots: seq<nat>, r: Resolution) {
    && Complete(|listings|, verdicts, r.slot)
    && ListsAccepted(verdicts, r.slot, accepted)
    && InRange(accepted, |listings|)
    && roots == FinalRoots(listings, verdicts, accepted)
    && Published(listings, verdicts, r.slot, accepted, roots, r.decisions) && Indexed(r.decisions, r.slot)
    && (exists heads :: ComponentsOf(r.components, roots, heads))
  }

  predicate GraphRule(rule: Rule) { rule == GraphSameProviderCollision || rule == GraphPairwiseIncompatibility }

  /** A pair the rules accepted whose listings ended apart. */
  ghost predicate Demoted(verdicts: Verdicts, roots: seq<nat>, p: Edge)
    requires p.0 < |roots| && p.1 < |roots|
  {
    Accepts(verdicts, p.0, p.1) && roots[p.0] != roots[p.1]
  }

  /** A graph rule is published for exactly the demoted pairs, always as a veto,
      and always for a reason that holds between the two final sessions. */
  lemma GraphRulesMarkDemotions(input: Input, accepted: seq<Edge>, roots: seq<nat>, r: Resolution, p: Edge)
    requires input.Valid() && Resolves(input.listings, VerdictsOf(input), accepted, roots, r) && p in r.slot
    ensures p.0 < |roots| && p.1 < |roots|
    ensures var d := r.decisions[r.slot[p]];
      && (GraphRule(d.rule) <==> Demoted(VerdictsOf(input), roots, p))
      && (GraphRule(d.rule) ==>
        d.outcome == NeverMerge && Justified(input.listings, VerdictsOf(input), roots, p, d.rule))
  {
    var verdicts := VerdictsOf(input);
    assert PairPublished(input.listings, verdicts, p in accepted, roots, p, r.decisions[r.slot[p]]);
    if p in accepted {
      var k :| 0 <= k < |accepted| && accepted[k] == p;
      assert Accepts(verdicts, p.0, p.1);
    }
    RulesAreNotGraphRules(input, p.0, p.1);
  }

  lemma RulesAreNotGraphRules(input: Input, x: nat, y: nat)
    requires input.Valid() && VerdictsOf(input)(x, y).Some?
    ensures !GraphRule(VerdictsOf(input)(x, y).value.rule)
  {
  }

  /** The published decisions describe the partition: a decided pair says merge
      exactly when its listings share a session, an accepted pair whose listings
      do not is demoted to a veto with its reason, and listings that share a
      session form a clique of merge decisions without a repeated provider. */
  lemma DecisionsDescribeSessions(
      listings: seq<Listing>, verdicts: Verdicts, accepted: seq<Edge>, roots: seq<nat>, r: Resolution)
    requires Resolves(listings, verdicts, accepted, roots, r)
    ensures AllDescribed(listings, verdicts, roots, r.slot, r.decisions)
    ensures Cliques(listings, verdicts, roots, r.slot)
  {
    DecisionsFollowRoots(listings, verdicts, accepted, roots, r.slot, r.decisions);
    SessionsAreCliques(listings, verdicts, accepted, roots, r.slot);
  }

  /** Every recorded decision says what became of its pair. */
  ghost predicate AllDescribed(
      listings: seq<Listing>, verdicts: Verdicts, roots: seq<nat>, slot: map<Edge, nat>, decisions: seq<Decision>) {
    |roots| == |listings|
    && forall p :: p in slot ==>
         p.0 < |roots| && p.1 < |roots| && slot[p] < |decisions|
           && DescribesPair(listings, verdicts, roots, p, decisions[slot[p]])
  }

  /** Listings that share a session were accepted pair by pair, across providers. */
  ghost predicate Cliques(listings: seq<Listing>, verdicts: Verdicts, roots: seq<nat>, slot: map<Edge, nat>) {
    |roots| == |listings|
    && forall x: nat, y: nat :: x < y < |listings| && roots[x] == roots[y] ==>
         (x, y) in slot && Accepts(verdicts, x, y) && listings[x].provider != listings[y].provider
  }

  lemma DecisionsFollowRoots(
      listings: seq<Listing>, verdicts: Verdicts, accepted: seq<Edge>, roots: seq<nat>, slot: map<Edge, nat>,
      decisions: seq<Decision>)
    requires Complete(|listings|, verdicts, slot) && ListsAccepted(verdicts, slot, accepted)
    requires InRange(accepted, |listings|)
    requires roots == FinalRoots(listings, verdicts, accepted)
    requires Published(listings, verdicts, slot, accepted, roots, decisions)
    ensures AllDescribed(listings, verdicts, roots, slot, decisions)
  {
    forall p | p in slot ensures DescribesPair(listings, verdicts, roots, p, decisions[slot[p]]) {
      assert PairPublished(listings, verdicts, p in accepted, roots, p, decisions[slot[p]]);
      DecisionFollowsRoots(listings, verdicts, accepted, roots, slot, p, decisions[slot[p]]);
    }
  }

  /** What a published decision says about the final sessions. */
  ghost predicate DescribesPair(listings: seq<Listing>, verdicts: Verdicts, roots: seq<nat>, p: Edge, d: Decision)
    requires |roots| == |listings| && p.0 < |roots| && p.1 < |roots|
  {
    && (Merging(d.outcome) <==> roots[p.0] == roots[p.1])
    && (Demoted(verdicts, roots, p) ==> d.outcome == NeverMerge && Justified(listings, verdicts, roots, p, d.rule))
  }

  lemma DecisionFollowsRoots(
      listings: seq<Listing>, verdicts: Verdicts, accepted: seq<Edge>, roots: seq<nat>, slot: map<Edge, nat>, p: Edge,
      d: Decision)
    requires Complete(|listings|, verdicts, slot) && ListsAccepted(verdicts, slot, accepted)
    requires InRange(accepted, |listings|)
    requires roots == FinalRoots(listings, verdicts, accepted) && p in slot && p.0 < p.1 < |roots|
    requires PairPublished(listings, verdicts, p in accepted, roots, p, d)
    ensures DescribesPair(listings, verdicts, roots, p, d)
  {
    ClashIsSymmetric(listings, verdicts);
    RunKeepsCompatible(Singletons(|listings|), Clash(listings, verdicts), accepted);
    if roots[p.0] == roots[p.1] {
      assert !Clash(listings, verdicts)(p.0, p.1);
    }
    if Accepts(verdicts, p.0, p.1) {
      assert p in accepted;
    }
  }

  lemma SessionsAreCliques(
      listings: seq<Listing>, verdicts: Verdicts, accepted: seq<Edge>, roots: seq<nat>, slot: map<Edge, nat>)
    requires Complete(|listings|, verdicts, slot) && InRange(accepted, |listings|)
    requires roots == FinalRoots(listings, verdicts, accepted)
    ensures Cliques(listings, verdicts, roots, slot)
  {
    ClashIsSymmetric(listings, verdicts);
    RunKeepsCompatible(Singletons(|listings|), Clash(listings, verdicts), accepted);
    forall x: nat, y: nat | x < y < |listings| && roots[x] == roots[y]
      ensures (x, y) in slot && Accepts(verdicts, x, y) && listings[x].provider != listings[y].provider
    {
      assert !Clash(listings, verdicts)(x, y);
    }
  }

  lemma AcceptedIsSameOccasion(input: Input, x: nat, y: nat)
    requires input.Valid() && x < y < |input.listings| && Accepts(VerdictsOf(input), x, y)
    ensures SameOccasion(input.listings[x], input.listings[y], input.venues[x], input.venues[y])
  {
  }

  /** Listings of one session agree on instant, city and venue and contradict
      each other in neither attendance timing nor policy. */
  lemma SessionsShareOneOccasion(input: Input, accepted: seq<Edge>, roots: seq<nat>, r: Resolution, x: nat, y: nat)
    requires input.Valid() && Resolves(input.listings, VerdictsOf(input), accepted, roots, r)
    requires x < y < |input.listings| && roots[x] == roots[y]
    ensures SameOccasion(input.listings[x], input.listings[y], input.venues[x], input.venues[y])
  {
    DecisionsDescribeSessions(input.listings, VerdictsOf(input), accepted, roots, r);
    AcceptedIsSameOccasion(input, x, y);
  }

  predicate FromContainment(verdicts: Verdicts, pair: Edge) {
    && verdicts(pair.0, pair.1).Some?
    && verdicts(pair.0, pair.1).value.rule == TitleContainment
  }

  /** Exact and reviewed matches are tried before containment matches, and those of
      one kind by the positions of their listings. */
  ghost predicate InTryOrder(verdicts: Verdicts, accepted: seq<Edge>) {
    forall j, k :: 0 <= j < k < |accepted| ==>
      || (!FromContainment(verdicts, accepted[j]) && FromContainment(verdicts, accepted[k]))
      || (FromContainment(verdicts, accepted[j]) == FromContainment(verdicts, accepted[k])
          && (accepted[j].0 < accepted[k].0 || (accepted[j].0 == accepted[k].0 && accepted[j].1 < accepted[k].1)))
  }

  lemma TriedInOrder(verdicts: Verdicts, accepted: seq<Edge>)
    requires Ordered(TryOrder(verdicts), accepted) && Distinct(accepted)
    ensures InTryOrder(verdicts, accepted)
  {
    forall j, k | 0 <= j < k < |accepted|
      ensures Before(verdicts, accepted[j], accepted[k]) && accepted[j] != accepted[k]
    {
      OrderedPairs(TryOrder(verdicts), accepted, j, k);
    }
  }

  /** The whole session stage. */
  method ResolveSessions(input: Input) returns (r: Resolution, ghost accepted: seq<Edge>, ghost roots: seq<nat>)
    requires input.Valid()
    ensures Resolves(input.listings, VerdictsOf(input), accepted, roots, r)
    ensures Ordered(TryOrder(VerdictsOf(input)), accepted)
    ensures InTryOrder(VerdictsOf(input), accepted)
  {
    DecidedInsideBuckets(input);
    r, accepted, roots := ResolveDecided(input.listings, VerdictsOf(input));
    AcceptedOnce(VerdictsOf(input), r.slot, accepted);
    TriedInOrder(VerdictsOf(input), accepted);
  }

  lemma AcceptedOnce(verdicts: Verdicts, slot: map<Edge, nat>, accepted: seq<Edge>)
    requires ListsAccepted(verdicts, slot, accepted)
    ensures Distinct(accepted)
  {
  }

  lemma DecidedInsideBuckets(input: Input)
    requires input.Valid()
    ensures InsideBuckets(input.listings, VerdictsOf(input))
  {
  }

  ghost predicate InsideBuckets(listings: seq<Listing>, verdicts: Verdicts) {
    forall x: nat, y: nat :: verdicts(x, y).Some? ==>
      x < |listings| && y < |listings| && KeyOf(listings[x]) == KeyOf(listings[y])
  }

  method ResolveDecided(
      listings: seq<Listing>, verdicts: Verdicts)
    returns (r: Resolution, ghost accepted: seq<Edge>, ghost roots: seq<nat>)
    requires InsideBuckets(listings, verdicts)
    ensures Resolves(listings, verdicts, accepted, roots, r) && Ordered(TryOrder(verdicts), accepted)
  {
    var list, slot, pairs := DecideAll(listings, verdicts);
    var tries := OrderPairs(verdicts, slot, pairs);
    r := JoinAndCollect(listings, verdicts, list, slot, tries);
    accepted, roots := tries, FinalRoots(listings, verdicts, tries);
  }

  method OrderPairs(verdicts: Verdicts, slot: map<Edge, nat>, pairs: seq<Edge>) returns (tries: seq<Edge>)
    requires ListsAccepted(verdicts, slot, pairs)
    ensures ListsAccepted(verdicts, slot, tries) && Ordered(TryOrder(verdicts), tries)
  {
    tries := Sort<Edge>(TryOrder(verdicts), pairs);
    SortKeeps<Edge>(TryOrder(verdicts), pairs);
    SortOrders<Edge>(TryOrder(verdicts), pairs);
    SortKeepsPositions<Edge>(TryOrder(verdicts), pairs, tries);
    StillListsAccepted(verdicts, slot, pairs, tries);
  }

  lemma StillListsAccepted(verdicts: Verdicts, slot: map<Edge, nat>, pairs: seq<Edge>, tries: seq<Edge>)
    requires ListsAccepted(verdicts, slot, pairs) && Distinct(tries)
    requires forall k :: 0 <= k < |tries| ==> tries[k] in pairs
    requires forall k :: 0 <= k < |pairs| ==> pairs[k] in tries
    ensures ListsAccepted(verdicts, slot, tries)
  {
  }

  method JoinAndCollect(
      listings: seq<Listing>, verdicts: Verdicts, list: seq<Decision>, slot: map<Edge, nat>, tries: seq<Edge>)
    returns (r: Resolution)
    requires AsDecided(|listings|, verdicts, list, slot) && Complete(|listings|, verdicts, slot)
    requires ListsAccepted(verdicts, slot, tries)
    ensures InRange(tries, |listings|)
    ensures Resolves(listings, verdicts, tries, FinalRoots(listings, verdicts, tries), r)
  {
    var decisions := new Decision[|list|](k requires 0 <= k < |list| => list[k]);
    assert decisions[..] == list;
    var sets := JoinAccepted(listings, verdicts, decisions, slot, tries);
    var components, heads := CollectComponents(sets.parent, FinalRoots(listings, verdicts, tries));
    r := Resolution(components, decisions[..], slot);
  }
}
