/** Venue resolution: joining listings whose stated locations do not conflict. */
module Venues {
  import opened Listings
  import opened UnionFind
  import opened GuardedClustering

  datatype Geo = Geo(lat: real, lon: real)

  /** A sphere as the source measures it: radians per degree and the cosine. */
  datatype Globe = Globe(radians: real, cosine: real -> real)

  const EARTH_RADIUS_METRES := 6_371_000.0
  const GEO_RADIUS_METRES := 75.0
  const GEO_CONFLICT_METRES := 1_000.0

  /** East-west and north-south separation as fractions of the radius. */
  function East(globe: Globe, a: Geo, b: Geo): real {
    (b.lon - a.lon) * globe.radians * MiddleCosine(globe, a, b)
  }

  function MiddleCosine(globe: Globe, a: Geo, b: Geo): real {
    globe.cosine(MiddleAngle(globe, a, b))
  }

  /** The middle latitude in radians. */
  function MiddleAngle(globe: Globe, a: Geo, b: Geo): real {
    (a.lat + b.lat) / 2.0 * globe.radians
  }

  function North(globe: Globe, a: Geo, b: Geo): real {
    (b.lat - a.lat) * globe.radians
  }

  /** The square of the equirectangular distance in metres. */
  function SquaredMetres(globe: Globe, a: Geo, b: Geo): real {
    var x, y := East(globe, a, b), North(globe, a, b);
    (x * x + y * y) * (EARTH_RADIUS_METRES * EARTH_RADIUS_METRES)
  }

  predicate Beyond(globe: Globe, a: Geo, b: Geo, metres: real) {
    SquaredMetres(globe, a, b) > metres * metres
  }

  lemma BeyondIsSymmetric(globe: Globe, a: Geo, b: Geo, metres: real)
    ensures Beyond(globe, a, b, metres) == Beyond(globe, b, a, metres)
  {
    assert MiddleAngle(globe, a, b) == MiddleAngle(globe, b, a);
    Opposite(b.lon - a.lon, a.lon - b.lon, globe.radians, MiddleCosine(globe, a, b));
    Opposite(b.lat - a.lat, a.lat - b.lat, globe.radians, 1.0);
    SquareOfOpposite(East(globe, a, b));
    SquareOfOpposite(North(globe, a, b));
  }

  lemma Opposite(d: real, e: real, r: real, c: real)
    requires e == -d
    ensures e * r * c == -(d * r * c)
  {
  }

  lemma SquareOfOpposite(x: real)
    ensures (-x) * (-x) == x * x
  {
  }

  /** Everything venue conflicts depend on; the districts and sides are the
      ones a listing states, and "" is no provider venue id. */
  datatype Evidence = Evidence(
    districts: set<string>,
    sides: set<string>,
    geo: Option<Geo>,
    provider: string,
    providerVenueId: string)

  /** Both state where they are, and nothing stated overlaps. */
  predicate LocationConflict(a: Evidence, b: Evidence) {
    || (a.districts != {} && b.districts != {} && a.districts !! b.districts)
    || (a.sides != {} && b.sides != {} && a.sides !! b.sides)
  }

  predicate Conflict(globe: Globe, a: Evidence, b: Evidence) {
    || LocationConflict(a, b)
    || (a.geo.Some? && b.geo.Some? && Beyond(globe, a.geo.value, b.geo.value, GEO_CONFLICT_METRES))
    || (a.provider == b.provider && a.providerVenueId != "" && b.providerVenueId != ""
      && a.providerVenueId != b.providerVenueId)
  }

  lemma ConflictIsSymmetric(globe: Globe, a: Evidence, b: Evidence)
    ensures Conflict(globe, a, b) == Conflict(globe, b, a)
  {
    if a.geo.Some? && b.geo.Some? {
      BeyondIsSymmetric(globe, a.geo.value, b.geo.value, GEO_CONFLICT_METRES);
    }
  }

  // ---- what a conflict is, read off the fields ----

  /** The square of the distance in metres, with longitudes shortened by c. */
  function Apart(globe: Globe, a: Geo, b: Geo, c: real): real {
    var x := (b.lon - a.lon) * globe.radians * c;
    var y := (b.lat - a.lat) * globe.radians;
    (x * x + y * y) * (6_371_000.0 * 6_371_000.0)
  }

  /** Two points are at most so many metres apart, with longitudes shortened by
      the cosine of the middle latitude. */
  ghost predicate Within(globe: Globe, a: Geo, b: Geo, metres: real) {
    exists angle: real :: angle * 2.0 == (a.lat + b.lat) * globe.radians
      && Apart(globe, a, b, globe.cosine(angle)) <= metres * metres
  }

  /** Where both state districts they share one, and so for sides of the city. */
  predicate PlacesAgree(a: Evidence, b: Evidence) {
    && (a.districts == {} || b.districts == {} || exists d :: d in a.districts && d in b.districts)
    && (a.sides == {} || b.sides == {} || exists s :: s in a.sides && s in b.sides)
  }

  /** Nothing stated rules out one venue: places agree, known points are within
      1,000 m, and one provider gives one id. */
  ghost predicate MayShareVenue(globe: Globe, a: Evidence, b: Evidence) {
    && PlacesAgree(a, b)
    && (a.geo.Some? && b.geo.Some? ==> Within(globe, a.geo.value, b.geo.value, 1_000.0))
    && (a.provider == b.provider ==>
          a.providerVenueId == "" || b.providerVenueId == "" || a.providerVenueId == b.providerVenueId)
  }

  lemma DistanceByFields(globe: Globe, a: Geo, b: Geo)
    ensures SquaredMetres(globe, a, b) == Apart(globe, a, b, MiddleCosine(globe, a, b))
  {
    SameScale(East(globe, a, b), North(globe, a, b), EARTH_RADIUS_METRES * EARTH_RADIUS_METRES,
              6_371_000.0 * 6_371_000.0);
  }

  lemma SameScale(x: real, y: real, k: real, l: real)
    requires k == l
    ensures (x * x + y * y) * k == (x * x + y * y) * l
  {
  }

  lemma MiddleAngleIsHalf(globe: Globe, a: Geo, b: Geo)
    ensures MiddleAngle(globe, a, b) * 2.0 == (a.lat + b.lat) * globe.radians
  {
    Halved(a.lat + b.lat, globe.radians);
  }

  lemma Halved(sum: real, factor: real)
    ensures sum / 2.0 * factor * 2.0 == sum * factor
  {
  }

  lemma BeyondByFields(globe: Globe, a: Geo, b: Geo, metres: real)
    ensures Beyond(globe, a, b, metres) <==> !Within(globe, a, b, metres)
  {
    DistanceByFields(globe, a, b);
    MiddleAngleIsHalf(globe, a, b);
    var middle := MiddleAngle(globe, a, b);
    assert MiddleCosine(globe, a, b) == globe.cosine(middle);
    if Within(globe, a, b, metres) {
      var angle: real :| angle * 2.0 == (a.lat + b.lat) * globe.radians
        && Apart(globe, a, b, globe.cosine(angle)) <= metres * metres;
      assert angle == middle;
    }
  }

  lemma LocationsByFields(a: Evidence, b: Evidence)
    ensures LocationConflict(a, b) <==> !PlacesAgree(a, b)
  {
  }

  lemma ConflictByFields(globe: Globe, a: Evidence, b: Evidence)
    ensures Conflict(globe, a, b) <==> !MayShareVenue(globe, a, b)
  {
    LocationsByFields(a, b);
    if a.geo.Some? && b.geo.Some? {
      BeyondByFields(globe, a.geo.value, b.geo.value, GEO_CONFLICT_METRES);
    }
  }

  type Conflicts = (Evidence, Evidence) -> bool

  /** The conflict test on a given globe. */
  function ConflictsOn(globe: Globe): Conflicts {
    (a: Evidence, b: Evidence) => Conflict(globe, a, b)
  }

  ghost predicate SymmetricConflicts(conflicts: Conflicts) {
    forall a, b :: conflicts(a, b) == conflicts(b, a)
  }

  lemma ConflictsOnGlobeAreSymmetric(globe: Globe)
    ensures SymmetricConflicts(ConflictsOn(globe))
  {
    forall a, b ensures ConflictsOn(globe)(a, b) == ConflictsOn(globe)(b, a) {
      ConflictIsSymmetric(globe, a, b);
    }
  }

  /** Two listings that may never share a venue. */
  ghost function VenueClash(conflicts: Conflicts, evidence: seq<Evidence>): (nat, nat) -> bool {
    (x: nat, y: nat) => x < |evidence| && y < |evidence| && conflicts(evidence[x], evidence[y])
  }

  ghost function VenueRoots(conflicts: Conflicts, evidence: seq<Evidence>, edges: seq<Edge>): (roots: seq<nat>)
    requires InRange(edges, |evidence|)
    ensures |roots| == |evidence|
  {
    Run(Singletons(|evidence|), VenueClash(conflicts, evidence), edges)
  }

  // ---- one representative per distinct evidence ----

  /** chosen holds one member of root's component for every evidence in it. */
  ghost predicate Represents(evidence: seq<Evidence>, roots: seq<nat>, root: nat, chosen: map<Evidence, nat>)
    requires |roots| == |evidence|
  {
    && (forall e :: e in chosen ==> chosen[e] < |roots| && roots[chosen[e]] == root && evidence[chosen[e]] == e)
    && (forall x :: 0 <= x < |roots| && roots[x] == root ==> evidence[x] in chosen)
  }

  ghost predicate RepresentativesConflict(conflicts: Conflicts, left: map<Evidence, nat>, right: map<Evidence, nat>) {
    exists e, f :: e in left && f in right && conflicts(e, f)
  }

  /** Comparing representatives is comparing all members. */
  lemma RepresentativesSuffice(
      conflicts: Conflicts, evidence: seq<Evidence>, roots: seq<nat>, l: nat, r: nat, left: map<Evidence, nat>,
      right: map<Evidence, nat>)
    requires |roots| == |evidence| && l < |roots| && r < |roots| && roots[l] != roots[r]
    requires Represents(evidence, roots, roots[l], left) && Represents(evidence, roots, roots[r], right)
    ensures Blocked(roots, VenueClash(conflicts, evidence), l, r) <==> RepresentativesConflict(conflicts, left, right)
  {
    var clash := VenueClash(conflicts, evidence);
    if Blocked(roots, clash, l, r) {
      var x, y :| 0 <= x < |roots| && 0 <= y < |roots| && x != y && roots[x] == roots[l] && roots[y] == roots[r]
        && clash(x, y);
      assert evidence[x] in left && evidence[y] in right;
    }
    if RepresentativesConflict(conflicts, left, right) {
      var e, f :| e in left && f in right && conflicts(e, f);
      var a, b := left[e], right[f];
      assert evidence[a] == e && evidence[b] == f;
      assert clash(a, b) && roots[a] == roots[l] && roots[b] == roots[r];
    }
  }

  function Lesser(a: nat, b: nat): nat { if a < b then a else b }

  function Greater(a: nat, b: nat): nat { if a < b then b else a }

  lemma MergedRepresents(
      evidence: seq<Evidence>, roots: seq<nat>, l: nat, r: nat, keep: map<Evidence, nat>, drop: map<Evidence, nat>)
    requires |roots| == |evidence| && l < |roots| && r < |roots| && roots[l] != roots[r]
    requires Represents(evidence, roots, Lesser(roots[l], roots[r]), keep)
    requires Represents(evidence, roots, Greater(roots[l], roots[r]), drop)
    ensures Represents(evidence, Merge(roots, roots[l], roots[r]), Lesser(roots[l], roots[r]), drop + keep)
  {
  }

  // ---- the guarded loop ----

  /** Every live root carries the representatives of its component. */
  ghost predicate AllRepresented(evidence: seq<Evidence>, roots: seq<nat>, chosen: seq<map<Evidence, nat>>)
    requires |roots| == |evidence|
  {
    |chosen| == |roots| && forall x :: 0 <= x < |roots| && roots[x] < |roots| ==>
      Represents(evidence, roots, roots[x], chosen[roots[x]])
  }

  /** Does any representative of one side conflict with one of the other? */
  method RepresentativesClash(
      conflicts: Conflicts, evidence: seq<Evidence>, left: map<Evidence, nat>,
      right: map<Evidence, nat>) returns (conflict: bool)
    requires forall e :: e in left ==> left[e] < |evidence| && evidence[left[e]] == e
    requires forall e :: e in right ==> right[e] < |evidence| && evidence[right[e]] == e
    ensures conflict <==> RepresentativesConflict(conflicts, left, right)
  {
    conflict := false;
    var lefts := left.Keys;
    while lefts != {}
      invariant lefts <= left.Keys
      invariant conflict <==> exists e, f :: e in left.Keys - lefts && f in right && conflicts(e, f)
      decreases lefts
    {
      var e :| e in lefts;
      var rights := right.Keys;
      ghost var before := conflict;
      while rights != {}
        invariant rights <= right.Keys
        invariant conflict <==> before || exists f :: f in right.Keys - rights && conflicts(e, f)
        decreases rights
      {
        var f :| f in rights;
        if conflicts(evidence[left[e]], evidence[right[f]]) {
          conflict := true;
        }
        rights := rights - {f};
      }
      lefts := lefts - {e};
    }
  }

  /** Adds the dropped root's representatives for evidence not yet chosen. */
  method AdoptRepresentatives(
      kept: map<Evidence, nat>, dropped: map<Evidence, nat>)
    returns (joined: map<Evidence, nat>)
    ensures joined == dropped + kept
  {
    joined := kept;
    var keys := dropped.Keys;
    while keys != {}
      invariant keys <= dropped.Keys
      invariant joined.Keys == kept.Keys + (dropped.Keys - keys)
      invariant forall e :: e in joined ==> joined[e] == if e in kept then kept[e] else dropped[e]
      decreases keys
    {
      var key :| key in keys;
      if key !in joined {
        joined := joined[key := dropped[key]];
      }
      keys := keys - {key};
    }
  }

  lemma MergedAllRepresented(
      evidence: seq<Evidence>, roots: seq<nat>, chosen: seq<map<Evidence, nat>>, l: nat, r: nat,
      after: seq<map<Evidence, nat>>)
    requires |roots| == |evidence| && Labelling(roots) && l < |roots| && r < |roots| && roots[l] != roots[r]
    requires AllRepresented(evidence, roots, chosen) && |after| == |chosen|
    requires var keep, drop := Lesser(roots[l], roots[r]), Greater(roots[l], roots[r]);
      after == chosen[keep := chosen[drop] + chosen[keep]][drop := map[]]
    ensures AllRepresented(evidence, Merge(roots, roots[l], roots[r]), after)
  {
    var next := Merge(roots, roots[l], roots[r]);
    var keep, drop := Lesser(roots[l], roots[r]), Greater(roots[l], roots[r]);
    assert Represents(evidence, roots, roots[l], chosen[roots[l]]);
    assert Represents(evidence, roots, roots[r], chosen[roots[r]]);
    MergedRepresents(evidence, roots, l, r, chosen[keep], chosen[drop]);
    forall x | 0 <= x < |roots| ensures Represents(evidence, next, next[x], after[next[x]]) {
      if next[x] != keep {
        assert Represents(evidence, roots, roots[x], chosen[roots[x]]);
      }
    }
  }

  /** Joins two components and their representatives. */
  method JoinEdge(
      evidence: seq<Evidence>, sets: DisjointSet, chosen: array<map<Evidence, nat>>, ghost roots: seq<nat>, edge: Edge,
      leftRoot: nat, rightRoot: nat)
    requires |roots| == |evidence| && Labelling(roots) && edge.0 < |roots| && edge.1 < |roots|
    requires leftRoot == roots[edge.0] && rightRoot == roots[edge.1] && leftRoot != rightRoot
    requires sets.Valid() && Labels(sets.parent[..], roots)
    requires AllRepresented(evidence, roots, chosen[..])
    requires chosen as object != sets.parent && chosen as object != sets.componentMembers
    modifies sets.parent, sets.componentMembers, chosen
    ensures sets.Valid() && Labels(sets.parent[..], Merge(roots, roots[edge.0], roots[edge.1]))
    ensures AllRepresented(evidence, Merge(roots, roots[edge.0], roots[edge.1]), chosen[..])
  {
    ghost var before, p := chosen[..], sets.parent[..];
    var root := sets.Union(edge.0, edge.1);
    JoinedIsMerge(p, sets.parent[..], roots, edge.0, edge.1);
    var other := if root == leftRoot then rightRoot else leftRoot;
    var joined := AdoptRepresentatives(chosen[root], chosen[other]);
    chosen[root] := joined;
    chosen[other] := map[];
    assert chosen[..] == before[root := joined][other := map[]];
    MergedAllRepresented(evidence, roots, before, edge.0, edge.1, chosen[..]);
  }

  /** Whether the representatives of two components conflict. */
  method Weigh(
      conflicts: Conflicts, evidence: seq<Evidence>, chosen: array<map<Evidence, nat>>, ghost roots: seq<nat>,
      ghost edge: Edge, leftRoot: nat, rightRoot: nat)
    returns (conflict: bool)
    requires |roots| == |evidence| && Labelling(roots) && edge.0 < |roots| && edge.1 < |roots|
    requires leftRoot == roots[edge.0] && rightRoot == roots[edge.1] && leftRoot != rightRoot
    requires AllRepresented(evidence, roots, chosen[..])
    ensures conflict <==> Blocked(roots, VenueClash(conflicts, evidence), edge.0, edge.1)
  {
    assert Represents(evidence, roots, leftRoot, chosen[..][leftRoot]);
    assert Represents(evidence, roots, rightRoot, chosen[..][rightRoot]);
    conflict := RepresentativesClash(conflicts, evidence, chosen[leftRoot], chosen[rightRoot]);
    RepresentativesSuffice(conflicts, evidence, roots, edge.0, edge.1, chosen[leftRoot], chosen[rightRoot]);
  }

  /** One edge: joins its components unless representatives conflict. */
  method TryEdge(
      conflicts: Conflicts, evidence: seq<Evidence>, sets: DisjointSet, chosen: array<map<Evidence, nat>>,
      ghost roots: seq<nat>, edge: Edge)
    requires |roots| == |evidence| && Labelling(roots) && edge.0 < |roots| && edge.1 < |roots|
    requires InRange([edge], |roots|)
    requires sets.Valid() && Labels(sets.parent[..], roots)
    requires AllRepresented(evidence, roots, chosen[..])
    requires chosen as object != sets.parent && chosen as object != sets.componentMembers
    modifies sets.parent, sets.componentMembers, chosen
    ensures sets.Valid() && Labels(sets.parent[..], Step(roots, VenueClash(conflicts, evidence), edge))
    ensures AllRepresented(evidence, Step(roots, VenueClash(conflicts, evidence), edge), chosen[..])
  {
    var leftRoot := sets.Find(edge.0);
    var rightRoot := sets.Find(edge.1);
    if leftRoot == rightRoot {
      return;
    }
    var conflict := Weigh(conflicts, evidence, chosen, roots, edge, leftRoot, rightRoot);
    if !conflict {
      JoinEdge(evidence, sets, chosen, roots, edge, leftRoot, rightRoot);
    }
  }

  /** A listing on its own represents itself. */
  function Alone(evidence: Evidence, index: nat): map<Evidence, nat> {
    map[evidence := index]
  }

  /** Tries every edge in order. The components are those of the guarded run
      over the full conflict check. */
  method JoinVenues(conflicts: Conflicts, evidence: seq<Evidence>, edges: seq<Edge>) returns (sets: DisjointSet)
    requires InRange(edges, |evidence|)
    ensures fresh(sets) && fresh(sets.parent) && sets.Valid()
    ensures Labels(sets.parent[..], VenueRoots(conflicts, evidence, edges))
  {
    sets := new DisjointSet(|evidence|);
    var chosen := new map<Evidence, nat>[|evidence|]((i: nat) requires i < |evidence| => Alone(evidence[i], i));
    for k := 0 to |edges|
      invariant fresh(sets.parent) && fresh(sets.componentMembers) && sets.Valid()
      invariant Labels(sets.parent[..], VenueRoots(conflicts, evidence, edges[..k]))
      invariant AllRepresented(evidence, VenueRoots(conflicts, evidence, edges[..k]), chosen[..])
    {
      ghost var roots := VenueRoots(conflicts, evidence, edges[..k]);
      NextEdge(conflicts, evidence, edges, k);
      TryEdge(conflicts, evidence, sets, chosen, roots, edges[k]);
    }
    assert edges[..|edges|] == edges;
  }

  lemma NextEdge(conflicts: Conflicts, evidence: seq<Evidence>, edges: seq<Edge>, k: nat)
    requires InRange(edges, |evidence|) && k < |edges|
    ensures Labelling(VenueRoots(conflicts, evidence, edges[..k]))
    ensures VenueRoots(conflicts, evidence, edges[..k + 1])
         == Step(VenueRoots(conflicts, evidence, edges[..k]), VenueClash(conflicts, evidence), edges[k])
  {
    assert edges[..k + 1][..k] == edges[..k];
    RunKeepsLabelling(Singletons(|evidence|), VenueClash(conflicts, evidence), edges[..k]);
  }

  // ---- what the components guarantee ----

  /** No venue holds two listings that conflict. */
  lemma VenuesHoldNoConflict(conflicts: Conflicts, evidence: seq<Evidence>, edges: seq<Edge>, x: nat, y: nat)
    requires SymmetricConflicts(conflicts) && InRange(edges, |evidence|) && x < |evidence| && y < |evidence| && x != y
    requires VenueRoots(conflicts, evidence, edges)[x] == VenueRoots(conflicts, evidence, edges)[y]
    ensures !conflicts(evidence[x], evidence[y])
  {
    RunKeepsCompatible(Singletons(|evidence|), VenueClash(conflicts, evidence), edges);
    assert !VenueClash(conflicts, evidence)(x, y);
  }

  /** The components of l and r hold two listings that conflict. */
  ghost predicate HoldConflict(conflicts: Conflicts, evidence: seq<Evidence>, roots: seq<nat>, l: nat, r: nat)
    requires |roots| == |evidence| && l < |roots| && r < |roots|
  {
    exists x: nat, y: nat :: x < |roots| && y < |roots| && x != y && roots[x] == roots[l] && roots[y] == roots[r]
      && conflicts(evidence[x], evidence[y])
  }

  /** An edge ends up unused exactly when its venues hold a conflicting pair. */
  lemma UnusedEdgesConflict(conflicts: Conflicts, evidence: seq<Evidence>, edges: seq<Edge>, k: nat)
    requires SymmetricConflicts(conflicts) && InRange(edges, |evidence|) && k < |edges|
    ensures var roots, e := VenueRoots(conflicts, evidence, edges), edges[k];
      roots[e.0] != roots[e.1] <==>
        HoldConflict(conflicts, evidence, roots, e.0, e.1)
  {
    var clash := VenueClash(conflicts, evidence);
    var roots, e := VenueRoots(conflicts, evidence, edges), edges[k];
    EdgesAreSettled(Singletons(|evidence|), clash, edges, k);
    if HoldConflict(conflicts, evidence, roots, e.0, e.1) {
      var x: nat, y: nat :| x < |roots| && y < |roots| && x != y && roots[x] == roots[e.0] && roots[y] == roots[e.1]
        && conflicts(evidence[x], evidence[y]);
      assert clash(x, y);
    }
    if Blocked(roots, clash, e.0, e.1) {
      var x, y :| 0 <= x < |roots| && 0 <= y < |roots| && x != y && roots[x] == roots[e.0] && roots[y] == roots[e.1]
        && clash(x, y);
      assert conflicts(evidence[x], evidence[y]);
    }
  }

  /** On the globe: a venue's listings overlap where they state a district or a
      side, lie within 1,000 m of each other, and carry one id per provider. */
  lemma VenueMembersAgree(globe: Globe, evidence: seq<Evidence>, edges: seq<Edge>, x: nat, y: nat)
    requires InRange(edges, |evidence|) && x < |evidence| && y < |evidence| && x != y
    requires VenueRoots(ConflictsOn(globe), evidence, edges)[x] == VenueRoots(ConflictsOn(globe), evidence, edges)[y]
    ensures !LocationConflict(evidence[x], evidence[y])
    ensures evidence[x].geo.Some? && evidence[y].geo.Some? ==>
      !Beyond(globe, evidence[x].geo.value, evidence[y].geo.value, GEO_CONFLICT_METRES)
    ensures evidence[x].provider == evidence[y].provider && evidence[x].providerVenueId != ""
      && evidence[y].providerVenueId != ""
      ==> evidence[x].providerVenueId == evidence[y].providerVenueId
  {
    ConflictsOnGlobeAreSymmetric(globe);
    VenuesHoldNoConflict(ConflictsOn(globe), evidence, edges, x, y);
  }
}
