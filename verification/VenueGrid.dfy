/** Near points found through a grid of cells. */
module VenueGrid {
  import opened Listings
  import opened GuardedClustering
  import opened Venues
  import opened VenueReasons
  import opened VenueLinks

  /** Points the source keeps: inside generous province bounds. */
  predicate Usable(geo: Geo) {
    40.7 <= geo.lat <= 41.7 && 27.9 <= geo.lon <= 29.95
  }

  type Cell = (string, int, int)

  /** The 0.001-degree cell of a point. */
  function CellOf(city: string, geo: Geo): Cell {
    (city, (geo.lat * 1000.0).Floor, (geo.lon * 1000.0).Floor)
  }

  /** A globe of the earth's size: a degree of latitude is at least 111 km, and
      between usable points the cosine of the middle latitude is at least 0.7. */
  ghost predicate Plausible(globe: Globe) {
    && globe.radians * EARTH_RADIUS_METRES >= 111_000.0
    && forall a, b :: Usable(a) && Usable(b) ==> MiddleCosine(globe, a, b) >= 0.7
  }

  lemma SquareGrows(x: real, bound: real)
    requires x > bound >= 0.0
    ensures x * x > bound * bound
  {
    var gap := x - bound;
    assert x * x == bound * bound + gap * (x + bound);
    ProductAtLeast(gap, gap, x + bound, gap);
    assert gap * gap > 0.0;
  }

  lemma SquareWithin(x: real, bound: real)
    requires bound >= 0.0 && x * x <= bound * bound
    ensures -bound <= x <= bound
  {
    if x > bound {
      SquareGrows(x, bound);
    } else if -x > bound {
      SquareGrows(-x, bound);
    }
  }

  /** A difference that spans at most 75 m at k metres a degree is under 0.001 degrees. */
  lemma DegreesWithin(difference: real, k: real)
    requires k >= 77_000.0 && -GEO_RADIUS_METRES <= difference * k <= GEO_RADIUS_METRES
    ensures -0.001 < difference < 0.001
  {
    if difference >= 0.001 {
      ProductAtLeast(difference, 0.001, k, 77_000.0);
    } else if -difference >= 0.001 {
      ProductAtLeast(-difference, 0.001, k, 77_000.0);
    }
  }

  lemma FloorsWithin(a: real, b: real)
    requires -0.001 < b - a < 0.001
    ensures -1 <= (b * 1000.0).Floor - (a * 1000.0).Floor <= 1
  {
  }

  /** Two usable points within 75 m lie in the same cell or in adjacent ones. */
  lemma NearPointsAreNeighbours(globe: Globe, a: Geo, b: Geo)
    requires Plausible(globe) && Usable(a) && Usable(b)
    requires !Beyond(globe, a, b, GEO_RADIUS_METRES)
    ensures -1 <= (b.lat * 1000.0).Floor - (a.lat * 1000.0).Floor <= 1
    ensures -1 <= (b.lon * 1000.0).Floor - (a.lon * 1000.0).Floor <= 1
  {
    var x, y := East(globe, a, b), North(globe, a, b);
    ScaledSquares(x, y);
    SquareWithin(x * EARTH_RADIUS_METRES, GEO_RADIUS_METRES);
    SquareWithin(y * EARTH_RADIUS_METRES, GEO_RADIUS_METRES);
    SpanWithin(b.lat - a.lat, globe.radians, 1.0);
    SpanWithin(b.lon - a.lon, globe.radians, MiddleCosine(globe, a, b));
    FloorsWithin(a.lat, b.lat);
    FloorsWithin(a.lon, b.lon);
  }

  lemma SpanWithin(d: real, radians: real, c: real)
    requires radians * EARTH_RADIUS_METRES >= 111_000.0 && c >= 0.7
    requires -GEO_RADIUS_METRES <= d * radians * c * EARTH_RADIUS_METRES <= GEO_RADIUS_METRES
    ensures -0.001 < d < 0.001
  {
    var k := radians * EARTH_RADIUS_METRES;
    ProductAtLeast(k, 111_000.0, c, 0.7);
    Regroup(d, radians, c, EARTH_RADIUS_METRES);
    DegreesWithin(d, k * c);
  }

  lemma Regroup(d: real, p: real, c: real, r: real)
    ensures d * p * c * r == d * (p * r * c)
  {
  }

  lemma ProductAtLeast(a: real, low: real, b: real, floor: real)
    requires a >= low >= 0.0 && b >= floor >= 0.0
    ensures a * b >= low * floor
  {
  }

  lemma ScaledSquares(x: real, y: real)
    requires (x * x + y * y) * (EARTH_RADIUS_METRES * EARTH_RADIUS_METRES) <= GEO_RADIUS_METRES * GEO_RADIUS_METRES
    ensures (x * EARTH_RADIUS_METRES) * (x * EARTH_RADIUS_METRES) <= GEO_RADIUS_METRES * GEO_RADIUS_METRES
    ensures (y * EARTH_RADIUS_METRES) * (y * EARTH_RADIUS_METRES) <= GEO_RADIUS_METRES * GEO_RADIUS_METRES
  {
    assert x * x >= 0.0 && y * y >= 0.0;
  }

  /** Two listings the geographic rule links: within 75 m, with a word in common. */
  predicate Near(globe: Globe, listings: seq<VenueListing>, i: nat, j: nat)
    requires i < |listings| && j < |listings|
  {
    && listings[i].city == listings[j].city
    && listings[i].evidence.geo.Some? && listings[j].evidence.geo.Some?
    && !Beyond(globe, listings[j].evidence.geo.value, listings[i].evidence.geo.value, GEO_RADIUS_METRES)
    && listings[i].nameTokens * listings[j].nameTokens != {}
  }

  type Cells = map<Cell, seq<nat>>

  function HomeCell(listings: seq<VenueListing>, i: nat): Cell
    requires i < |listings| && listings[i].evidence.geo.Some?
  {
    CellOf(listings[i].city, listings[i].evidence.geo.value)
  }

  /** cells holds the located listings before index, each in its own cell. */
  ghost predicate Indexed(listings: seq<VenueListing>, index: nat, cells: Cells)
    requires index <= |listings|
  {
    && (forall c, k :: c in cells && 0 <= k < |cells[c]| ==>
      cells[c][k] < index && listings[cells[c][k]].evidence.geo.Some? && HomeCell(listings, cells[c][k]) == c)
    && (forall i :: 0 <= i < index && listings[i].evidence.geo.Some? ==>
      HomeCell(listings, i) in cells && i in cells[HomeCell(listings, i)])
  }

  /** Compares one listing with the earlier listings of one cell. */
  method ScanCell(near: (nat, nat) -> bool, index: nat, cell: seq<nat>, edges0: EdgeMap) returns (edges: EdgeMap)
    requires forall k :: 0 <= k < |cell| ==> cell[k] < index
    ensures Extends(edges0, edges)
    ensures forall i: nat :: i in cell && near(i, index) ==> Offered(edges, i, index, GEO_PRIORITY)
    ensures forall p :: p in edges ==>
      Kept(edges0, edges, p) || (edges[p] == GEO_PRIORITY && p.0 in cell && p.1 == index && near(p.0, index))
  {
    edges := edges0;
    for k := 0 to |cell|
      invariant Extends(edges0, edges)
      invariant forall i: nat :: i in cell[..k] && near(i, index) ==> Offered(edges, i, index, GEO_PRIORITY)
      invariant forall p :: p in edges ==>
        Kept(edges0, edges, p) || (edges[p] == GEO_PRIORITY && p.0 in cell && p.1 == index && near(p.0, index))
    {
      if near(cell[k], index) {
        edges := AddEdge(edges, cell[k], index, GEO_PRIORITY);
      }
    }
    assert cell[..|cell|] == cell;
  }

  /** One of the nine cells around home. */
  ghost predicate Neighbour(home: Cell, c: Cell) {
    c.0 == home.0 && -1 <= c.1 - home.1 <= 1 && -1 <= c.2 - home.2 <= 1
  }

  ghost predicate Scanned(home: Cell, c: Cell, dx: int, dy: int) {
    Neighbour(home, c) && (c.1 - home.1 < dx || (c.1 - home.1 == dx && c.2 - home.2 < dy))
  }

  /** Every near listing of a scanned cell has been offered. */
  ghost predicate OfferedFrom(
      near: (nat, nat) -> bool, index: nat, home: Cell, cells: Cells, dx: int, dy: int, edges: EdgeMap) {
    forall c, i: nat :: Scanned(home, c, dx, dy) && c in cells && i in cells[c] && near(i, index) ==>
      Offered(edges, i, index, GEO_PRIORITY)
  }

  /** Compares one listing with the earlier listings of the nine cells around it. */
  method ScanAround(
      near: (nat, nat) -> bool, index: nat, home: Cell, cells: Cells, edges0: EdgeMap)
    returns (edges: EdgeMap)
    requires forall c, k :: c in cells && 0 <= k < |cells[c]| ==> cells[c][k] < index
    ensures Extends(edges0, edges)
    ensures OfferedFrom(near, index, home, cells, 2, -1, edges)
    ensures forall p :: p in edges ==>
      Kept(edges0, edges, p) || (edges[p] == GEO_PRIORITY && p.0 < p.1 == index && near(p.0, index))
  {
    edges := edges0;
    for dx := -1 to 2
      invariant Extends(edges0, edges)
      invariant OfferedFrom(near, index, home, cells, dx, -1, edges)
      invariant forall p :: p in edges ==>
        Kept(edges0, edges, p) || (edges[p] == GEO_PRIORITY && p.0 < p.1 == index && near(p.0, index))
    {
      for dy := -1 to 2
        invariant Extends(edges0, edges)
        invariant OfferedFrom(near, index, home, cells, dx, dy, edges)
        invariant forall p :: p in edges ==>
          Kept(edges0, edges, p) || (edges[p] == GEO_PRIORITY && p.0 < p.1 == index && near(p.0, index))
      {
        var c := (home.0, home.1 + dx, home.2 + dy);
        ghost var before := edges;
        if c in cells {
          edges := ScanCell(near, index, cells[c], edges);
          forall p | p in edges
            ensures Kept(edges0, edges, p) || (edges[p] == GEO_PRIORITY && p.0 < p.1 == index && near(p.0, index))
          {
            if !Kept(before, edges, p) {
              var k :| 0 <= k < |cells[c]| && cells[c][k] == p.0;
            }
          }
        }
        forall d, i: nat | Scanned(home, d, dx, dy + 1) && d in cells && i in cells[d] && near(i, index)
          ensures Offered(edges, i, index, GEO_PRIORITY)
        {
          if d != c {
            assert Scanned(home, d, dx, dy) && Offered(before, i, index, GEO_PRIORITY);
          }
        }
      }
    }
  }

  lemma NearIsNeighbour(globe: Globe, listings: seq<VenueListing>, i: nat, j: nat)
    requires Plausible(globe) && i < |listings| && j < |listings| && Near(globe, listings, i, j)
    requires Usable(listings[i].evidence.geo.value) && Usable(listings[j].evidence.geo.value)
    ensures Neighbour(HomeCell(listings, j), HomeCell(listings, i))
  {
    NearPointsAreNeighbours(globe, listings[j].evidence.geo.value, listings[i].evidence.geo.value);
  }

  ghost predicate AllUsable(listings: seq<VenueListing>) {
    forall i :: 0 <= i < |listings| && listings[i].evidence.geo.Some? ==> Usable(listings[i].evidence.geo.value)
  }

  /** The near test as a function of indexes. */
  function NearTest(globe: Globe, listings: seq<VenueListing>): (nat, nat) -> bool {
    (i: nat, j: nat) => i < |listings| && j < |listings| && Near(globe, listings, i, j)
  }

  /** Every near pair before n has been offered. */
  ghost predicate NearPairsOffered(near: (nat, nat) -> bool, n: nat, edges: EdgeMap) {
    forall i: nat, j: nat :: i < j < n && near(i, j) ==> Offered(edges, i, j, GEO_PRIORITY)
  }

  method FileInCell(listings: seq<VenueListing>, index: nat, cells0: Cells) returns (cells: Cells)
    requires index < |listings| && listings[index].evidence.geo.Some? && Indexed(listings, index, cells0)
    ensures Indexed(listings, index + 1, cells)
  {
    var home := HomeCell(listings, index);
    cells := cells0[home := (if home in cells0 then cells0[home] else []) + [index]];
  }

  /** The grid misses nothing: every pair of listings of one city within 75 m
      that shares a name token gets an edge of priority 3 or better. */
  method AddGeoEdges(globe: Globe, listings: seq<VenueListing>, edges0: EdgeMap) returns (edges: EdgeMap)
    requires Plausible(globe) && AllUsable(listings)
    ensures Extends(edges0, edges)
    ensures NearPairsOffered(NearTest(globe, listings), |listings|, edges)
    ensures OffersExactly(edges0, edges, GeoReasons(globe, listings))
  {
    edges := edges0;
    AllNearAreClose(globe, listings);
    var near := NearTest(globe, listings);
    var cells: Cells := map[];
    for index := 0 to |listings|
      invariant Indexed(listings, index, cells)
      invariant Extends(edges0, edges) && NearPairsOffered(near, index, edges)
      invariant OfferedFor(edges0, edges, GeoReasons(globe, listings))
    {
      if listings[index].evidence.geo.Some? {
        var home := HomeCell(listings, index);
        ghost var before := edges;
        edges := ScanAround(near, index, home, cells, edges);
        forall i: nat | i < index && near(i, index) ensures Offered(edges, i, index, GEO_PRIORITY) {
          NearIsNeighbour(globe, listings, i, index);
          assert Scanned(home, HomeCell(listings, i), 2, -1);
        }
        NearPairsNext(near, index, before, edges);
        cells := FileInCell(listings, index, cells);
      } else {
        NearPairsNext(near, index, edges, edges);
      }
    }
    forall p | GeoReasons(globe, listings)(p, GEO_PRIORITY) ensures p in edges && edges[p] <= GEO_PRIORITY {
      assert Offered(edges, p.0, p.1, GEO_PRIORITY);
    }
  }

  /** Points within 75 m and a word in common. */
  ghost function GeoReasons(globe: Globe, listings: seq<VenueListing>): Reasons {
    (p: Edge, q: nat) => q == GEO_PRIORITY && p.0 < p.1 < |listings|
      && Close(globe, listings[p.0], listings[p.1])
  }

  lemma NearIsClose(globe: Globe, listings: seq<VenueListing>, i: nat, j: nat)
    requires i < |listings| && j < |listings|
    ensures Near(globe, listings, i, j) <==> Close(globe, listings[i], listings[j])
  {
    var a, b := listings[i], listings[j];
    if a.evidence.geo.Some? && b.evidence.geo.Some? {
      BeyondByFields(globe, b.evidence.geo.value, a.evidence.geo.value, GEO_RADIUS_METRES);
    }
    if word :| word in a.nameTokens && word in b.nameTokens {
      assert word in a.nameTokens * b.nameTokens;
    }
  }

  lemma AllNearAreClose(globe: Globe, listings: seq<VenueListing>)
    ensures forall i: nat, j: nat :: i < |listings| && j < |listings| ==>
      (Near(globe, listings, i, j) <==> Close(globe, listings[i], listings[j]))
  {
    forall i: nat, j: nat | i < |listings| && j < |listings|
      ensures Near(globe, listings, i, j) <==> Close(globe, listings[i], listings[j])
    {
      NearIsClose(globe, listings, i, j);
    }
  }

  lemma NearPairsNext(near: (nat, nat) -> bool, index: nat, before: EdgeMap, after: EdgeMap)
    requires NearPairsOffered(near, index, before) && Extends(before, after)
    requires forall i: nat :: i < index && near(i, index) ==> Offered(after, i, index, GEO_PRIORITY)
    ensures NearPairsOffered(near, index + 1, after)
  {
    forall i: nat, j: nat | i < j < index + 1 && near(i, j) ensures Offered(after, i, j, GEO_PRIORITY) {
      if j < index {
        assert Offered(before, i, j, GEO_PRIORITY);
      }
    }
  }
}
