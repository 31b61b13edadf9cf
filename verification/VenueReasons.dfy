/** Why two listings may be given one venue, read off the listings alone. */
module VenueReasons {
  import opened Listings
  import opened GuardedClustering
  import opened Venues

  /** What edge collection reads of a listing; "" is an absent text. */
  datatype VenueListing = VenueListing(
    city: string,
    venueIdKey: string,
    seed: string,
    compact: string,
    nameTokens: set<string>,
    distinctive: DistinctiveName,
    evidence: Evidence)

  /** The sorted distinctive words of a venue name; identifying words are the
      long, non-generic ones. key is "" when the name is too weak to link. */
  datatype DistinctiveName = DistinctiveName(key: string, tokens: set<string>, identifying: set<string>)

  const PROVIDER_PRIORITY := 0
  const SEED_PRIORITY := 1
  const COMPACT_PRIORITY := 2
  const GEO_PRIORITY := 3
  const NAME_PRIORITY := 4
  const EXTENSION_PRIORITY := 5

  /** More pairs than this are linked by a chain and a star. */
  const LINK_ALL_LIMIT := 4096

  // ---- what two listings have in common ----

  type Likeness = (VenueListing, VenueListing) -> bool

  predicate SameVenueId(l: VenueListing, m: VenueListing) {
    l.city == m.city && l.evidence.provider == m.evidence.provider && l.venueIdKey == m.venueIdKey != ""
  }

  predicate SameSeed(l: VenueListing, m: VenueListing) { l.city == m.city && l.seed == m.seed != "" }

  predicate SameCompact(l: VenueListing, m: VenueListing) { l.city == m.city && l.compact == m.compact != "" }

  predicate SameName(l: VenueListing, m: VenueListing) {
    l.city == m.city && l.distinctive.key == m.distinctive.key != ""
  }

  /** Known points within 75 m, and a word of the name in common. */
  ghost predicate Close(globe: Globe, l: VenueListing, m: VenueListing) {
    && l.city == m.city
    && l.evidence.geo.Some? && m.evidence.geo.Some?
    && Within(globe, m.evidence.geo.value, l.evidence.geo.value, 75.0)
    && exists word :: word in l.nameTokens && word in m.nameTokens
  }

  // ---- position among the listings that are alike ----

  /** Listing i is the first of those like it. */
  ghost predicate First(listings: seq<VenueListing>, alike: Likeness, i: nat) {
    && i < |listings| && alike(listings[i], listings[i])
    && forall k :: 0 <= k < i ==> !alike(listings[k], listings[i])
  }

  /** Listing j is the next after i of those like it. */
  ghost predicate Next(listings: seq<VenueListing>, alike: Likeness, i: nat, j: nat) {
    && i < j < |listings| && alike(listings[i], listings[j])
    && forall k :: i < k < j ==> !alike(listings[k], listings[i])
  }

  /** Listing i is the first of those like it, and j is another one. */
  ghost predicate FirstAnd(listings: seq<VenueListing>, alike: Likeness, i: nat, j: nat) {
    i < j < |listings| && First(listings, alike, i) && alike(listings[i], listings[j])
  }

  ghost function AllLike(listings: seq<VenueListing>, alike: Likeness, i: nat): set<nat>
    requires i < |listings|
  {
    set k: nat | k < |listings| && alike(listings[i], listings[k])
  }

  // ---- names and the names one word longer ----

  /** m is called like l with one word more, and the new word identifies nothing
      when l is already specific. */
  predicate OneWordLonger(l: VenueListing, m: VenueListing) {
    && l.city == m.city
    && l.distinctive.tokens < m.distinctive.tokens && |m.distinctive.tokens - l.distinctive.tokens| == 1
    && (|l.distinctive.identifying| < 2 || m.distinctive.identifying - l.distinctive.tokens == {})
  }

  /** The name first borne by h is the only one that is one word longer than the
      name first borne by g, which has an identifying word. */
  ghost predicate OnlyLonger(listings: seq<VenueListing>, g: nat, h: nat) {
    && First(listings, SameName, g) && First(listings, SameName, h)
    && listings[g].distinctive.identifying != {}
    && OneWordLonger(listings[g], listings[h])
    && forall k: nat :: First(listings, SameName, k) && OneWordLonger(listings[g], listings[k]) ==> k == h
  }

  ghost predicate ManyPairs(listings: seq<VenueListing>, g: nat, h: nat)
    requires g < |listings| && h < |listings|
  {
    |AllLike(listings, SameName, g)| * |AllLike(listings, SameName, h)| > LINK_ALL_LIMIT
  }

  /** Two listings of one name: any two, or with too many pairs each listing with
      the next and all with the first, itself included. */
  ghost predicate NamedAlike(listings: seq<VenueListing>, i: nat, j: nat) {
    && i <= j < |listings| && SameName(listings[i], listings[j])
    && if ManyPairs(listings, i, i) then Next(listings, SameName, i, j) || First(listings, SameName, i) else i != j
  }

  /** Listing a bears a name and b the only one that is one word longer: any two,
      or with too many pairs b is the first that bears it. */
  ghost predicate NamedLonger(listings: seq<VenueListing>, a: nat, b: nat) {
    && a < |listings| && b < |listings|
    && exists g: nat, h: nat :: OnlyLonger(listings, g, h) && SameName(listings[g], listings[a])
         && if ManyPairs(listings, g, h) then b == h else SameName(listings[h], listings[b])
  }

  /** With too many pairs, each bearer of the longer name and the next. */
  ghost predicate ChainedLonger(listings: seq<VenueListing>, i: nat, j: nat) {
    && Next(listings, SameName, i, j)
    && exists g: nat, h: nat ::
         OnlyLonger(listings, g, h) && ManyPairs(listings, g, h) && SameName(listings[h], listings[i])
  }

  // ---- the reasons ----

  /** Listings p.0 and p.1, in list order, are a candidate for one venue at this
      priority. */
  ghost predicate Reason(globe: Globe, listings: seq<VenueListing>, p: Edge, priority: nat) {
    var i, j := p.0, p.1;
    && i <= j < |listings|
    && match priority
       case 0 => FirstAnd(listings, SameVenueId, i, j)
       case 1 => i < j && SameSeed(listings[i], listings[j]) && PlacesAgree(listings[i].evidence, listings[j].evidence)
       case 2 => FirstAnd(listings, SameCompact, i, j) || Next(listings, SameCompact, i, j)
       case 3 => i < j && Close(globe, listings[i], listings[j])
       case 4 => NamedAlike(listings, i, j)
       case 5 => NamedLonger(listings, i, j) || NamedLonger(listings, j, i) || ChainedLonger(listings, i, j)
       case _ => false
  }

  lemma ReasonsStayInCity(globe: Globe, listings: seq<VenueListing>, p: Edge, priority: nat)
    requires Reason(globe, listings, p, priority)
    ensures p.0 <= p.1 < |listings| && listings[p.0].city == listings[p.1].city
  {
  }
}
