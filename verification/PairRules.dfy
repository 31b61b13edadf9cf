/** When two listings are decided to be one session, read off their fields and
    those of their title family alone. */
module PairRules {
  import opened Listings
  import opened Sessions

  // ---- what is read off two listings ----

  /** Both instants can be read, and they are one. */
  predicate SameInstant(left: Listing, right: Listing) {
    left.startsAt.Some? && right.startsAt.Some? && left.startsAt.value == right.startsAt.value
  }

  /** A timed session, or a window whose two ends can be read and are in order. */
  predicate Known(timing: Timing) {
    || timing.TimedSession?
    || (timing.AdmissionWindow? && timing.validFrom.Some? && timing.validThrough.Some?
        && timing.validFrom.value <= timing.validThrough.value)
  }

  /** Two ways of attending that are both known are the same. */
  predicate TimingsAgree(left: Timing, right: Timing) {
    Known(left) && Known(right) ==> left == right
  }

  predicate PoliciesAgree(left: Policies, right: Policies) {
    && (left.childOnly ==> !right.adultOnly) && (left.adultOnly ==> !right.childOnly)
    && (left.workshop ==> !right.performance) && (left.performance ==> !right.workshop)
    && (left.adaptation == right.adaptation || left.adaptation == "" || right.adaptation == "")
  }

  predicate EqualTitles(left: Listing, right: Listing) {
    left.titleKey == right.titleKey != "" || left.rawTitle == right.rawTitle != ""
  }

  predicate EqualSeeds(left: Listing, right: Listing) { left.titleSeed == right.titleSeed != "" }

  predicate Matched(contains: Contains, left: Listing, right: Listing) {
    EqualTitles(left, right) || EqualSeeds(left, right) || contains(left, right)
  }

  /** Nothing read off the two listings speaks against one session. */
  predicate Alike(left: Listing, right: Listing, leftVenue: string, rightVenue: string) {
    && SameInstant(left, right) && left.city == right.city && left.provider != right.provider
    && leftVenue == rightVenue
    && TimingsAgree(left.timing, right.timing) && PoliciesAgree(left.policies, right.policies)
  }

  /** The decision for two listings, rule by rule: each rule is given in exactly
      one situation, always with one outcome. */
  predicate Assessed(
      contains: Contains, left: Listing, right: Listing, leftVenue: string, rightVenue: string, v: Verdict) {
    var here := SameInstant(left, right) && left.city == right.city;
    var across := here && left.provider != right.provider && leftVenue == rightVenue;
    match v.rule
    case DifferentOrInvalidInstant => v.outcome == NeverMerge && !SameInstant(left, right)
    case DifferentCity => v.outcome == NeverMerge && SameInstant(left, right) && left.city != right.city
    case SameProvider => v.outcome == NeverMerge && here && left.provider == right.provider
    case DifferentResolvedVenue =>
      v.outcome == NeverMerge && here && left.provider != right.provider && leftVenue != rightVenue
    case AttendanceTimingConflict => v.outcome == NeverMerge && across && !TimingsAgree(left.timing, right.timing)
    case PolicyConflict =>
      v.outcome == NeverMerge && across && TimingsAgree(left.timing, right.timing)
        && !PoliciesAgree(left.policies, right.policies)
    case SuffixNormalizedTitle =>
      v.outcome == AutoMerge && Alike(left, right, leftVenue, rightVenue) && EqualTitles(left, right)
    case GuardedTitleSeed =>
      v.outcome == ManualMerge && Alike(left, right, leftVenue, rightVenue) && EqualSeeds(left, right)
        && !EqualTitles(left, right)
    case TitleContainment =>
      v.outcome == AutoMerge && Alike(left, right, leftVenue, rightVenue) && contains(left, right)
        && !EqualTitles(left, right) && !EqualSeeds(left, right)
    case TitleAmbiguous =>
      v.outcome == Unresolved && Alike(left, right, leftVenue, rightVenue) && !Matched(contains, left, right)
    case _ => false
  }

  lemma AssessedByFields(contains: Contains, left: Listing, right: Listing, leftVenue: string, rightVenue: string)
    ensures Assessed(contains, left, right, leftVenue, rightVenue,
              AssessIdentityPair(contains, left, right, leftVenue, rightVenue))
  {
    ConflictsByFields(left, right);
  }

  lemma ConflictsByFields(left: Listing, right: Listing)
    ensures TimingConflict(left, right) <==> !TimingsAgree(left.timing, right.timing)
    ensures PoliciesConflict(left, right) <==> !PoliciesAgree(left.policies, right.policies)
    ensures TitlesMatch(left, right) <==> EqualTitles(left, right)
    ensures SeedsMatch(left, right) <==> EqualSeeds(left, right)
  {
  }

  /** Only one decision fits two listings. */
  lemma AssessedOnce(
      contains: Contains, left: Listing, right: Listing, leftVenue: string, rightVenue: string, v: Verdict, w: Verdict)
    requires Assessed(contains, left, right, leftVenue, rightVenue, v)
    requires Assessed(contains, left, right, leftVenue, rightVenue, w)
    ensures v == w
  {
  }

  // ---- what is read off the title family ----

  /** Listing c belongs to the title family of listing i. */
  predicate OfFamily(input: Input, i: nat, c: nat)
    requires |input.venues| == |input.listings| && i < |input.listings|
  {
    && c < |input.listings|
    && SameInstant(input.listings[i], input.listings[c]) && input.listings[i].city == input.listings[c].city
    && input.venues[i] == input.venues[c]
    && Matched(input.contains, input.listings[c], input.listings[i])
  }

  ghost predicate FamilyMember(input: Input, i: nat, has: Policies -> bool)
    requires |input.venues| == |input.listings| && i < |input.listings|
  {
    exists c: nat :: OfFamily(input, i, c) && has(input.listings[c].policies)
  }

  ghost predicate MixesAudiences(input: Input, i: nat)
    requires |input.venues| == |input.listings| && i < |input.listings|
  {
    FamilyMember(input, i, (p: Policies) => p.childOnly) && FamilyMember(input, i, (p: Policies) => p.adultOnly)
  }

  ghost predicate MixesFormats(input: Input, i: nat)
    requires |input.venues| == |input.listings| && i < |input.listings|
  {
    FamilyMember(input, i, (p: Policies) => p.workshop) && FamilyMember(input, i, (p: Policies) => p.performance)
  }

  ghost predicate MixesAdaptations(input: Input, i: nat)
    requires |input.venues| == |input.listings| && i < |input.listings|
  {
    exists c: nat, d: nat :: OfFamily(input, i, c) && OfFamily(input, i, d)
      && input.listings[c].policies.adaptation != "" && input.listings[d].policies.adaptation != ""
      && input.listings[c].policies.adaptation != input.listings[d].policies.adaptation
  }

  /** Both name an audience, and the same one; children come before adults. */
  predicate SameAudience(left: Policies, right: Policies) {
    (left.childOnly || left.adultOnly) && (right.childOnly || right.adultOnly) && left.childOnly == right.childOnly
  }

  predicate SameFormat(left: Policies, right: Policies) {
    (left.workshop || left.performance) && (right.workshop || right.performance) && left.workshop == right.workshop
  }

  /** The title family of i mixes audiences, formats or adaptations, in this
      order of precedence, and i and j do not both name the same one. */
  ghost predicate Separated(input: Input, i: nat, j: nat)
    requires |input.venues| == |input.listings| && i < |input.listings| && j < |input.listings|
  {
    var left, right := input.listings[i].policies, input.listings[j].policies;
    if MixesAudiences(input, i) then !SameAudience(left, right)
    else if MixesFormats(input, i) then !SameFormat(left, right)
    else MixesAdaptations(input, i) && !(left.adaptation == right.adaptation && left.adaptation != ""
                                         && FamilyMember(input, i, (p: Policies) => p.adaptation == left.adaptation))
  }

  /** Listings i and j, in list order, are to share a session. */
  ghost predicate MayMerge(input: Input, i: nat, j: nat)
    requires |input.venues| == |input.listings|
  {
    && i < j < |input.listings|
    && Alike(input.listings[i], input.listings[j], input.venues[i], input.venues[j])
    && Matched(input.contains, input.listings[i], input.listings[j])
    && !Separated(input, i, j)
  }

  /** Listings i and j, in list order, are compared at all. */
  predicate Compared(input: Input, i: nat, j: nat)
    requires |input.venues| == |input.listings|
  {
    && i < j < |input.listings|
    && SameInstant(input.listings[i], input.listings[j]) && input.listings[i].city == input.listings[j].city
    && (input.venues[i] == input.venues[j] || Matched(input.contains, input.listings[i], input.listings[j]))
  }

  /** The decision for a compared pair: as its two listings say, unless the title
      family separates listings that would otherwise merge. */
  ghost predicate Ruled(input: Input, i: nat, j: nat, v: Verdict)
    requires |input.venues| == |input.listings|
  {
    && Compared(input, i, j)
    && (if Alike(input.listings[i], input.listings[j], input.venues[i], input.venues[j])
           && Matched(input.contains, input.listings[i], input.listings[j]) && Separated(input, i, j)
        then v == Verdict(NeverMerge, PolicyConflict)
        else Assessed(input.contains, input.listings[i], input.listings[j], input.venues[i], input.venues[j], v))
  }

  // ---- the family list holds the family ----

  lemma {:induction false} FamilyHolds(input: Input, indexes: seq<nat>, i: nat, f: Listing)
    requires |input.venues| == |input.listings| && i < |input.listings|
    requires forall k :: 0 <= k < |indexes| ==> indexes[k] < |input.listings|
    ensures f in Family(input, indexes, i)
       <==> exists k :: 0 <= k < |indexes| && InFamily(input, indexes[k], i) && input.listings[indexes[k]] == f
  {
    if indexes != [] {
      FamilyHolds(input, indexes[1..], i, f);
      assert forall k :: 1 <= k < |indexes| ==> indexes[k] == indexes[1..][k - 1];
    }
  }

  /** The family the rules look at. */
  function FamilyList(input: Input, i: nat): seq<Listing>
    requires |input.venues| == |input.listings| && i < |input.listings|
  {
    IndexesOfExact(input.listings, KeyOf(input.listings[i]), |input.listings|);
    Family(input, IndexesOf(input.listings, KeyOf(input.listings[i]), |input.listings|), i)
  }

  lemma ListedIsOfFamily(input: Input, i: nat, k: nat)
    requires |input.venues| == |input.listings| && i < |input.listings| && input.listings[i].startsAt.Some?
    requires k < |IndexesOf(input.listings, KeyOf(input.listings[i]), |input.listings|)|
    ensures var c := IndexesOf(input.listings, KeyOf(input.listings[i]), |input.listings|)[k];
      c < |input.listings| && (InFamily(input, c, i) ==> OfFamily(input, i, c))
  {
    var indexes := IndexesOf(input.listings, KeyOf(input.listings[i]), |input.listings|);
    IndexesOfExact(input.listings, KeyOf(input.listings[i]), |input.listings|);
    assert indexes[k] in indexes;
  }

  lemma OfFamilyIsListed(input: Input, i: nat, c: nat) returns (k: nat)
    requires |input.venues| == |input.listings| && i < |input.listings| && input.listings[i].startsAt.Some?
    requires OfFamily(input, i, c)
    ensures var indexes := IndexesOf(input.listings, KeyOf(input.listings[i]), |input.listings|);
      k < |indexes| && indexes[k] == c && InFamily(input, c, i)
  {
    var indexes := IndexesOf(input.listings, KeyOf(input.listings[i]), |input.listings|);
    IndexesOfExact(input.listings, KeyOf(input.listings[i]), |input.listings|);
    assert c in indexes;
    k :| 0 <= k < |indexes| && indexes[k] == c;
    ConflictsByFields(input.listings[c], input.listings[i]);
    ConflictsByFields(input.listings[i], input.listings[c]);
  }

  lemma FamilyListHolds(input: Input, i: nat, f: Listing)
    requires |input.venues| == |input.listings| && i < |input.listings| && input.listings[i].startsAt.Some?
    ensures f in FamilyList(input, i) <==> exists c: nat :: OfFamily(input, i, c) && input.listings[c] == f
  {
    var indexes := IndexesOf(input.listings, KeyOf(input.listings[i]), |input.listings|);
    IndexesOfExact(input.listings, KeyOf(input.listings[i]), |input.listings|);
    FamilyHolds(input, indexes, i, f);
    if f in FamilyList(input, i) {
      var k :| 0 <= k < |indexes| && InFamily(input, indexes[k], i) && input.listings[indexes[k]] == f;
      ListedIsOfFamily(input, i, k);
    }
    if c: nat :| OfFamily(input, i, c) && input.listings[c] == f {
      var k := OfFamilyIsListed(input, i, c);
    }
  }

  lemma FamilyMemberListed(input: Input, i: nat, has: Policies -> bool)
    requires |input.venues| == |input.listings| && i < |input.listings| && input.listings[i].startsAt.Some?
    ensures FamilyMember(input, i, has) <==> exists f :: f in FamilyList(input, i) && has(f.policies)
  {
    if c: nat :| OfFamily(input, i, c) && has(input.listings[c].policies) {
      FamilyListHolds(input, i, input.listings[c]);
    }
    if f :| f in FamilyList(input, i) && has(f.policies) {
      FamilyListHolds(input, i, f);
    }
  }

  /** The adaptations credited in a family. */
  function Adaptations(family: seq<Listing>): set<string> {
    set f | f in family && f.policies.adaptation != "" :: f.policies.adaptation
  }

  lemma TwoOf(s: set<string>)
    ensures |s| > 1 <==> exists a, b :: a in s && b in s && a != b
  {
    if |s| > 1 {
      var a :| a in s;
      assert |s - {a}| > 0;
      var b :| b in s - {a};
    }
    if a, b :| a in s && b in s && a != b {
      assert {a, b} <= s;
      assert |s - {a, b}| == |s| - |{a, b}|;
    }
  }

  lemma AdaptationsMixed(input: Input, i: nat)
    requires |input.venues| == |input.listings| && i < |input.listings| && input.listings[i].startsAt.Some?
    ensures MixesAdaptations(input, i) <==> |Adaptations(FamilyList(input, i))| > 1
  {
    var s := Adaptations(FamilyList(input, i));
    TwoOf(s);
    if MixesAdaptations(input, i) {
      var c: nat, d: nat :| OfFamily(input, i, c) && OfFamily(input, i, d)
        && input.listings[c].policies.adaptation != "" && input.listings[d].policies.adaptation != ""
        && input.listings[c].policies.adaptation != input.listings[d].policies.adaptation;
      FamilyListHolds(input, i, input.listings[c]);
      FamilyListHolds(input, i, input.listings[d]);
      assert input.listings[c].policies.adaptation in s && input.listings[d].policies.adaptation in s;
    }
    if a, b :| a in s && b in s && a != b {
      var f :| f in FamilyList(input, i) && f.policies.adaptation != "" && f.policies.adaptation == a;
      var g :| g in FamilyList(input, i) && g.policies.adaptation != "" && g.policies.adaptation == b;
      FamilyListHolds(input, i, f);
      FamilyListHolds(input, i, g);
    }
  }

  lemma AdaptationListed(input: Input, i: nat, own: string)
    requires |input.venues| == |input.listings| && i < |input.listings| && input.listings[i].startsAt.Some?
    ensures own in Adaptations(FamilyList(input, i))
       <==> own != "" && FamilyMember(input, i, (p: Policies) => p.adaptation == own)
  {
    FamilyMemberListed(input, i, (p: Policies) => p.adaptation == own);
  }

  /** The tags of the rules separate a pair exactly when its family does. */
  lemma TagsSeparate(input: Input, i: nat, j: nat)
    requires input.Valid() && i < j < |input.listings| && input.listings[i].startsAt.Some?
    ensures var left := AggregatePolicyTag(input.listings[i], FamilyList(input, i));
      var right := AggregatePolicyTag(input.listings[j], FamilyList(input, i));
      (left.Some? && left != right) <==> Separated(input, i, j)
  {
    var family := FamilyList(input, i);
    FamilyMemberListed(input, i, (p: Policies) => p.childOnly);
    FamilyMemberListed(input, i, (p: Policies) => p.adultOnly);
    FamilyMemberListed(input, i, (p: Policies) => p.workshop);
    FamilyMemberListed(input, i, (p: Policies) => p.performance);
    AdaptationsMixed(input, i);
    AdaptationListed(input, i, input.listings[i].policies.adaptation);
    AdaptationListed(input, i, input.listings[j].policies.adaptation);
    TagsByFamily(input.listings[i], input.listings[j], family);
  }

  lemma TagsByFamily(left: Listing, right: Listing, family: seq<Listing>)
    requires left.listingId != right.listingId
    ensures var a, b := AggregatePolicyTag(left, family), AggregatePolicyTag(right, family);
      (a.Some? && a != b) <==>
        if (exists f :: f in family && f.policies.childOnly) && (exists f :: f in family && f.policies.adultOnly)
        then !SameAudience(left.policies, right.policies)
        else if (exists f :: f in family && f.policies.workshop) && (exists f :: f in family && f.policies.performance)
        then !SameFormat(left.policies, right.policies)
        else
          |Adaptations(family)| > 1
          && !(left.policies.adaptation == right.policies.adaptation && left.policies.adaptation in Adaptations(family))
  {
    assert Adaptations(family) == set f | f in family && f.policies.adaptation != "" :: f.policies.adaptation;
  }

  // ---- the rules decide by the fields ----

  /** A pair is compared, and decided, exactly as its fields and its title
      family say. */
  lemma DecidedByFields(input: Input, x: nat, y: nat)
    requires input.Valid() && x < y < |input.listings|
    ensures VerdictsOf(input)(x, y).Some? <==> Compared(input, x, y)
    ensures Compared(input, x, y) ==> Ruled(input, x, y, VerdictsOf(input)(x, y).value)
  {
    var left, right := input.listings[x], input.listings[y];
    ConflictsByFields(left, right);
    AssessedByFields(input.contains, left, right, input.venues[x], input.venues[y]);
    if left.startsAt.Some? {
      TagsSeparate(input, x, y);
    }
  }

  /** Two listings are accepted as one session exactly when nothing speaks
      against it, a title, seed or containment match speaks for it, and their
      title family does not separate them. */
  lemma AcceptedByFields(input: Input, x: nat, y: nat)
    requires input.Valid() && x < y < |input.listings|
    ensures Accepts(VerdictsOf(input), x, y) <==> MayMerge(input, x, y)
  {
    DecidedByFields(input, x, y);
  }

  /** A pair is left to the judge exactly when nothing speaks against one session
      and nothing for it. */
  predicate Ambiguous(input: Input, i: nat, j: nat)
    requires |input.venues| == |input.listings|
  {
    && i < j < |input.listings|
    && Alike(input.listings[i], input.listings[j], input.venues[i], input.venues[j])
    && !Matched(input.contains, input.listings[i], input.listings[j])
  }
}
