/** Provider listings and the pairwise identity decision. */
module Listings {

  datatype Option<+T> = None | Some(value: T)

  /** An instant in milliseconds, or None where the source text does not parse. */
  type Instant = Option<int>

  datatype Timing =
    | UnknownTiming
    | TimedSession
    | AdmissionWindow(validFrom: Instant, validThrough: Instant)

  /** Reviewed restrictions read from a listing's own text; "" is no adaptation credit. */
  datatype Policies = Policies(childOnly: bool, adultOnly: bool, workshop: bool, performance: bool, adaptation: string)

  /** One provider listing. Normalised texts are data; "" stands for an absent text. */
  datatype Listing = Listing(
    listingId: string,
    provider: string,
    city: string,
    startsAt: Instant,
    titleKey: string,
    rawTitle: string,
    titleSeed: string,
    timing: Timing,
    policies: Policies)

  /** Word-level title containment, left to the caller. */
  type Contains = (Listing, Listing) -> bool

  datatype Outcome = AutoMerge | ManualMerge | JevMerge | NeverMerge | Unresolved

  datatype Rule =
    | DifferentOrInvalidInstant | DifferentCity | SameProvider | DifferentResolvedVenue
    | AttendanceTimingConflict | PolicyConflict
    | SuffixNormalizedTitle | GuardedTitleSeed | TitleContainment | TitleAmbiguous
    | GraphSameProviderCollision | GraphPairwiseIncompatibility
    | JevCalibratedDifferent | JevApprovedClusterSafe | JevApprovedClusterRejected

  datatype Verdict = Verdict(outcome: Outcome, rule: Rule)

  predicate Merging(outcome: Outcome) {
    outcome == AutoMerge || outcome == ManualMerge
  }

  predicate TitlesMatch(left: Listing, right: Listing) {
    || (left.titleKey != "" && left.titleKey == right.titleKey)
    || (left.rawTitle != "" && left.rawTitle == right.rawTitle)
  }

  predicate SeedsMatch(left: Listing, right: Listing) {
    left.titleSeed != "" && left.titleSeed == right.titleSeed
  }

  /** A window counts only when both ends parse and are ordered. */
  function KnownTiming(listing: Listing): Timing {
    match listing.timing
    case AdmissionWindow(Some(from), Some(through)) => if from > through then UnknownTiming else listing.timing
    case AdmissionWindow(_, _) => UnknownTiming
    case _ => listing.timing
  }

  predicate TimingConflict(left: Listing, right: Listing) {
    var a, b := KnownTiming(left), KnownTiming(right);
    !a.UnknownTiming? && !b.UnknownTiming? && a != b
  }

  predicate PoliciesConflict(left: Listing, right: Listing) {
    var a, b := left.policies, right.policies;
    || (a.childOnly && b.adultOnly) || (a.adultOnly && b.childOnly)
    || (a.workshop && b.performance) || (a.performance && b.workshop)
    || (a.adaptation != "" && b.adaptation != "" && a.adaptation != b.adaptation)
  }

  /** The deterministic decision for one pair; the first applicable rule wins. */
  function AssessIdentityPair(
      contains: Contains, left: Listing, right: Listing, leftVenue: string, rightVenue: string): Verdict {
    if left.startsAt.None? || right.startsAt.None? || left.startsAt != right.startsAt
      then Verdict(NeverMerge, DifferentOrInvalidInstant)
    else if left.city != right.city then Verdict(NeverMerge, DifferentCity)
    else if left.provider == right.provider then Verdict(NeverMerge, SameProvider)
    else if leftVenue != rightVenue then Verdict(NeverMerge, DifferentResolvedVenue)
    else if TimingConflict(left, right) then Verdict(NeverMerge, AttendanceTimingConflict)
    else if PoliciesConflict(left, right) then Verdict(NeverMerge, PolicyConflict)
    else if TitlesMatch(left, right) then Verdict(AutoMerge, SuffixNormalizedTitle)
    else if SeedsMatch(left, right) then Verdict(ManualMerge, GuardedTitleSeed)
    else if contains(left, right) then Verdict(AutoMerge, TitleContainment)
    else Verdict(Unresolved, TitleAmbiguous)
  }

  /** What any two listings that may share a session have in common. */
  predicate SameOccasion(left: Listing, right: Listing, leftVenue: string, rightVenue: string) {
    && left.startsAt.Some? && left.startsAt == right.startsAt
    && left.city == right.city
    && leftVenue == rightVenue
    && left.provider != right.provider
    && !TimingConflict(left, right)
    && !PoliciesConflict(left, right)
  }

  /** The separating tag a listing carries when its title family mixes policies. */
  datatype PolicyTag =
    | AudienceChildOnly | AudienceAdultOnly | AudienceUnspecified(listingId: string)
    | FormatWorkshop | FormatPerformance | FormatUnspecified(listingId: string)
    | AdaptationOf(name: string) | AdaptationUnspecified(listingId: string)

  function AggregatePolicyTag(listing: Listing, family: seq<Listing>): Option<PolicyTag> {
    var own := listing.policies;
    if (exists f :: f in family && f.policies.childOnly) && (exists f :: f in family && f.policies.adultOnly) then
      Some(if own.childOnly then AudienceChildOnly else if own.adultOnly then AudienceAdultOnly
        else AudienceUnspecified(listing.listingId))
    else if (exists f :: f in family && f.policies.workshop) && (exists f :: f in family && f.policies.performance) then
      Some(if own.workshop then FormatWorkshop else if own.performance then FormatPerformance
        else FormatUnspecified(listing.listingId))
    else
      var adaptations := set f | f in family && f.policies.adaptation != "" :: f.policies.adaptation;
      if |adaptations| > 1 then
        Some(if own.adaptation in adaptations then AdaptationOf(own.adaptation)
          else AdaptationUnspecified(listing.listingId))
      else None
  }
}
