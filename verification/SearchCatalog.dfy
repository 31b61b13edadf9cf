/** The materialised search catalog: for each identity family, the resolved
    sessions at every instant where eligibility can change, so that a request at
    any later time gets what resolving afresh would give. */
module SearchCatalog {
  import opened HostNumbers
  import opened Listings
  import opened Selection
  import opened Sorting

  const HOUR: int := 3_600_000
  const MAX_AGE: int := 72 * HOUR
  const SKEW: int := 300_000
  const MAX_BYTES: int := 128 * 1024 * 1024

  /** A source record; `offered` sums up the checks that no clock changes: city,
      availability and a supported format. */
  datatype Record = Record(id: string, starts: Option<Millis>, checked: Option<Millis>, offered: bool)

  /** A number as a date: clipped to nothing outside the range of dates. */
  function Date(ms: int): Option<Millis> {
    if -MAX_DATE <= ms <= MAX_DATE then Some(ms) else None
  }

  /** Comparisons with an invalid date are all false. */
  predicate Eligible(record: Record, now: Option<Millis>) {
    && record.starts.Some? && record.checked.Some? && record.offered
    && !(now.Some? && record.starts.value < now.value)
    && !(now.Some? && record.checked.value < now.value - MAX_AGE)
    && !(now.Some? && record.checked.value > now.value + SKEW)
  }

  function Active(members: seq<Record>, now: Option<Millis>): seq<Record> {
    if members == [] then []
    else
      var rest := Active(members[1..], now);
      if Eligible(members[0], now) then [members[0]] + rest else rest
  }

  /** What eligibility asks at an instant: an offered record whose dates can be
      read, that has not begun and was checked in the last 72 hours, or at most
      five minutes ahead. */
  predicate Current(record: Record, t: int) {
    && record.offered && record.starts.Some? && record.checked.Some?
    && t <= record.starts.value
    && t - 259_200_000 <= record.checked.value <= t + 300_000
  }

  lemma EligibleByFields(record: Record, t: Millis)
    ensures Eligible(record, Some(t)) <==> Current(record, t)
  {
  }

  /** The condition at an instant. */
  function CurrentAt(t: int): Record -> bool { (record: Record) => Current(record, t) }

  /** The active records are exactly the current ones, each as often as in the
      list and in its order. */
  lemma {:induction false} ActiveExactly(members: seq<Record>, t: Millis)
    ensures Picks(members, CurrentAt(t), Active(members, Some(t)))
  {
    if members == [] {
      PicksNone(CurrentAt(t));
    } else {
      ActiveExactly(members[1..], t);
      EligibleByFields(members[0], t);
      PicksFirst(members[0], members[1..], CurrentAt(t), Active(members[1..], Some(t)));
      assert members == [members[0]] + members[1..];
    }
  }

  // ---- which records enter the catalog ----

  predicate Enters(record: Record, at: Millis) {
    record.checked.Some?
    && var activation := if record.checked.value - SKEW > at then record.checked.value - SKEW else at;
       Eligible(record, Date(activation))
  }

  /** The activation test keeps exactly the records that are eligible at some
      time from now on. */
  lemma EntersExactlyWhenEverEligible(record: Record, at: Millis)
    ensures Enters(record, at) <==> exists t: Millis :: t >= at && Eligible(record, Some(t))
  {
    if Enters(record, at) {
      var activation: Millis := if record.checked.value - SKEW > at then record.checked.value - SKEW else at;
      assert Eligible(record, Some(activation));
    }
  }

  // ---- the instants at which a family can change ----

  function Thresholds(record: Record): seq<int> {
    (if record.checked.Some? then [record.checked.value - SKEW, record.checked.value + MAX_AGE + 1] else [])
    + (if record.starts.Some? then [record.starts.value + 1] else [])
  }

  /** No threshold of the record lies after `from` and up to `t`. */
  predicate Settled(record: Record, from: int, t: int) {
    forall v :: v in Thresholds(record) ==> !(from < v <= t)
  }

  lemma EligibilityIsConstant(record: Record, from: Millis, t: Millis)
    requires from <= t && Settled(record, from, t)
    ensures Eligible(record, Some(from)) == Eligible(record, Some(t))
  {
    var thresholds := Thresholds(record);
    if record.checked.Some? {
      assert thresholds[0] in thresholds && thresholds[1] in thresholds;
    }
    if record.starts.Some? {
      assert thresholds[|thresholds| - 1] in thresholds;
    }
  }

  lemma {:induction false} ActiveIsConstant(members: seq<Record>, from: Millis, t: Millis)
    requires from <= t && forall m :: m in members ==> Settled(m, from, t)
    ensures Active(members, Some(from)) == Active(members, Some(t))
  {
    if members != [] {
      EligibilityIsConstant(members[0], from, t);
      ActiveIsConstant(members[1..], from, t);
    }
  }

  // ---- versions ----

  datatype Version<E> = Version(from: int, events: seq<E>)

  /** The loop that selects a version: the last one before the first later one. */
  function Scan<E>(versions: seq<Version<E>>, t: int, current: seq<E>): seq<E> {
    if versions == [] || versions[0].from > t then current else Scan(versions[1..], t, versions[0].events)
  }

  ghost predicate Ascending<E>(versions: seq<Version<E>>) {
    forall i, j :: 0 <= i < j < |versions| ==> versions[i].from < versions[j].from
  }

  lemma {:induction false} ScanOfLater<E>(versions: seq<Version<E>>, last: Version<E>, t: int, current: seq<E>)
    requires Ascending(versions + [last])
    ensures t < last.from ==> Scan(versions + [last], t, current) == Scan(versions, t, current)
    ensures t >= last.from ==> Scan(versions + [last], t, current) == last.events
  {
    if versions == [] {
      assert ([last])[1..] == [];
    } else {
      assert (versions + [last])[1..] == versions[1..] + [last];
      assert (versions + [last])[0] == versions[0] && (versions + [last])[|versions|] == last;
      assert forall i :: 0 <= i < |versions[1..] + [last]| ==>
        (versions[1..] + [last])[i] == (versions + [last])[i + 1];
      ScanOfLater(versions[1..], last, t, versions[0].events);
    }
  }

  predicate UpTo(a: int, b: int) { a <= b }

  method Boundaries(members: seq<Record>, at: Millis) returns (boundaries: seq<int>)
    ensures boundaries != [] && boundaries[0] == at
    ensures forall i, j :: 0 <= i < j < |boundaries| ==> boundaries[i] < boundaries[j]
    ensures forall m, v :: m in members && v in Thresholds(m) && v > at ==> v in boundaries
  {
    var found: seq<int> := [at];
    for i := 0 to |members|
      invariant Distinct(found) && at in found && forall v :: v in found ==> v >= at
      invariant forall m, v :: m in members[..i] && v in Thresholds(m) && v > at ==> v in found
    {
      var thresholds := Thresholds(members[i]);
      for k := 0 to |thresholds|
        invariant Distinct(found) && at in found && forall v :: v in found ==> v >= at
        invariant forall m, v :: m in members[..i] && v in Thresholds(m) && v > at ==> v in found
        invariant forall v :: v in thresholds[..k] && v > at ==> v in found
      {
        if thresholds[k] > at && thresholds[k] !in found { found := found + [thresholds[k]]; }
      }
      assert thresholds[..|thresholds|] == thresholds;
    }
    assert members[..|members|] == members;
    boundaries := Sort(UpTo, found);
    SortOrders(UpTo, found);
    SortKeeps(UpTo, found);
    forall i, j | 0 <= i < j < |boundaries| ensures boundaries[i] < boundaries[j] {
      OrderedPairs(UpTo, boundaries, i, j);
    }
    var where :| 0 <= where < |boundaries| && boundaries[where] == at;
    OrderedPairs(UpTo, boundaries, 0, where);
    assert boundaries[0] in boundaries;
  }

  /** What the catalog promises for one family: at every time from `at` on, the
      selected version is the resolution of the members active then. */
  ghost predicate Answers<E>(
      versions: seq<Version<E>>, members: seq<Record>, at: Millis, resolve: seq<Record> -> seq<E>) {
    forall t: Millis :: t >= at ==> Scan(versions, t, []) == resolve(Active(members, Some(t)))
  }

  /** Times ascend from `at`, and a version appears only where something changed. */
  ghost predicate Lean<E>(versions: seq<Version<E>>, at: int) {
    && Ascending(versions) && versions != [] && versions[0].from == at
    && forall i :: 0 < i < |versions| ==> versions[i - 1].events != versions[i].events
  }

  ghost predicate AnswersBefore<E>(
      versions: seq<Version<E>>, members: seq<Record>, at: Millis, resolve: seq<Record> -> seq<E>,
      boundaries: seq<int>, k: nat)
  {
    forall t: Millis :: t >= at && (k < |boundaries| ==> t < boundaries[k]) ==>
      Scan(versions, t, []) == resolve(Active(members, Some(t)))
  }

  lemma SettledBetween(members: seq<Record>, at: Millis, boundaries: seq<int>, k: nat, t: Millis)
    requires forall m, v :: m in members && v in Thresholds(m) && v > at ==> v in boundaries
    requires forall i, j :: 0 <= i < j < |boundaries| ==> boundaries[i] < boundaries[j]
    requires k < |boundaries| && at <= boundaries[k] <= t && (k + 1 < |boundaries| ==> t < boundaries[k + 1])
    ensures forall m :: m in members ==> Settled(m, boundaries[k], t)
  {
    forall i | 0 <= i < |boundaries| ensures !(boundaries[k] < boundaries[i] <= t) {
      assert i <= k || k + 1 == i || k + 1 < i;
    }
    forall v | v in boundaries ensures !(boundaries[k] < v <= t) {
    }
    forall m | m in members ensures Settled(m, boundaries[k], t) {
      forall v | v in Thresholds(m) ensures !(boundaries[k] < v <= t) {
        if v > at { assert v in boundaries; }
      }
    }
  }

  method BuildVersions<E(==)>(members: seq<Record>, at: Millis, resolve: seq<Record> -> seq<E>, size: seq<E> -> nat,
    used: nat)
    returns (versions: seq<Version<E>>, bytes: nat)
    ensures Answers(versions, members, at, resolve) && Lean(versions, at)
    ensures bytes == used + Bytes(versions, size)
  {
    var boundaries := Boundaries(members, at);
    versions, bytes := [], used;
    for k := 0 to |boundaries|
      invariant AnswersBefore(versions, members, at, resolve, boundaries, k)
      invariant Ascending(versions) && (k > 0 ==> versions != [] && versions[0].from == at)
      invariant versions != [] ==> k > 0 && versions[|versions| - 1].from <= boundaries[k - 1]
      invariant versions != [] ==> versions[|versions| - 1].events == resolve(Active(members, Date(boundaries[k - 1])))
      invariant forall i :: 0 < i < |versions| ==> versions[i - 1].events != versions[i].events
      invariant bytes == used + Bytes(versions, size)
    {
      var merged := resolve(Active(members, Date(boundaries[k])));
      var next := versions;
      if versions == [] || merged != versions[|versions| - 1].events {
        var version := Version(boundaries[k], merged);
        next := versions + [version];
        bytes := bytes + size(merged) + 64;
        BytesOfLater(versions, version, size);
      }
      BoundaryAnswers(versions, next, members, at, resolve, boundaries, k);
      versions := next;
    }
  }

  lemma BoundaryAnswers<E>(
      versions: seq<Version<E>>, next: seq<Version<E>>, members: seq<Record>, at: Millis,
      resolve: seq<Record> -> seq<E>,
      boundaries: seq<int>, k: nat)
    requires forall m, v :: m in members && v in Thresholds(m) && v > at ==> v in boundaries
    requires forall i, j :: 0 <= i < j < |boundaries| ==> boundaries[i] < boundaries[j]
    requires k < |boundaries| && boundaries[k] >= at && AnswersBefore(versions, members, at, resolve, boundaries, k)
    requires Ascending(next)
    requires var merged := resolve(Active(members, Date(boundaries[k])));
             || next == versions + [Version(boundaries[k], merged)]
             || (next == versions && versions != [] && versions[|versions| - 1].from <= boundaries[k]
               && versions[|versions| - 1].events == merged)
    ensures AnswersBefore(next, members, at, resolve, boundaries, k + 1)
  {
    forall t: Millis | t >= at && (k + 1 < |boundaries| ==> t < boundaries[k + 1])
      ensures Scan(next, t, []) == resolve(Active(members, Some(t)))
    {
      var front, last := next[..|next| - 1], next[|next| - 1];
      assert next == front + [last];
      ScanOfLater(front, last, t, []);
      if t >= boundaries[k] {
        SettledBetween(members, at, boundaries, k, t);
        ActiveIsConstant(members, boundaries[k], t);
      } else if next != versions {
        assert front == versions;
      }
    }
  }

  function Bytes<E>(versions: seq<Version<E>>, size: seq<E> -> nat): nat {
    if versions == [] then 0 else size(versions[0].events) + 64 + Bytes(versions[1..], size)
  }

  lemma {:induction false} BytesOfLater<E>(versions: seq<Version<E>>, last: Version<E>, size: seq<E> -> nat)
    ensures Bytes(versions + [last], size) == Bytes(versions, size) + size(last.events) + 64
  {
    if versions == [] {
      assert [last][1..] == [];
    } else {
      assert (versions + [last])[1..] == versions[1..] + [last];
      BytesOfLater(versions[1..], last, size);
    }
  }

  // ---- the catalog ----

  datatype Catalog<E> = Catalog(materializedAt: Millis, groups: seq<seq<Version<E>>>)

  datatype Outcome<T> = Ok(value: T) | TooLarge | TooEarly

  function Entering(records: seq<Record>, ambiguous: Record -> bool, at: Millis): (entering: seq<Record>)
    ensures forall r :: r in entering <==> r in records && !ambiguous(r) && Enters(r, at)
  {
    if records == [] then []
    else
      var rest := Entering(records[1..], ambiguous, at);
      if !ambiguous(records[0]) && Enters(records[0], at) then [records[0]] + rest else rest
  }

  /** The condition to enter: no doubt about the source, and current at some time
      from `at` on. */
  ghost function EverCurrent(ambiguous: Record -> bool, at: Millis): Record -> bool {
    (record: Record) => !ambiguous(record) && exists t: Millis :: t >= at && Current(record, t)
  }

  lemma EntersByFields(record: Record, ambiguous: Record -> bool, at: Millis)
    ensures EverCurrent(ambiguous, at)(record) <==> !ambiguous(record) && Enters(record, at)
  {
    EntersExactlyWhenEverEligible(record, at);
    if t: Millis :| t >= at && Eligible(record, Some(t)) {
      EligibleByFields(record, t);
    }
    if t: Millis :| t >= at && Current(record, t) {
      EligibleByFields(record, t);
    }
  }

  /** Exactly these records enter, each as often as given and in that order. */
  lemma {:induction false} EnteringExactly(records: seq<Record>, ambiguous: Record -> bool, at: Millis)
    ensures Picks(records, EverCurrent(ambiguous, at), Entering(records, ambiguous, at))
  {
    var condition := EverCurrent(ambiguous, at);
    if records == [] {
      PicksNone(condition);
    } else {
      EnteringExactly(records[1..], ambiguous, at);
      EntersByFields(records[0], ambiguous, at);
      PicksFirst(records[0], records[1..], condition, Entering(records[1..], ambiguous, at));
      assert records == [records[0]] + records[1..];
    }
  }

  /** Builds the versions of every family; `families` groups the records that
      identity resolution may ever join. */
  method BuildSearchCatalog<E(==)>(
      records: seq<Record>, at: Millis, ambiguous: Record -> bool, families: seq<Record> -> seq<seq<Record>>,
      resolve: seq<Record> -> seq<E>, size: seq<E> -> nat)
    returns (result: Outcome<Catalog<E>>)
    ensures var groups := families(Entering(records, ambiguous, at));
            match result
            case Ok(catalog) =>
              catalog.materializedAt == at && AnswersAll(catalog.groups, groups, at, resolve)
                && TotalBytes(catalog.groups, size) <= 134_217_728
            case TooLarge => exists built: seq<seq<Version<E>>> :: Overflows(built, groups, at, resolve, size)
            case TooEarly => false
  {
    var groups := families(Entering(records, ambiguous, at));
    var built: seq<seq<Version<E>>> := [];
    var bytes: nat := 0;
    for g := 0 to |groups|
      invariant AnswersAll(built, groups[..g], at, resolve)
      invariant bytes == TotalBytes(built, size) <= MAX_BYTES
    {
      var versions;
      versions, bytes := BuildVersions(groups[g], at, resolve, size, bytes);
      assert (built + [versions])[..g] == built;
      assert AnswersAll(built + [versions], groups[..g + 1], at, resolve);
      if bytes > MAX_BYTES {
        built := built + [versions];
        assert Overflows(built, families(Entering(records, ambiguous, at)), at, resolve, size);
        return TooLarge;
      }
      built := built + [versions];
    }
    assert groups[..|groups|] == groups;
    return Ok(Catalog(at, built));
  }

  ghost predicate AnswersAll<E>(
      built: seq<seq<Version<E>>>, groups: seq<seq<Record>>, at: Millis, resolve: seq<Record> -> seq<E>) {
    |built| == |groups| && forall g :: 0 <= g < |groups| ==>
      Answers(built[g], groups[g], at, resolve) && Lean(built[g], at)
  }

  function TotalBytes<E>(built: seq<seq<Version<E>>>, size: seq<E> -> nat): nat {
    if built == [] then 0 else TotalBytes(built[..|built| - 1], size) + Bytes(built[|built| - 1], size)
  }

  /** The versions of the first families alone exceed the limit. */
  ghost predicate Overflows<E>(
      built: seq<seq<Version<E>>>, groups: seq<seq<Record>>, at: Millis, resolve: seq<Record> -> seq<E>,
      size: seq<E> -> nat) {
    |built| <= |groups| && AnswersAll(built, groups[..|built|], at, resolve) && TotalBytes(built, size) > 134_217_728
  }

  function Filtered<E>(events: seq<E>, keep: E -> bool): seq<E> {
    if events == [] then []
    else (if keep(events[0]) then [events[0]] else []) + Filtered(events[1..], keep)
  }

  /** The candidates before sorting, resolving every family afresh. */
  function FreshCandidates<E>(
      groups: seq<seq<Record>>, resolve: seq<Record> -> seq<E>, keep: E -> bool, now: Millis): seq<E> {
    if groups == [] then []
    else FreshCandidates(groups[..|groups| - 1], resolve, keep, now)
         + Filtered(resolve(Active(groups[|groups| - 1], Some(now))), keep)
  }

  lemma {:induction false} FilteredCounts<E>(events: seq<E>, keep: E -> bool, e: E)
    ensures multiset(Filtered(events, keep))[e] == if keep(e) then multiset(events)[e] else 0
  {
    if events != [] {
      FilteredCounts(events[1..], keep, e);
      assert events == [events[0]] + events[1..];
    }
  }

  /** The active records of every family. */
  function ActiveOf(groups: seq<seq<Record>>, now: Millis): (actives: seq<seq<Record>>)
    ensures |actives| == |groups| && forall g :: 0 <= g < |groups| ==> actives[g] == Active(groups[g], Some(now))
  {
    seq(|groups|, g requires 0 <= g < |groups| => Active(groups[g], Some(now)))
  }

  function ResolvedOf<E>(actives: seq<seq<Record>>, resolve: seq<Record> -> seq<E>): (resolved: seq<seq<E>>)
    ensures |resolved| == |actives| && forall g :: 0 <= g < |actives| ==> resolved[g] == resolve(actives[g])
  {
    seq(|actives|, g requires 0 <= g < |actives| => resolve(actives[g]))
  }

  lemma {:induction false} FreshCounts<E>(
      groups: seq<seq<Record>>, resolve: seq<Record> -> seq<E>, keep: E -> bool, now: Millis, e: E)
    ensures multiset(FreshCandidates(groups, resolve, keep, now))[e]
         == if keep(e) then Times(ResolvedOf(ActiveOf(groups, now), resolve), e) else 0
  {
    if groups != [] {
      var front, last := groups[..|groups| - 1], groups[|groups| - 1];
      FreshCounts(front, resolve, keep, now, e);
      var all := ResolvedOf(ActiveOf(groups, now), resolve);
      assert all[..|all| - 1] == ResolvedOf(ActiveOf(front, now), resolve);
      FilteredCounts(resolve(Active(last, Some(now))), keep, e);
    }
  }

  /** The list holds an event exactly when the request keeps it, as often as it
      is in what the current records of all families resolve to. */
  ghost predicate HoldsKept<E(!new)>(
      list: seq<E>, groups: seq<seq<Record>>, resolve: seq<Record> -> seq<E>, keep: E -> bool, now: Millis) {
    exists actives: seq<seq<Record>> ::
      PicksCurrent(groups, now, actives) && CountsKept(list, actives, resolve, keep)
  }

  ghost predicate PicksCurrent(groups: seq<seq<Record>>, now: Millis, actives: seq<seq<Record>>) {
    |actives| == |groups| && forall g :: 0 <= g < |groups| ==> Picks(groups[g], CurrentAt(now), actives[g])
  }

  ghost predicate CountsKept<E(!new)>(
      list: seq<E>, actives: seq<seq<Record>>, resolve: seq<Record> -> seq<E>, keep: E -> bool) {
    forall e :: multiset(list)[e] == if keep(e) then Times(ResolvedOf(actives, resolve), e) else 0
  }

  lemma ActivesAreCurrent(groups: seq<seq<Record>>, now: Millis)
    ensures PicksCurrent(groups, now, ActiveOf(groups, now))
  {
    forall g | 0 <= g < |groups| ensures Picks(groups[g], CurrentAt(now), ActiveOf(groups, now)[g]) {
      ActiveExactly(groups[g], now);
    }
  }

  lemma SortedCounts<E(!new)>(
      list: seq<E>, order: (E, E) -> bool, groups: seq<seq<Record>>, resolve: seq<Record> -> seq<E>, keep: E -> bool,
      now: Millis)
    requires list == Sort(order, FreshCandidates(groups, resolve, keep, now))
    ensures CountsKept(list, ActiveOf(groups, now), resolve, keep)
  {
    SortCounts(order, FreshCandidates(groups, resolve, keep, now));
    forall e ensures multiset(list)[e] == if keep(e) then Times(ResolvedOf(ActiveOf(groups, now), resolve), e) else 0 {
      FreshCounts(groups, resolve, keep, now, e);
    }
  }

  lemma SortedHoldsKept<E(!new)>(
      list: seq<E>, order: (E, E) -> bool, groups: seq<seq<Record>>, resolve: seq<Record> -> seq<E>, keep: E -> bool,
      now: Millis)
    requires list == Sort(order, FreshCandidates(groups, resolve, keep, now))
    ensures HoldsKept(list, groups, resolve, keep, now)
    ensures Total(order) ==> Ordered(order, list)
  {
    SortedCounts(list, order, groups, resolve, keep, now);
    ActivesAreCurrent(groups, now);
    if Total(order) { SortOrders(order, FreshCandidates(groups, resolve, keep, now)); }
  }

  method SelectVersion<E>(versions: seq<Version<E>>, t: int) returns (selected: seq<E>)
    ensures selected == Scan(versions, t, [])
  {
    selected := [];
    var i := 0;
    while i < |versions| && versions[i].from <= t
      invariant 0 <= i <= |versions|
      invariant Scan(versions, t, []) == Scan(versions[i..], t, selected)
    {
      selected := versions[i].events;
      i := i + 1;
    }
  }

  /** A request at any time from materialisation on gets what resolving every
      family's records active at that time would give, filtered and sorted. */
  method SearchCandidates<E(!new)>(
      catalog: Catalog<E>, keep: E -> bool, order: (E, E) -> bool, now: Option<Millis>, ghost groups: seq<seq<Record>>,
      ghost resolve: seq<Record> -> seq<E>)
    returns (result: Outcome<seq<E>>)
    requires AnswersAll(catalog.groups, groups, catalog.materializedAt, resolve)
    ensures now.None? || now.value < catalog.materializedAt ==> result == TooEarly
    ensures now.Some? && now.value >= catalog.materializedAt ==>
      result == Ok(Sort(order, FreshCandidates(groups, resolve, keep, now.value)))
    ensures now.Some? && now.value >= catalog.materializedAt ==>
      result.Ok? && HoldsKept(result.value, groups, resolve, keep, now.value)
        && (Total(order) ==> Ordered(order, result.value))
  {
    if now.None? || now.value < catalog.materializedAt { return TooEarly; }
    var found: seq<E> := [];
    for g := 0 to |catalog.groups|
      invariant found == FreshCandidates(groups[..g], resolve, keep, now.value)
    {
      var selected := SelectVersion(catalog.groups[g], now.value);
      assert Answers(catalog.groups[g], groups[g], catalog.materializedAt, resolve);
      assert groups[..g + 1][..g] == groups[..g];
      found := found + Filtered(selected, keep);
    }
    assert groups[..|groups|] == groups;
    SortedHoldsKept(Sort(order, found), order, groups, resolve, keep, now.value);
    return Ok(Sort(order, found));
  }
}
