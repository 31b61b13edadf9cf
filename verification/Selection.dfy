/** What it means to pick the members of a list that meet a condition. */
module Selection {

  /** picked holds the members of xs at these places, in list order, and the
      places are exactly those whose member meets the condition. */
  ghost predicate PicksAt<T>(xs: seq<T>, condition: T -> bool, picked: seq<T>, places: seq<nat>) {
    && |places| == |picked|
    && (forall k :: 0 <= k < |places| ==> places[k] < |xs| && picked[k] == xs[places[k]])
    && (forall j, k :: 0 <= j < k < |places| ==> places[j] < places[k])
    && (forall i: nat :: i < |xs| ==> (i in places <==> condition(xs[i])))
  }

  /** picked holds exactly the members of xs that meet the condition, each as
      often as in xs and in the order of xs. */
  ghost predicate Picks<T>(xs: seq<T>, condition: T -> bool, picked: seq<T>) {
    exists places :: PicksAt(xs, condition, picked, places)
  }

  lemma PicksNone<T>(condition: T -> bool)
    ensures Picks([], condition, [])
  {
    assert PicksAt([], condition, [], []);
  }

  lemma PicksFirst<T>(x: T, xs: seq<T>, condition: T -> bool, picked: seq<T>)
    requires Picks(xs, condition, picked)
    ensures Picks([x] + xs, condition, if condition(x) then [x] + picked else picked)
  {
    var places :| PicksAt(xs, condition, picked, places);
    var longer := [x] + xs;
    assert forall i: nat :: i < |xs| ==> longer[i + 1] == xs[i];
    if condition(x) {
      KeepsFirst(x, xs, condition, picked, places, longer);
    } else {
      SkipsFirst(x, xs, condition, picked, places, longer);
    }
  }

  lemma SkipsFirst<T>(x: T, xs: seq<T>, condition: T -> bool, picked: seq<T>, places: seq<nat>, longer: seq<T>)
    requires PicksAt(xs, condition, picked, places) && !condition(x) && longer == [x] + xs
    ensures PicksAt(longer, condition, picked, Shifted(places))
  {
    forall i: nat | i < |longer| ensures i in Shifted(places) <==> condition(longer[i]) {
      ShiftedHolds(places, i);
    }
  }

  lemma KeepsFirst<T>(x: T, xs: seq<T>, condition: T -> bool, picked: seq<T>, places: seq<nat>, longer: seq<T>)
    requires PicksAt(xs, condition, picked, places) && condition(x) && longer == [x] + xs
    ensures PicksAt(longer, condition, [x] + picked, [0] + Shifted(places))
  {
    KeptMembers(x, xs, condition, picked, places, longer);
    KeptPlaces(x, xs, condition, picked, places, longer);
  }

  lemma KeptMembers<T>(x: T, xs: seq<T>, condition: T -> bool, picked: seq<T>, places: seq<nat>, longer: seq<T>)
    requires PicksAt(xs, condition, picked, places) && longer == [x] + xs
    ensures var all, more := [0] + Shifted(places), [x] + picked;
      && (forall k :: 0 <= k < |all| ==> all[k] < |longer| && more[k] == longer[all[k]])
      && Climbs(all)
  {
    var all, more := [0] + Shifted(places), [x] + picked;
    forall k | 0 <= k < |all| ensures all[k] < |longer| && more[k] == longer[all[k]] {
      if k > 0 { assert more[k] == picked[k - 1] == xs[places[k - 1]]; }
    }
  }

  lemma KeptPlaces<T>(x: T, xs: seq<T>, condition: T -> bool, picked: seq<T>, places: seq<nat>, longer: seq<T>)
    requires PicksAt(xs, condition, picked, places) && condition(x) && longer == [x] + xs
    ensures forall i: nat :: i < |longer| ==> (i in [0] + Shifted(places) <==> condition(longer[i]))
  {
    forall i: nat | i < |longer| ensures i in [0] + Shifted(places) <==> condition(longer[i]) {
      ShiftedHolds(places, i);
      assert i in [0] + Shifted(places) <==> i == 0 || i in Shifted(places);
    }
  }

  function Shifted(places: seq<nat>): (shifted: seq<nat>)
    ensures |shifted| == |places| && forall k :: 0 <= k < |places| ==> shifted[k] == places[k] + 1
  {
    seq(|places|, k requires 0 <= k < |places| => places[k] + 1)
  }

  lemma ShiftedHolds(places: seq<nat>, i: nat)
    ensures i in Shifted(places) <==> i > 0 && i - 1 in places
  {
    if i > 0 && i - 1 in places {
      var k :| 0 <= k < |places| && places[k] == i - 1;
      assert Shifted(places)[k] == i;
    }
  }

  /** Only one list is picked by a condition. */
  lemma PicksOnce<T>(xs: seq<T>, condition: T -> bool, a: seq<T>, b: seq<T>)
    requires Picks(xs, condition, a) && Picks(xs, condition, b)
    ensures a == b
  {
    var p :| PicksAt(xs, condition, a, p);
    var q :| PicksAt(xs, condition, b, q);
    SamePlaces(xs, condition, a, p, b, q);
    assert forall k :: 0 <= k < |a| ==> a[k] == xs[p[k]] == b[k];
  }

  lemma SamePlaces<T>(xs: seq<T>, condition: T -> bool, a: seq<T>, p: seq<nat>, b: seq<T>, q: seq<nat>)
    requires PicksAt(xs, condition, a, p) && PicksAt(xs, condition, b, q)
    ensures p == q
  {
    PlacesOf(xs, condition, a, p);
    PlacesOf(xs, condition, b, q);
    SameAscending(p, q);
  }

  lemma PlacesOf<T>(xs: seq<T>, condition: T -> bool, picked: seq<T>, places: seq<nat>)
    requires PicksAt(xs, condition, picked, places)
    ensures Climbs(places) && forall i: nat :: i in places <==> i < |xs| && condition(xs[i])
  {
    forall i: nat | i in places ensures i < |xs| && condition(xs[i]) {
      var k :| 0 <= k < |places| && places[k] == i;
    }
  }

  predicate Climbs(places: seq<nat>) { forall j, k :: 0 <= j < k < |places| ==> places[j] < places[k] }

  /** Ascending lists of the same numbers are the same list. */
  lemma {:induction false} SameAscending(p: seq<nat>, q: seq<nat>)
    requires Climbs(p) && Climbs(q) && forall i :: i in p <==> i in q
    ensures p == q
  {
    if q != [] { assert q[0] in q; }
    if p != [] {
      assert p[0] in p && p[0] in q;
      assert q[0] in q && q[0] in p;
      assert p[0] == q[0];
      forall i ensures i in p[1..] <==> i in q[1..] {
        assert i in p <==> i == p[0] || i in p[1..];
        assert i in q <==> i == q[0] || i in q[1..];
        assert p[0] !in p[1..] && q[0] !in q[1..];
      }
      SameAscending(p[1..], q[1..]);
    }
  }

  /** Conditions that agree on the list pick the same. */
  lemma PicksAlike<T>(xs: seq<T>, condition: T -> bool, other: T -> bool, picked: seq<T>)
    requires Picks(xs, condition, picked)
    requires forall x :: x in xs ==> condition(x) == other(x)
    ensures Picks(xs, other, picked)
  {
    var places :| PicksAt(xs, condition, picked, places);
    assert PicksAt(xs, other, picked, places);
  }

  // ---- how often something occurs in several lists ----

  /** How often e occurs in the lists together. */
  function Times<T(==)>(lists: seq<seq<T>>, e: T): nat {
    if lists == [] then 0 else Times(lists[..|lists| - 1], e) + multiset(lists[|lists| - 1])[e]
  }
}
