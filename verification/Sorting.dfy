/** A stable insertion sort over a total comparison, standing for the host
    language's stable sort. */
module Sorting {

  ghost predicate Total<T(!new)>(le: (T, T) -> bool) {
    forall a, b :: le(a, b) || le(b, a)
  }

  ghost predicate Transitive<T(!new)>(le: (T, T) -> bool) {
    forall a, b, c :: le(a, b) && le(b, c) ==> le(a, c)
  }

  /** Neighbours are in order. */
  predicate Ordered<T>(le: (T, T) -> bool, xs: seq<T>) {
    |xs| > 1 ==> le(xs[0], xs[1]) && Ordered(le, xs[1..])
  }

  ghost predicate Distinct<T>(xs: seq<T>) {
    forall i, j :: 0 <= i < j < |xs| ==> xs[i] != xs[j]
  }

  function Insert<T>(le: (T, T) -> bool, x: T, sorted: seq<T>): (result: seq<T>)
    ensures |result| == |sorted| + 1 && (result[0] == x || (sorted != [] && result[0] == sorted[0]))
  {
    if sorted == [] || le(x, sorted[0]) then [x] + sorted
    else [sorted[0]] + Insert(le, x, sorted[1..])
  }

  function Sort<T>(le: (T, T) -> bool, xs: seq<T>): (sorted: seq<T>)
    ensures |sorted| == |xs|
  {
    if xs == [] then [] else Insert(le, xs[0], Sort(le, xs[1..]))
  }

  lemma InsertOrders<T(!new)>(le: (T, T) -> bool, x: T, sorted: seq<T>)
    requires Total(le) && Ordered(le, sorted)
    ensures Ordered(le, Insert(le, x, sorted))
  {
    if !(sorted == [] || le(x, sorted[0])) {
      InsertOrders(le, x, sorted[1..]);
    }
  }

  lemma InsertKeeps<T>(le: (T, T) -> bool, x: T, sorted: seq<T>)
    ensures forall e: T :: e in Insert(le, x, sorted) <==> e == x || e in sorted
    ensures Distinct(sorted) && x !in sorted ==> Distinct(Insert(le, x, sorted))
  {
    if sorted == [] || le(x, sorted[0]) {
      assert forall y :: 0 <= y < |sorted| ==> sorted[y] in sorted;
    } else {
      InsertKeeps(le, x, sorted[1..]);
      var rest := Insert(le, x, sorted[1..]);
      assert forall y :: 0 <= y < |rest| ==> rest[y] in rest;
      assert Distinct(sorted) ==> sorted[0] !in sorted[1..];
    }
  }

  lemma SortOrders<T(!new)>(le: (T, T) -> bool, xs: seq<T>)
    requires Total(le)
    ensures Ordered(le, Sort(le, xs))
  {
    if xs != [] {
      SortOrders(le, xs[1..]);
      InsertOrders(le, xs[0], Sort(le, xs[1..]));
    }
  }

  lemma SortKeeps<T>(le: (T, T) -> bool, xs: seq<T>)
    ensures forall e: T :: e in Sort(le, xs) <==> e in xs
    ensures Distinct(xs) ==> Distinct(Sort(le, xs))
  {
    if xs != [] {
      InsertKeeps(le, xs[0], Sort(le, xs[1..]));
    }
  }

  lemma InsertCounts<T>(le: (T, T) -> bool, x: T, sorted: seq<T>)
    ensures multiset(Insert(le, x, sorted)) == multiset{x} + multiset(sorted)
  {
    if !(sorted == [] || le(x, sorted[0])) {
      InsertCounts(le, x, sorted[1..]);
      assert sorted == [sorted[0]] + sorted[1..];
    }
  }

  /** Sorting keeps how often each element occurs. */
  lemma {:induction false} SortCounts<T>(le: (T, T) -> bool, xs: seq<T>)
    ensures multiset(Sort(le, xs)) == multiset(xs)
  {
    if xs != [] {
      SortCounts(le, xs[1..]);
      InsertCounts(le, xs[0], Sort(le, xs[1..]));
      assert xs == [xs[0]] + xs[1..];
    }
  }

  /** The same by position: every sorted element was given, and the other way round. */
  lemma SortKeepsPositions<T>(le: (T, T) -> bool, xs: seq<T>, sorted: seq<T>)
    requires sorted == Sort(le, xs)
    ensures forall k :: 0 <= k < |sorted| ==> sorted[k] in xs
    ensures forall k :: 0 <= k < |xs| ==> xs[k] in sorted
  {
    SortKeeps(le, xs);
    forall k | 0 <= k < |sorted| ensures sorted[k] in xs {
      var e := sorted[k];
      assert e in Sort(le, xs);
    }
  }

  lemma {:induction false} HeadIsLeast<T(!new)>(le: (T, T) -> bool, xs: seq<T>, k: nat)
    requires Transitive(le) && Total(le) && Ordered(le, xs) && k < |xs|
    ensures le(xs[0], xs[k])
    decreases k
  {
    if k > 0 {
      HeadIsLeast(le, xs[1..], k - 1);
    }
  }

  /** Every earlier element is at most every later one. */
  lemma {:induction false} OrderedPairs<T(!new)>(le: (T, T) -> bool, xs: seq<T>, i: nat, j: nat)
    requires Transitive(le) && Total(le) && Ordered(le, xs) && i <= j < |xs|
    ensures le(xs[i], xs[j])
    decreases i
  {
    if i == 0 {
      HeadIsLeast(le, xs, j);
    } else {
      OrderedPairs(le, xs[1..], i - 1, j - 1);
    }
  }
}
