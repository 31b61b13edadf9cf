/** Guarded clustering: edges are taken in order, and an edge joins two
    components only when no member of one clashes with a member of the other.
    Venue resolution, session resolution and the judgment pass all run this
    process; here it is a function of root labels, and what it guarantees is
    proved once. */
module GuardedClustering {
  import opened UnionFind

  type Edge = (nat, nat)

  /** roots[i] is the smallest index of i's component. */
  ghost predicate Labelling(roots: seq<nat>) {
    forall i :: 0 <= i < |roots| ==> roots[i] <= i && roots[roots[i]] == roots[i]
  }

  ghost predicate InRange(edges: seq<Edge>, n: nat) {
    forall k :: 0 <= k < |edges| ==> edges[k].0 < n && edges[k].1 < n
  }

  ghost predicate Symmetric(clash: (nat, nat) -> bool) {
    forall x, y :: clash(x, y) == clash(y, x)
  }

  /** Some member of l's component clashes with some member of r's. */
  ghost predicate Blocked(roots: seq<nat>, clash: (nat, nat) -> bool, l: nat, r: nat)
    requires l < |roots| && r < |roots|
  {
    exists x, y :: 0 <= x < |roots| && 0 <= y < |roots| && x != y && roots[x] == roots[l] && roots[y] == roots[r]
      && clash(x, y)
  }

  /** Distinct members of one component never clash. */
  ghost predicate Compatible(roots: seq<nat>, clash: (nat, nat) -> bool) {
    forall x, y :: 0 <= x < |roots| && 0 <= y < |roots| && x != y && roots[x] == roots[y] ==> !clash(x, y)
  }

  /** The labels after the components of labels a and b became one. */
  ghost function Merge(roots: seq<nat>, a: nat, b: nat): (merged: seq<nat>)
    ensures |merged| == |roots|
  {
    seq(|roots|, i requires 0 <= i < |roots| =>
      if roots[i] == (if a < b then b else a) then (if a < b then a else b) else roots[i])
  }

  ghost function Step(roots: seq<nat>, clash: (nat, nat) -> bool, edge: Edge): (next: seq<nat>)
    requires InRange([edge], |roots|)
    ensures |next| == |roots|
  {
    assert [edge][0] == edge;
    if roots[edge.0] == roots[edge.1] || Blocked(roots, clash, edge.0, edge.1) then roots
    else Merge(roots, roots[edge.0], roots[edge.1])
  }

  ghost function Run(roots: seq<nat>, clash: (nat, nat) -> bool, edges: seq<Edge>): (final: seq<nat>)
    requires InRange(edges, |roots|)
    ensures |final| == |roots|
  {
    if edges == [] then roots
    else
      Step(Run(roots, clash, edges[..|edges| - 1]), clash, edges[|edges| - 1])
  }

  ghost function Singletons(n: nat): (roots: seq<nat>)
    ensures |roots| == n && Labelling(roots)
    ensures forall clash :: Compatible(roots, clash)
  {
    seq(n, i => i)
  }

  /** A forest union of two classes merges their labels. */
  lemma JoinedIsMerge(p: seq<nat>, q: seq<nat>, roots: seq<nat>, l: nat, r: nat)
    requires Labels(p, roots) && l < |p| && r < |p| && Joined(p, q, Root(p, l), Root(p, r))
    ensures Labels(q, Merge(roots, roots[l], roots[r]))
  {
  }

  // ---- one step ----

  lemma StepKeepsLabelling(roots: seq<nat>, clash: (nat, nat) -> bool, e: Edge)
    requires Labelling(roots) && InRange([e], |roots|)
    ensures Labelling(Step(roots, clash, e))
  {
    assert [e][0] == e;
  }

  /** Components only grow. */
  lemma StepCoarsens(roots: seq<nat>, clash: (nat, nat) -> bool, e: Edge, x: nat, y: nat)
    requires InRange([e], |roots|) && x < |roots| && y < |roots| && roots[x] == roots[y]
    ensures Step(roots, clash, e)[x] == Step(roots, clash, e)[y]
  {
    assert [e][0] == e;
  }

  lemma StepKeepsCompatible(roots: seq<nat>, clash: (nat, nat) -> bool, e: Edge)
    requires Symmetric(clash) && InRange([e], |roots|) && Compatible(roots, clash)
    ensures Compatible(Step(roots, clash, e), clash)
  {
    assert [e][0] == e;
    var next := Step(roots, clash, e);
    forall x, y | 0 <= x < |roots| && 0 <= y < |roots| && x != y && next[x] == next[y] ensures !clash(x, y) {
      if roots[x] != roots[y] {
        assert clash(x, y) == clash(y, x);
      }
    }
  }

  /** A pair kept apart by a clash stays apart, for the same reason. */
  lemma StepKeepsBlocked(roots: seq<nat>, clash: (nat, nat) -> bool, e: Edge, l: nat, r: nat)
    requires Symmetric(clash) && InRange([e], |roots|) && l < |roots| && r < |roots|
    requires roots[l] != roots[r] && Blocked(roots, clash, l, r)
    ensures Step(roots, clash, e)[l] != Step(roots, clash, e)[r]
    ensures Blocked(Step(roots, clash, e), clash, l, r)
  {
    assert [e][0] == e;
    var x, y :| 0 <= x < |roots| && 0 <= y < |roots| && x != y && roots[x] == roots[l] && roots[y] == roots[r]
      && clash(x, y);
    var next := Step(roots, clash, e);
    assert clash(y, x);
    assert next[x] == next[l] && next[y] == next[r];
  }

  // ---- whole runs ----

  lemma {:induction false} RunKeepsLabelling(roots: seq<nat>, clash: (nat, nat) -> bool, edges: seq<Edge>)
    requires Labelling(roots) && InRange(edges, |roots|)
    ensures Labelling(Run(roots, clash, edges))
  {
    if edges != [] {
      var before := edges[..|edges| - 1];
      RunKeepsLabelling(roots, clash, before);
      StepKeepsLabelling(Run(roots, clash, before), clash, edges[|edges| - 1]);
    }
  }

  /** Every final component is free of clashes. */
  lemma {:induction false} RunKeepsCompatible(roots: seq<nat>, clash: (nat, nat) -> bool, edges: seq<Edge>)
    requires Symmetric(clash) && InRange(edges, |roots|) && Compatible(roots, clash)
    ensures Compatible(Run(roots, clash, edges), clash)
  {
    if edges != [] {
      var before := edges[..|edges| - 1];
      RunKeepsCompatible(roots, clash, before);
      StepKeepsCompatible(Run(roots, clash, before), clash, edges[|edges| - 1]);
    }
  }

  lemma {:induction false} RunCoarsens(roots: seq<nat>, clash: (nat, nat) -> bool, edges: seq<Edge>, x: nat, y: nat)
    requires InRange(edges, |roots|) && x < |roots| && y < |roots| && roots[x] == roots[y]
    ensures Run(roots, clash, edges)[x] == Run(roots, clash, edges)[y]
  {
    if edges != [] {
      var before := edges[..|edges| - 1];
      RunCoarsens(roots, clash, before, x, y);
      StepCoarsens(Run(roots, clash, before), clash, edges[|edges| - 1], x, y);
    }
  }

  lemma {:induction false} RunKeepsBlocked(roots: seq<nat>, clash: (nat, nat) -> bool, edges: seq<Edge>, l: nat, r: nat)
    requires Symmetric(clash) && InRange(edges, |roots|) && l < |roots| && r < |roots|
    requires roots[l] != roots[r] && Blocked(roots, clash, l, r)
    ensures Run(roots, clash, edges)[l] != Run(roots, clash, edges)[r]
    ensures Blocked(Run(roots, clash, edges), clash, l, r)
  {
    if edges != [] {
      var before := edges[..|edges| - 1];
      RunKeepsBlocked(roots, clash, before, l, r);
      StepKeepsBlocked(Run(roots, clash, before), clash, edges[|edges| - 1], l, r);
    }
  }

  /** Every edge ends inside one component exactly when the components of its
      ends hold no clashing pair: a rejected edge stays justified for good. */
  lemma {:induction false} EdgesAreSettled(roots: seq<nat>, clash: (nat, nat) -> bool, edges: seq<Edge>, k: nat)
    requires Symmetric(clash) && InRange(edges, |roots|) && k < |edges| && Compatible(roots, clash)
    ensures var final, e := Run(roots, clash, edges), edges[k];
      final[e.0] == final[e.1] <==> !Blocked(final, clash, e.0, e.1)
  {
    RunKeepsCompatible(roots, clash, edges);
    var before, last := edges[..|edges| - 1], edges[|edges| - 1];
    var prior := Run(roots, clash, before);
    if k < |before| {
      EdgesAreSettled(roots, clash, before, k);
      var e := edges[k];
      assert before[k] == e;
      if prior[e.0] == prior[e.1] {
        StepCoarsens(prior, clash, last, e.0, e.1);
      } else {
        StepKeepsBlocked(prior, clash, last, e.0, e.1);
      }
    }
  }

  /** Components never reach beyond what the edges connect: a label that every
      edge respects is constant on each component. */
  lemma {:induction false} LabelsFollowEdges<T>(
      roots: seq<nat>, clash: (nat, nat) -> bool, edges: seq<Edge>, kind: nat -> T, x: nat, y: nat)
    requires InRange(edges, |roots|) && x < |roots| && y < |roots|
    requires forall i, j :: 0 <= i < |roots| && 0 <= j < |roots| && roots[i] == roots[j] ==> kind(i) == kind(j)
    requires forall k :: 0 <= k < |edges| ==> kind(edges[k].0) == kind(edges[k].1)
    ensures Run(roots, clash, edges)[x] == Run(roots, clash, edges)[y] ==> kind(x) == kind(y)
    decreases |edges|
  {
    if edges != [] {
      var before, last := edges[..|edges| - 1], edges[|edges| - 1];
      var prior := Run(roots, clash, before);
      LabelsFollowEdges(roots, clash, before, kind, x, y);
      LabelsFollowEdges(roots, clash, before, kind, x, last.0);
      LabelsFollowEdges(roots, clash, before, kind, x, last.1);
      LabelsFollowEdges(roots, clash, before, kind, y, last.0);
      LabelsFollowEdges(roots, clash, before, kind, y, last.1);
    }
  }

  lemma PartsInRange(first: seq<Edge>, second: seq<Edge>, n: nat)
    requires InRange(first + second, n)
    ensures InRange(first, n) && InRange(second, n)
  {
    assert forall k :: 0 <= k < |first| ==> (first + second)[k] == first[k];
    assert forall k :: 0 <= k < |second| ==> (first + second)[|first| + k] == second[k];
  }

  lemma RunLast(roots: seq<nat>, clash: (nat, nat) -> bool, edges: seq<Edge>, e: Edge)
    requires InRange(edges + [e], |roots|) && InRange(edges, |roots|) && InRange([e], |roots|)
    ensures Run(roots, clash, edges + [e]) == Step(Run(roots, clash, edges), clash, e)
  {
    assert (edges + [e])[..|edges|] == edges;
  }

  /** A run over a longer list starts with the run over its prefix. */
  lemma {:induction false} RunSplits(roots: seq<nat>, clash: (nat, nat) -> bool, first: seq<Edge>, second: seq<Edge>)
    requires InRange(first + second, |roots|)
    ensures InRange(first, |roots|) && InRange(second, |roots|)
    ensures Run(roots, clash, first + second) == Run(Run(roots, clash, first), clash, second)
    decreases |second|
  {
    PartsInRange(first, second, |roots|);
    if second == [] {
      assert first + second == first;
    } else {
      var shorter, last := second[..|second| - 1], second[|second| - 1];
      assert first + second == (first + shorter) + [last] && second == shorter + [last];
      PartsInRange(first + shorter, [last], |roots|);
      RunSplits(roots, clash, first, shorter);
      RunLast(roots, clash, first + shorter, last);
      RunLast(Run(roots, clash, first), clash, shorter, last);
    }
  }

  /** Trying more edges afterwards changes nothing for an edge already tried. */
  lemma LaterEdgesChangeNothing(roots: seq<nat>, clash: (nat, nat) -> bool, first: seq<Edge>, second: seq<Edge>, k: nat)
    requires Symmetric(clash) && Compatible(roots, clash) && InRange(first + second, |roots|) && k < |first|
    ensures InRange(first, |roots|)
    ensures var e, early, late := first[k], Run(roots, clash, first), Run(roots, clash, first + second);
      early[e.0] == early[e.1] <==> late[e.0] == late[e.1]
  {
    RunSplits(roots, clash, first, second);
    var e, early := first[k], Run(roots, clash, first);
    EdgesAreSettled(roots, clash, first, k);
    if early[e.0] == early[e.1] {
      RunCoarsens(early, clash, second, e.0, e.1);
    } else {
      RunKeepsBlocked(early, clash, second, e.0, e.1);
    }
  }

  // ---- reading the components back ----

  /** The indexes below n that carry label r, ascending. */
  function ClassOf(roots: seq<nat>, r: nat, n: nat): seq<nat>
    requires n <= |roots|
  {
    if n == 0 then []
    else if roots[n - 1] == r then ClassOf(roots, r, n - 1) + [n - 1]
    else ClassOf(roots, r, n - 1)
  }

  ghost predicate Ascends(indexes: seq<nat>, n: nat) {
    && (forall k :: 0 <= k < |indexes| ==> indexes[k] < n)
    && forall a, b :: 0 <= a < b < |indexes| ==> indexes[a] < indexes[b]
  }

  lemma {:induction false} ClassOfExact(roots: seq<nat>, r: nat, n: nat)
    requires n <= |roots|
    ensures forall x: nat :: x in ClassOf(roots, r, n) <==> x < n && roots[x] == r
    ensures Ascends(ClassOf(roots, r, n), n)
  {
    if n > 0 { ClassOfExact(roots, r, n - 1); }
  }

  lemma NoClass(roots: seq<nat>, r: nat, n: nat)
    requires n <= |roots| && forall x :: 0 <= x < n ==> roots[x] != r
    ensures ClassOf(roots, r, n) == []
  {
  }

  /** The components in order of their first member: every index lies in
      exactly one of them. */
  ghost predicate ComponentsOf(components: seq<seq<nat>>, roots: seq<nat>, heads: seq<nat>) {
    && |components| == |heads|
    && (forall x, y :: 0 <= x < y < |heads| ==> heads[x] != heads[y])
    && (forall x :: 0 <= x < |roots| ==> roots[x] in heads)
    && (forall h :: 0 <= h < |heads| ==> components[h] == ClassOf(roots, heads[h], |roots|))
  }

  /** What has been grouped before index: at sends a label to its component. */
  ghost predicate Grouped(roots: seq<nat>, index: nat, components: seq<seq<nat>>, heads: seq<nat>, at: map<nat, nat>)
    requires index <= |roots|
  {
    && |components| == |heads|
    && (forall h :: 0 <= h < |heads| ==>
      heads[h] in at && at[heads[h]] == h && components[h] == ClassOf(roots, heads[h], index))
    && (forall r :: r in at ==> at[r] < |heads| && heads[at[r]] == r)
    && (forall x :: 0 <= x < index ==> roots[x] in at)
  }

  method AddToComponents(
      ghost roots: seq<nat>, index: nat, root: nat, components0: seq<seq<nat>>, ghost heads0: seq<nat>,
      at0: map<nat, nat>)
    returns (components: seq<seq<nat>>, ghost heads: seq<nat>, at: map<nat, nat>)
    requires index < |roots| && root == roots[index] && Grouped(roots, index, components0, heads0, at0)
    ensures Grouped(roots, index + 1, components, heads, at)
  {
    components, heads, at := components0, heads0, at0;
    if root in at {
      components := components[at[root] := components[at[root]] + [index]];
    } else {
      NoClass(roots, root, index);
      at := at[root := |components|];
      heads := heads + [root];
      components := components + [[index]];
    }
  }

  method CollectComponents(
      parent: array<nat>, ghost roots: seq<nat>)
    returns (components: seq<seq<nat>>, ghost heads: seq<nat>)
    requires Labels(parent[..], roots)
    modifies parent
    ensures Labels(parent[..], roots)
    ensures ComponentsOf(components, roots, heads)
  {
    heads, components := [], [];
    var at: map<nat, nat> := map[];
    for index := 0 to parent.Length
      invariant Labels(parent[..], roots)
      invariant Grouped(roots, index, components, heads, at)
    {
      var root := FindRoot(parent, index);
      components, heads, at := AddToComponents(roots, index, root, components, heads, at);
    }
    forall x | 0 <= x < |roots| ensures roots[x] in heads {
      assert heads[at[roots[x]]] == roots[x];
    }
  }
}
