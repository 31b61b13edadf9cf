/** The judgment pass: calibrated judgments may join deterministic sessions, but
    only sessions whose listings are approved pair by pair. */
module Judgments {
  import opened Listings
  import opened UnionFind
  import opened GuardedClustering
  import opened Sessions
  import opened Sorting

  /** How the judge settled an ambiguous pair. A pair is Different only on a
      calibrated judgment; a failure or a spent budget leaves it Undecided. */
  datatype Judgment = Approved | Different | Undecided
  type Judge = (nat, nat) -> Judgment

  /** The pair was left ambiguous by the rules and approved by the judge. */
  predicate JudgeApproves(decisions: seq<Decision>, slot: map<Edge, nat>, judge: Judge, p: Edge) {
    p in slot && slot[p] < |decisions| && decisions[slot[p]].outcome == Unresolved && judge(p.0, p.1) == Approved
  }

  /** The pair was approved, by the rules or by the judge. */
  predicate PairApproved(decisions: seq<Decision>, slot: map<Edge, nat>, judge: Judge, x: nat, y: nat) {
    StillMerging(decisions, slot, x, y) || JudgeApproves(decisions, slot, judge, Pair(x, y))
  }

  type Approval = (nat, nat) -> bool

  /** Two sessions that may not be joined: a provider would repeat, or some
      cross pair lacks approval. */
  ghost function SessionClash(listings: seq<Listing>, sessions: seq<seq<nat>>, approved: Approval): (nat, nat) -> bool {
    (s: nat, t: nat) => s < |sessions| && t < |sessions| && exists x, y ::
      x in sessions[s] && y in sessions[t] && PairClash(listings, approved, x, y)
  }

  predicate PairClash(listings: seq<Listing>, approved: Approval, x: nat, y: nat) {
    x < |listings| && y < |listings| && (listings[x].provider == listings[y].provider || !approved(x, y))
  }

  ghost predicate SymmetricApproval(approved: Approval) {
    forall x, y :: approved(x, y) == approved(y, x)
  }

  lemma SessionClashIsSymmetric(listings: seq<Listing>, sessions: seq<seq<nat>>, approved: Approval)
    requires SymmetricApproval(approved)
    ensures Symmetric(SessionClash(listings, sessions, approved))
  {
    var clash := SessionClash(listings, sessions, approved);
    forall s: nat, t: nat | clash(s, t) ensures clash(t, s) {
      var x, y :| x in sessions[s] && y in sessions[t] && PairClash(listings, approved, x, y);
      assert PairClash(listings, approved, y, x);
    }
  }

  /** sessionOf locates every listing in its session. */
  ghost predicate Locates(sessions: seq<seq<nat>>, sessionOf: seq<nat>) {
    && (forall x :: 0 <= x < |sessionOf| ==> sessionOf[x] < |sessions| && x in sessions[sessionOf[x]])
    && (forall s, x :: 0 <= s < |sessions| && x in sessions[s] ==> x < |sessionOf|)
    && (forall s, x :: 0 <= s < |sessions| && x in sessions[s] ==> sessionOf[x] == s)
  }

  function SessionEdges(sessionOf: seq<nat>, pairs: seq<Edge>): (edges: seq<Edge>)
    requires forall k :: 0 <= k < |pairs| ==> pairs[k].0 < |sessionOf| && pairs[k].1 < |sessionOf|
    ensures |edges| == |pairs|
    ensures forall k :: 0 <= k < |edges| ==> edges[k] == (sessionOf[pairs[k].0], sessionOf[pairs[k].1])
  {
    seq(|pairs|, k requires 0 <= k < |pairs| => (sessionOf[pairs[k].0], sessionOf[pairs[k].1]))
  }

  /** members are the listings of the sessions labelled with the root. */
  ghost predicate Gathers(sessions: seq<seq<nat>>, roots: seq<nat>, root: nat, members: seq<nat>)
    requires |sessions| == |roots|
  {
    forall x :: x in members <==> exists s :: 0 <= s < |sessions| && roots[s] == root && x in sessions[s]
  }

  /** The listings of the component with the given root, by scanning all sessions. */
  method ComponentListings(
      sets: SessionSets, sessions: seq<seq<nat>>, root: nat, ghost roots: seq<nat>)
    returns (members: seq<nat>)
    requires sets.Valid() && Labels(sets.parent[..], roots) && |sessions| == |roots|
    modifies sets.parent
    ensures sets.Valid() && Labels(sets.parent[..], roots)
    ensures Gathers(sessions, roots, root, members)
  {
    members := [];
    for s := 0 to |sessions|
      invariant sets.Valid() && Labels(sets.parent[..], roots)
      invariant forall x :: x in members <==> exists t :: 0 <= t < s && roots[t] == root && x in sessions[t]
    {
      var r := sets.Find(s);
      if r == root {
        members := members + sessions[s];
      }
    }
  }

  ghost predicate Below(members: seq<nat>, n: nat) {
    forall k :: 0 <= k < |members| ==> members[k] < n
  }

  lemma MembersBelow(sessions: seq<seq<nat>>, sessionOf: seq<nat>, roots: seq<nat>, root: nat, members: seq<nat>)
    requires |sessions| == |roots| && Locates(sessions, sessionOf) && Gathers(sessions, roots, root, members)
    ensures Below(members, |sessionOf|)
  {
    forall k | 0 <= k < |members| ensures members[k] < |sessionOf| {
      assert members[k] in members;
      var s :| 0 <= s < |sessions| && roots[s] == root && members[k] in sessions[s];
    }
  }

  /** Two listings that justify a rejection under the given rule. */
  predicate Refuses(listings: seq<Listing>, approved: Approval, x: nat, y: nat, rule: Rule)
    requires x < |listings| && y < |listings|
  {
    || (rule == GraphSameProviderCollision && listings[x].provider == listings[y].provider)
    || (rule == GraphPairwiseIncompatibility && !approved(x, y))
  }

  ghost predicate SomeClash(listings: seq<Listing>, approved: Approval, left: seq<nat>, right: seq<nat>) {
    exists x, y :: x in left && y in right && PairClash(listings, approved, x, y)
  }

  ghost predicate SomeRefusal(listings: seq<Listing>, approved: Approval, left: seq<nat>, right: seq<nat>, rule: Rule) {
    exists x, y :: x in left && y in right && x < |listings| && y < |listings|
      && Refuses(listings, approved, x, y, rule)
  }

  ghost predicate SharesProvider(listings: seq<Listing>, left: seq<nat>, right: seq<nat>) {
    exists x, y :: x in left && y in right && x < |listings| && y < |listings|
      && listings[x].provider == listings[y].provider
  }

  /** The veto on joining two components. */
  method Reject(
      listings: seq<Listing>, approved: Approval, left: seq<nat>, right: seq<nat>)
    returns (reason: Option<Rule>)
    requires Below(left, |listings|) && Below(right, |listings|)
    ensures reason.Some? <==> SomeClash(listings, approved, left, right)
    ensures reason.Some? ==> reason.value == GraphSameProviderCollision || reason.value == GraphPairwiseIncompatibility
    ensures reason == Some(GraphSameProviderCollision) <==> SharesProvider(listings, left, right)
    ensures reason.Some? ==> SomeRefusal(listings, approved, left, right, reason.value)
  {
    var providers := set x | x in left :: listings[x].provider;
    if y :| y in right && listings[y].provider in providers {
      var x :| x in left && listings[x].provider == listings[y].provider;
      assert PairClash(listings, approved, x, y) && Refuses(listings, approved, x, y, GraphSameProviderCollision);
      return Some(GraphSameProviderCollision);
    }
    forall x, y | x in left && y in right ensures listings[x].provider != listings[y].provider {
      assert listings[x].provider in providers;
    }
    for i := 0 to |left|
      invariant forall x, y :: x in left[..i] && y in right ==> approved(x, y)
    {
      for j := 0 to |right|
        invariant forall y :: y in right[..j] ==> approved(left[i], y)
      {
        if !approved(left[i], right[j]) {
          assert left[i] in left && right[j] in right && PairClash(listings, approved, left[i], right[j]);
          assert Refuses(listings, approved, left[i], right[j], GraphPairwiseIncompatibility);
          return Some(GraphPairwiseIncompatibility);
        }
      }
    }
    return None;
  }

  lemma RejectDecidesStep(
      listings: seq<Listing>, sessions: seq<seq<nat>>, approved: Approval, roots: seq<nat>, s: nat, t: nat,
      left: seq<nat>,
      right: seq<nat>)
    requires |sessions| == |roots| && s < |roots| && t < |roots| && roots[s] != roots[t]
    requires Gathers(sessions, roots, roots[s], left) && Gathers(sessions, roots, roots[t], right)
    ensures Blocked(roots, SessionClash(listings, sessions, approved), s, t)
       <==> SomeClash(listings, approved, left, right)
  {
    var clash := SessionClash(listings, sessions, approved);
    if Blocked(roots, clash, s, t) {
      var u, v :| 0 <= u < |roots| && 0 <= v < |roots| && u != v && roots[u] == roots[s] && roots[v] == roots[t]
        && clash(u, v);
      var x, y :| x in sessions[u] && y in sessions[v] && PairClash(listings, approved, x, y);
      assert x in left && y in right;
    }
    if x, y :| x in left && y in right && PairClash(listings, approved, x, y) {
      var u :| 0 <= u < |sessions| && roots[u] == roots[s] && x in sessions[u];
      var v :| 0 <= v < |sessions| && roots[v] == roots[t] && y in sessions[v];
      assert clash(u, v);
    }
  }

  /** The components of sessions s and t hold listings that justify the rule. */
  ghost predicate Justifies(
      listings: seq<Listing>, approved: Approval, sessionOf: seq<nat>, roots: seq<nat>, s: nat, t: nat, rule: Rule)
    requires |sessionOf| == |listings| && s < |roots| && t < |roots|
    requires forall x :: 0 <= x < |sessionOf| ==> sessionOf[x] < |roots|
  {
    exists x: nat, y: nat :: x < |listings| && y < |listings|
      && roots[sessionOf[x]] == roots[s] && roots[sessionOf[y]] == roots[t] && Refuses(listings, approved, x, y, rule)
  }

  /** What the member test found names listings of the two components. */
  lemma RejectIsJustified(
      listings: seq<Listing>, sessions: seq<seq<nat>>, approved: Approval, sessionOf: seq<nat>, roots: seq<nat>, s: nat,
      t: nat, left: seq<nat>, right: seq<nat>, rule: Rule)
    requires |sessions| == |roots| && s < |roots| && t < |roots|
    requires Locates(sessions, sessionOf) && |sessionOf| == |listings|
    requires Gathers(sessions, roots, roots[s], left) && Gathers(sessions, roots, roots[t], right)
    requires SomeRefusal(listings, approved, left, right, rule)
    ensures Justifies(listings, approved, sessionOf, roots, s, t, rule)
  {
    var x, y :| x in left && y in right && x < |listings| && y < |listings| && Refuses(listings, approved, x, y, rule);
    var u :| 0 <= u < |sessions| && roots[u] == roots[s] && x in sessions[u];
    var v :| 0 <= v < |sessions| && roots[v] == roots[t] && y in sessions[v];
    assert sessionOf[x] == u && sessionOf[y] == v;
  }

  /** Whether two components may be joined, read from all their listings. */
  method Weigh(
      listings: seq<Listing>, sessions: seq<seq<nat>>, approved: Approval, sets: SessionSets, ghost sessionOf: seq<nat>,
      ghost roots: seq<nat>, ghost edge: Edge, leftRoot: nat, rightRoot: nat)
    returns (rejection: Option<Rule>)
    requires |sessions| == |roots| && edge.0 < |roots| && edge.1 < |roots|
    requires leftRoot == roots[edge.0] && rightRoot == roots[edge.1] && leftRoot != rightRoot
    requires Locates(sessions, sessionOf) && |sessionOf| == |listings|
    requires sets.Valid() && Labels(sets.parent[..], roots)
    modifies sets.parent
    ensures sets.Valid() && Labels(sets.parent[..], roots)
    ensures rejection.Some? <==> Blocked(roots, SessionClash(listings, sessions, approved), edge.0, edge.1)
    ensures rejection.Some? ==> Justifies(listings, approved, sessionOf, roots, edge.0, edge.1, rejection.value)
  {
    var leftMembers := ComponentListings(sets, sessions, leftRoot, roots);
    var rightMembers := ComponentListings(sets, sessions, rightRoot, roots);
    MembersBelow(sessions, sessionOf, roots, leftRoot, leftMembers);
    MembersBelow(sessions, sessionOf, roots, rightRoot, rightMembers);
    rejection := Reject(listings, approved, leftMembers, rightMembers);
    RejectDecidesStep(listings, sessions, approved, roots, edge.0, edge.1, leftMembers, rightMembers);
    if rejection.Some? {
      RejectIsJustified(
        listings, sessions, approved, sessionOf, roots, edge.0, edge.1, leftMembers, rightMembers, rejection.value);
    }
  }

  /** One approved pair: its sessions are already together, kept apart, or joined. */
  method TryApproved(
      listings: seq<Listing>, sessions: seq<seq<nat>>, approved: Approval, sets: SessionSets, ghost sessionOf: seq<nat>,
      ghost roots: seq<nat>, edge: Edge)
    returns (rejection: Option<Rule>)
    requires |sessions| == |roots| && InRange([edge], |roots|) && edge.0 < |roots| && edge.1 < |roots|
    requires Locates(sessions, sessionOf) && |sessionOf| == |listings|
    requires sets.Valid() && Labels(sets.parent[..], roots)
    modifies sets.parent
    ensures sets.Valid() && Labels(sets.parent[..], Step(roots, SessionClash(listings, sessions, approved), edge))
    ensures var next := Step(roots, SessionClash(listings, sessions, approved), edge);
      && (rejection.Some? <==> next[edge.0] != next[edge.1])
      && (rejection.Some? ==> Justifies(listings, approved, sessionOf, next, edge.0, edge.1, rejection.value))
  {
    var leftRoot := sets.Find(edge.0);
    var rightRoot := sets.Find(edge.1);
    if leftRoot == rightRoot {
      return None;
    }
    rejection := Weigh(listings, sessions, approved, sets, sessionOf, roots, edge, leftRoot, rightRoot);
    if rejection.None? {
      ghost var p := sets.parent[..];
      sets.Union(leftRoot, rightRoot);
      JoinedIsMerge(p, sets.parent[..], roots, edge.0, edge.1);
    }
  }

  /** The components of sessions left by trying the pairs in order. */
  ghost function FinalSessionRoots(
      listings: seq<Listing>, sessions: seq<seq<nat>>, approved: Approval, sessionOf: seq<nat>,
      pairs: seq<Edge>): (roots: seq<nat>)
    requires Locates(sessions, sessionOf) && InRange(pairs, |sessionOf|)
    ensures |roots| == |sessions|
  {
    Run(Singletons(|sessions|), SessionClash(listings, sessions, approved), SessionEdges(sessionOf, pairs))
  }

  /** A tried pair is either merged, and then its sessions are together, or
      rejected for a reason that holds between their components, and then they
      are not. */
  ghost predicate PairAccounted(
      listings: seq<Listing>, approved: Approval, sessionOf: seq<nat>, roots: seq<nat>, p: Edge, merged: set<Edge>,
      rejected: map<Edge, Rule>)
    requires |sessionOf| == |listings| && p.0 < |sessionOf| && p.1 < |sessionOf|
    requires forall x :: 0 <= x < |sessionOf| ==> sessionOf[x] < |roots|
  {
    if roots[sessionOf[p.0]] == roots[sessionOf[p.1]] then p in merged && p !in rejected
    else
      && p in rejected && p !in merged
      && Justifies(listings, approved, sessionOf, roots, sessionOf[p.0], sessionOf[p.1], rejected[p])
  }

  /** Every tried pair is accounted for in the final components. */
  ghost predicate Accounted(
      listings: seq<Listing>, sessions: seq<seq<nat>>, approved: Approval, sessionOf: seq<nat>, pairs: seq<Edge>,
      merged: set<Edge>, rejected: map<Edge, Rule>)
    requires |sessionOf| == |listings| && Locates(sessions, sessionOf) && InRange(pairs, |sessionOf|)
  {
    var final := FinalSessionRoots(listings, sessions, approved, sessionOf, pairs);
    forall k :: 0 <= k < |pairs| ==> PairAccounted(listings, approved, sessionOf, final, pairs[k], merged, rejected)
  }

  /** A tried pair stays accounted for, with its reason, when one more edge is tried. */
  lemma AccountSurvives(
      listings: seq<Listing>, sessions: seq<seq<nat>>, approved: Approval, sessionOf: seq<nat>, tried: seq<Edge>,
      k: nat,
      e: Edge, merged: set<Edge>, rejected: map<Edge, Rule>)
    requires |sessionOf| == |listings| && Locates(sessions, sessionOf) && SymmetricApproval(approved)
    requires InRange(tried, |sessionOf|) && k < |tried| && InRange([e], |sessions|)
    requires var roots := FinalSessionRoots(listings, sessions, approved, sessionOf, tried);
      PairAccounted(listings, approved, sessionOf, roots, tried[k], merged, rejected)
    ensures var next := Step(
      FinalSessionRoots(listings, sessions, approved, sessionOf, tried), SessionClash(listings, sessions, approved),
      e);
      PairAccounted(listings, approved, sessionOf, next, tried[k], merged, rejected)
  {
    var clash, edges := SessionClash(listings, sessions, approved), SessionEdges(sessionOf, tried);
    var roots, p := FinalSessionRoots(listings, sessions, approved, sessionOf, tried), tried[k];
    var s, t := sessionOf[p.0], sessionOf[p.1];
    SessionClashIsSymmetric(listings, sessions, approved);
    EdgesAreSettled(Singletons(|sessions|), clash, edges, k);
    if roots[s] == roots[t] {
      StepCoarsens(roots, clash, e, s, t);
    } else {
      StepKeepsBlocked(roots, clash, e, s, t);
      ReasonSurvives(listings, approved, sessionOf, roots, clash, e, s, t, rejected[p]);
    }
  }

  lemma ReasonSurvives(
      listings: seq<Listing>, approved: Approval, sessionOf: seq<nat>, roots: seq<nat>, clash: (nat, nat) -> bool,
      e: Edge,
      s: nat, t: nat, rule: Rule)
    requires |sessionOf| == |listings| && s < |roots| && t < |roots| && InRange([e], |roots|)
    requires forall x :: 0 <= x < |sessionOf| ==> sessionOf[x] < |roots|
    requires Justifies(listings, approved, sessionOf, roots, s, t, rule)
    ensures Justifies(listings, approved, sessionOf, Step(roots, clash, e), s, t, rule)
  {
    var x: nat, y: nat :| x < |listings| && y < |listings|
      && roots[sessionOf[x]] == roots[s] && roots[sessionOf[y]] == roots[t] && Refuses(listings, approved, x, y, rule);
    StepCoarsens(roots, clash, e, sessionOf[x], s);
    StepCoarsens(roots, clash, e, sessionOf[y], t);
  }

  /** The record of one pair depends on its own entries alone. */
  lemma SameEntry(
      listings: seq<Listing>, approved: Approval, sessionOf: seq<nat>, roots: seq<nat>, p: Edge, merged: set<Edge>,
      rejected: map<Edge, Rule>, merged': set<Edge>, rejected': map<Edge, Rule>)
    requires |sessionOf| == |listings| && p.0 < |sessionOf| && p.1 < |sessionOf|
    requires forall x :: 0 <= x < |sessionOf| ==> sessionOf[x] < |roots|
    requires PairAccounted(listings, approved, sessionOf, roots, p, merged, rejected)
    requires (p in merged' <==> p in merged) && (p in rejected' <==> p in rejected)
    requires p in rejected ==> rejected'[p] == rejected[p]
    ensures PairAccounted(listings, approved, sessionOf, roots, p, merged', rejected')
  {
  }

  /** What trying one more pair does to the run. */
  lemma NextRoots(
      listings: seq<Listing>, sessions: seq<seq<nat>>, approved: Approval, sessionOf: seq<nat>, tried: seq<Edge>,
      pair: Edge)
    requires Locates(sessions, sessionOf) && InRange(tried, |sessionOf|) && pair.0 < |sessionOf| && pair.1 < |sessionOf|
    ensures InRange(tried + [pair], |sessionOf|) && InRange([(sessionOf[pair.0], sessionOf[pair.1])], |sessions|)
    ensures FinalSessionRoots(listings, sessions, approved, sessionOf, tried + [pair])
         == Step(FinalSessionRoots(listings, sessions, approved, sessionOf, tried),
                 SessionClash(listings, sessions, approved), (sessionOf[pair.0], sessionOf[pair.1]))
  {
    var edges, e := SessionEdges(sessionOf, tried), (sessionOf[pair.0], sessionOf[pair.1]);
    assert SessionEdges(sessionOf, tried + [pair]) == edges + [e];
    assert (edges + [e])[..|tried|] == edges;
  }

  /** What trying one more pair does to the record. */
  lemma NextApproved(
      listings: seq<Listing>, sessions: seq<seq<nat>>, approved: Approval, sessionOf: seq<nat>, tried: seq<Edge>,
      pair: Edge, merged: set<Edge>, rejected: map<Edge, Rule>, merged': set<Edge>, rejected': map<Edge, Rule>)
    requires |sessionOf| == |listings| && Locates(sessions, sessionOf) && SymmetricApproval(approved)
    requires InRange(tried, |sessionOf|) && InRange(tried + [pair], |sessionOf|) && pair !in tried
    requires Accounted(listings, sessions, approved, sessionOf, tried, merged, rejected)
    requires forall p :: p != pair ==> (p in merged' <==> p in merged) && (p in rejected' <==> p in rejected)
    requires forall p :: p != pair && p in rejected ==> rejected'[p] == rejected[p]
    requires (tried + [pair])[|tried|] == pair
    requires var final := FinalSessionRoots(listings, sessions, approved, sessionOf, tried + [pair]);
      PairAccounted(listings, approved, sessionOf, final, pair, merged', rejected')
    ensures Accounted(listings, sessions, approved, sessionOf, tried + [pair], merged', rejected')
  {
    var final := FinalSessionRoots(listings, sessions, approved, sessionOf, tried + [pair]);
    NextRoots(listings, sessions, approved, sessionOf, tried, pair);
    forall k | 0 <= k < |tried|
      ensures PairAccounted(listings, approved, sessionOf, final, tried[k], merged', rejected')
    {
      var e := (sessionOf[pair.0], sessionOf[pair.1]);
      AccountSurvives(listings, sessions, approved, sessionOf, tried, k, e, merged, rejected);
      assert tried[k] in tried;
      SameEntry(listings, approved, sessionOf, final, tried[k], merged, rejected, merged', rejected');
    }
  }

  /** Tries one more pair and records what became of it. */
  method TryNextApproved(
      listings: seq<Listing>, sessions: seq<seq<nat>>, sessionOf: seq<nat>, approved: Approval, sets: SessionSets,
      ghost tried: seq<Edge>, pair: Edge, merged0: set<Edge>, rejected0: map<Edge, Rule>)
    returns (merged: set<Edge>, rejected: map<Edge, Rule>)
    requires |sessionOf| == |listings| && Locates(sessions, sessionOf) && SymmetricApproval(approved)
    requires InRange(tried, |listings|) && InRange(tried + [pair], |listings|) && pair !in tried
    requires pair.0 < |listings| && pair.1 < |listings|
    requires sets.Valid() && Labels(sets.parent[..], FinalSessionRoots(listings, sessions, approved, sessionOf, tried))
    requires Accounted(listings, sessions, approved, sessionOf, tried, merged0, rejected0)
    modifies sets.parent
    ensures sets.Valid()
    ensures Labels(sets.parent[..], FinalSessionRoots(listings, sessions, approved, sessionOf, tried + [pair]))
    ensures Accounted(listings, sessions, approved, sessionOf, tried + [pair], merged, rejected)
  {
    NextRoots(listings, sessions, approved, sessionOf, tried, pair);
    ghost var roots := FinalSessionRoots(listings, sessions, approved, sessionOf, tried);
    var rejection := TryApproved(
      listings, sessions, approved, sets, sessionOf, roots, (sessionOf[pair.0], sessionOf[pair.1]));
    if rejection.Some? {
      rejected, merged := rejected0[pair := rejection.value], merged0 - {pair};
    } else {
      merged, rejected := merged0 + {pair}, rejected0 - {pair};
    }
    NextApproved(listings, sessions, approved, sessionOf, tried, pair, merged0, rejected0, merged, rejected);
  }

  lemma NextTried(pairs: seq<Edge>, k: nat, n: nat)
    requires InRange(pairs, n) && Distinct(pairs) && k < |pairs|
    ensures InRange(pairs[..k], n) && InRange(pairs[..k] + [pairs[k]], n)
    ensures pairs[..k + 1] == pairs[..k] + [pairs[k]] && pairs[k] !in pairs[..k]
  {
  }

  method JoinApproved(
      listings: seq<Listing>, sessions: seq<seq<nat>>, sessionOf: seq<nat>, approved: Approval, pairs: seq<Edge>)
    returns (sets: SessionSets, merged: set<Edge>, rejected: map<Edge, Rule>)
    requires |sessionOf| == |listings| && Locates(sessions, sessionOf) && SymmetricApproval(approved)
    requires InRange(pairs, |listings|) && Distinct(pairs)
    ensures fresh(sets) && fresh(sets.parent) && sets.Valid()
    ensures Labels(sets.parent[..], FinalSessionRoots(listings, sessions, approved, sessionOf, pairs))
    ensures Accounted(listings, sessions, approved, sessionOf, pairs, merged, rejected)
  {
    sets := new SessionSets(|sessions|);
    merged, rejected := {}, map[];
    ghost var tried: seq<Edge> := [];
    for k := 0 to |pairs|
      invariant tried == pairs[..k] && InRange(tried, |listings|)
      invariant fresh(sets.parent) && sets.Valid()
      invariant Labels(sets.parent[..], FinalSessionRoots(listings, sessions, approved, sessionOf, tried))
      invariant Accounted(listings, sessions, approved, sessionOf, tried, merged, rejected)
    {
      NextTried(pairs, k, |listings|);
      merged, rejected := TryNextApproved(
        listings, sessions, sessionOf, approved, sets, tried, pairs[k], merged, rejected);
      tried := tried + [pairs[k]];
    }
    assert pairs[..|pairs|] == pairs;
  }

  // ---- the whole pass ----

  /** A decision after the judge has spoken about it. */
  function AfterJudging(d: Decision, judge: Judge): Decision {
    if d.outcome == Unresolved && judge(d.left, d.right) == Different
    then d.(outcome := NeverMerge, rule := JevCalibratedDifferent) else d
  }

  /** The decision finally published, given whether its listings ended together. */
  function Final(d: Decision, judge: Judge, together: bool): Decision {
    if d.outcome == Unresolved && judge(d.left, d.right) == Approved
    then if together then d.(outcome := JevMerge, rule := JevApprovedClusterSafe)
      else d.(rule := JevApprovedClusterRejected)
    else AfterJudging(d, judge)
  }

  /** A decision d is published as e: only an ambiguous pair changes, by what the
      judge said of it and whether its listings ended together. */
  predicate PublishedAs(d: Decision, e: Decision, judgment: Judgment, together: bool) {
    && e.left == d.left && e.right == d.right
    && (d.outcome != Unresolved ==> e.outcome == d.outcome && e.rule == d.rule)
    && (d.outcome == Unresolved ==>
          match judgment
          case Different => e.outcome == NeverMerge && e.rule == JevCalibratedDifferent
          case Undecided => e.outcome == Unresolved && e.rule == d.rule
          case Approved =>
            if together then e.outcome == JevMerge && e.rule == JevApprovedClusterSafe
            else e.outcome == Unresolved && e.rule == JevApprovedClusterRejected)
  }

  predicate Together(sessionOf: seq<nat>, final: seq<nat>, x: nat, y: nat)
    requires x < |sessionOf| && y < |sessionOf| && sessionOf[x] < |final| && sessionOf[y] < |final|
  {
    final[sessionOf[x]] == final[sessionOf[y]]
  }

  /** All cross pairs inside a final session are approved, and no provider repeats. */
  lemma JudgedSessionsAreSafe(
      listings: seq<Listing>, verdicts: Verdicts, accepted: seq<Edge>, roots: seq<nat>, r: Resolution,
             sessionOf: seq<nat>,
      judge: Judge, approved: Approval, pairs: seq<Edge>, x: nat, y: nat)
    requires Resolves(listings, verdicts, accepted, roots, r)
    requires |sessionOf| == |listings| && Locates(r.components, sessionOf) && InRange(pairs, |listings|)
    requires forall u, v :: approved(u, v) == PairApproved(r.decisions, r.slot, judge, u, v)
    requires x < y < |listings|
    requires Together(sessionOf, FinalSessionRoots(listings, r.components, approved, sessionOf, pairs), x, y)
    ensures PairApproved(r.decisions, r.slot, judge, x, y) && listings[x].provider != listings[y].provider
  {
    var clash := SessionClash(listings, r.components, approved);
    var s, t := sessionOf[x], sessionOf[y];
    if s == t {
      SameComponentSameRoot(listings, verdicts, accepted, roots, r, s, x, y);
      DecisionsDescribeSessions(listings, verdicts, accepted, roots, r);
    } else {
      SessionClashIsSymmetric(listings, r.components, approved);
      RunKeepsCompatible(Singletons(|r.components|), clash, SessionEdges(sessionOf, pairs));
      assert !clash(s, t);
      assert !PairClash(listings, approved, x, y);
    }
  }

  lemma SameComponentSameRoot(
      listings: seq<Listing>, verdicts: Verdicts, accepted: seq<Edge>, roots: seq<nat>, r: Resolution, s: nat, x: nat,
      y: nat)
    requires Resolves(listings, verdicts, accepted, roots, r) && |roots| == |listings|
    requires s < |r.components| && x in r.components[s] && y in r.components[s]
    ensures x < |roots| && y < |roots| && roots[x] == roots[y]
  {
    var heads :| ComponentsOf(r.components, roots, heads);
    ClassOfExact(roots, heads[s], |roots|);
  }

  lemma SameRootSameComponent(
      listings: seq<Listing>, verdicts: Verdicts, accepted: seq<Edge>, roots: seq<nat>, r: Resolution, s: nat, t: nat,
      x: nat, y: nat)
    requires Resolves(listings, verdicts, accepted, roots, r) && |roots| == |listings|
    requires s < |r.components| && t < |r.components| && x in r.components[s] && y in r.components[t]
    requires x < |roots| && y < |roots| && roots[x] == roots[y]
    ensures s == t
  {
    var heads :| ComponentsOf(r.components, roots, heads);
    ClassOfExact(roots, heads[s], |roots|);
    ClassOfExact(roots, heads[t], |roots|);
  }

  ghost predicate NoJevMerge(verdicts: Verdicts) {
    forall x: nat, y: nat :: verdicts(x, y).Some? ==> verdicts(x, y).value.outcome != JevMerge
  }

  /** One published decision, from what is known of its pair alone. */
  lemma FinalMergesWhenTogether(decisions: seq<Decision>, slot: map<Edge, nat>, judge: Judge, p: Edge, together: bool)
    requires p in slot && slot[p] < |decisions| && p.0 < p.1
    requires decisions[slot[p]].left == p.0 && decisions[slot[p]].right == p.1 && decisions[slot[p]].outcome != JevMerge
    requires if together then PairApproved(decisions, slot, judge, p.0, p.1) else !Merging(decisions[slot[p]].outcome)
    ensures var outcome := Final(decisions[slot[p]], judge, together).outcome;
      Merging(outcome) || outcome == JevMerge <==> together
  {
    assert Pair(p.0, p.1) == p;
  }

  /** The published decisions describe the final sessions: a decided pair is a
      merge, by rule or by judgment, exactly when its listings end together. */
  lemma JudgedDecisionsDescribeSessions(
      listings: seq<Listing>, verdicts: Verdicts, accepted: seq<Edge>, roots: seq<nat>, r: Resolution,
             sessionOf: seq<nat>,
      judge: Judge, approved: Approval, pairs: seq<Edge>, p: Edge)
    requires Resolves(listings, verdicts, accepted, roots, r) && NoJevMerge(verdicts)
    requires |sessionOf| == |listings| && Locates(r.components, sessionOf) && InRange(pairs, |listings|)
    requires forall u, v :: approved(u, v) == PairApproved(r.decisions, r.slot, judge, u, v)
    requires p in r.slot
    ensures var together := Together(
      sessionOf, FinalSessionRoots(listings, r.components, approved, sessionOf, pairs), p.0, p.1);
      var outcome := Final(r.decisions[r.slot[p]], judge, together).outcome;
      Merging(outcome) || outcome == JevMerge <==> together
  {
    var final := FinalSessionRoots(listings, r.components, approved, sessionOf, pairs);
    NeverPublishesJevMerge(listings, verdicts, accepted, roots, r, p);
    if Together(sessionOf, final, p.0, p.1) {
      JudgedSessionsAreSafe(listings, verdicts, accepted, roots, r, sessionOf, judge, approved, pairs, p.0, p.1);
    } else {
      MergedShareComponent(listings, verdicts, accepted, roots, r, sessionOf, p);
    }
    FinalMergesWhenTogether(r.decisions, r.slot, judge, p, Together(sessionOf, final, p.0, p.1));
  }

  lemma NeverPublishesJevMerge(
      listings: seq<Listing>, verdicts: Verdicts, accepted: seq<Edge>, roots: seq<nat>, r: Resolution, p: Edge)
    requires Resolves(listings, verdicts, accepted, roots, r) && NoJevMerge(verdicts) && p in r.slot
    ensures r.decisions[r.slot[p]].outcome != JevMerge
    ensures p.0 < p.1 && r.decisions[r.slot[p]].left == p.0 && r.decisions[r.slot[p]].right == p.1
  {
    assert PairPublished(listings, verdicts, p in accepted, roots, p, r.decisions[r.slot[p]]);
  }

  lemma MergedShareComponent(
      listings: seq<Listing>, verdicts: Verdicts, accepted: seq<Edge>, roots: seq<nat>, r: Resolution,
             sessionOf: seq<nat>,
      p: Edge)
    requires Resolves(listings, verdicts, accepted, roots, r) && p in r.slot
    requires |sessionOf| == |listings| && Locates(r.components, sessionOf)
    ensures Merging(r.decisions[r.slot[p]].outcome) ==> sessionOf[p.0] == sessionOf[p.1]
  {
    if Merging(r.decisions[r.slot[p]].outcome) {
      DecisionsDescribeSessions(listings, verdicts, accepted, roots, r);
      SameRootSameComponent(listings, verdicts, accepted, roots, r, sessionOf[p.0], sessionOf[p.1], p.0, p.1);
    }
  }

  lemma RulesNeverSayJevMerge(input: Input)
    requires input.Valid()
    ensures NoJevMerge(VerdictsOf(input))
  {
  }

  lemma AmbiguousIsSameOccasion(input: Input, x: nat, y: nat)
    requires input.Valid() && x < y < |input.listings|
    requires VerdictsOf(input)(x, y).Some?
    requires Merging(VerdictsOf(input)(x, y).value.outcome) || VerdictsOf(input)(x, y).value.outcome == Unresolved
    ensures SameOccasion(input.listings[x], input.listings[y], input.venues[x], input.venues[y])
  {
  }

  /** Even with judgments, the listings of one session agree on instant, city
      and venue, so the first of them speaks for all. */
  lemma JudgedSessionsShareOneOccasion(
      input: Input, accepted: seq<Edge>, roots: seq<nat>, r: Resolution, sessionOf: seq<nat>, judge: Judge,
      approved: Approval, pairs: seq<Edge>, x: nat, y: nat)
    requires input.Valid() && Resolves(input.listings, VerdictsOf(input), accepted, roots, r)
    requires |sessionOf| == |input.listings| && Locates(r.components, sessionOf) && InRange(pairs, |input.listings|)
    requires forall u, v :: approved(u, v) == PairApproved(r.decisions, r.slot, judge, u, v)
    requires x < y < |input.listings|
    requires Together(sessionOf, FinalSessionRoots(input.listings, r.components, approved, sessionOf, pairs), x, y)
    ensures SameOccasion(input.listings[x], input.listings[y], input.venues[x], input.venues[y])
  {
    JudgedSessionsAreSafe(
      input.listings, VerdictsOf(input), accepted, roots, r, sessionOf, judge, approved, pairs, x, y);
    assert PairPublished(input.listings, VerdictsOf(input), (x, y) in accepted, roots, (x, y),
      r.decisions[r.slot[(x, y)]]);
    AmbiguousIsSameOccasion(input, x, y);
  }

  /** Every listing of the first s sessions is located in its session. */
  ghost predicate Placed(roots: seq<nat>, heads: seq<nat>, s: nat, at: map<nat, nat>)
    requires s <= |heads|
  {
    && (forall x: nat :: x in at <==> x < |roots| && roots[x] in heads[..s])
    && (forall x: nat :: x in at ==> at[x] < s && heads[at[x]] == roots[x])
  }

  method PlaceSession(
      members: seq<nat>, s: nat, ghost roots: seq<nat>, ghost heads: seq<nat>,
      at0: map<nat, nat>) returns (at: map<nat, nat>)
    requires s < |heads| && Placed(roots, heads, s, at0) && members == ClassOf(roots, heads[s], |roots|)
    ensures Placed(roots, heads, s + 1, at)
  {
    ClassOfExact(roots, heads[s], |roots|);
    at := at0;
    for k := 0 to |members|
      invariant forall x: nat :: x in at <==> x in at0 || x in members[..k]
      invariant forall x: nat :: x in at ==> at[x] == if x in members[..k] then s else at0[x]
    {
      at := at[members[k] := s];
    }
    assert members[..|members|] == members && heads[..s + 1] == heads[..s] + [heads[s]];
  }

  /** Locates every listing in its session. */
  method IndexSessions(
      components: seq<seq<nat>>, n: nat, ghost roots: seq<nat>, ghost heads: seq<nat>)
    returns (sessionOf: seq<nat>)
    requires |roots| == n && ComponentsOf(components, roots, heads)
    ensures |sessionOf| == n && Locates(components, sessionOf)
  {
    var at: map<nat, nat> := map[];
    for s := 0 to |components|
      invariant Placed(roots, heads, s, at)
    {
      at := PlaceSession(components[s], s, roots, heads, at);
    }
    assert heads[..|components|] == heads;
    sessionOf := seq(n, x requires 0 <= x < n => at[x]);
    PlacedLocates(components, roots, heads, sessionOf);
  }

  lemma PlacedLocates(components: seq<seq<nat>>, roots: seq<nat>, heads: seq<nat>, sessionOf: seq<nat>)
    requires ComponentsOf(components, roots, heads) && |sessionOf| == |roots|
    requires forall x :: 0 <= x < |roots| ==> sessionOf[x] < |heads| && heads[sessionOf[x]] == roots[x]
    ensures Locates(components, sessionOf)
  {
    forall s: nat, x: nat | s < |components| && x in components[s] ensures x < |roots| {
      ClassOfExact(roots, heads[s], |roots|);
    }
    forall s: nat, x: nat | s < |components| && x in components[s] ensures sessionOf[x] == s {
      ClassOfExact(roots, heads[s], |roots|);
    }
    forall x: nat | x < |roots| ensures x in components[sessionOf[x]] {
      ClassOfExact(roots, heads[sessionOf[x]], |roots|);
    }
  }

  /** A calibrated difference makes a veto of an ambiguous decision; nothing else
      about a decision changes before the approvals are published. */
  predicate Vetoed(d: Decision, e: Decision, judgment: Judgment) {
    if d.outcome == Unresolved && judgment == Different
    then e == Decision(d.left, d.right, NeverMerge, JevCalibratedDifferent) else e == d
  }

  /** The first loop: settles judged differences in place and collects approvals. */
  method JudgeAmbiguous(decisions: array<Decision>, venues: seq<string>, judge: Judge) returns (approvals: seq<Edge>)
    requires forall k :: 0 <= k < decisions.Length ==> decisions[k].left < |venues| && decisions[k].right < |venues|
    requires forall k :: 0 <= k < decisions.Length && decisions[k].outcome == Unresolved ==>
      venues[decisions[k].left] == venues[decisions[k].right]
    requires forall i, j :: 0 <= i < j < decisions.Length ==>
      (decisions[i].left, decisions[i].right) != (decisions[j].left, decisions[j].right)
    modifies decisions
    ensures forall k :: 0 <= k < decisions.Length ==> decisions[k] == AfterJudging(old(decisions[k]), judge)
    ensures forall k :: 0 <= k < decisions.Length ==>
      Vetoed(old(decisions[k]), decisions[k], judge(old(decisions[k]).left, old(decisions[k]).right))
    ensures forall p :: p in approvals <==>
      exists k :: 0 <= k < decisions.Length && p == (old(decisions[k]).left, old(decisions[k]).right)
        && old(decisions[k]).outcome == Unresolved && judge(p.0, p.1) == Approved
    ensures Distinct(approvals)
  {
    approvals := [];
    for k := 0 to decisions.Length
      invariant forall i :: 0 <= i < decisions.Length ==>
        decisions[i] == if i < k then AfterJudging(old(decisions[i]), judge) else old(decisions[i])
      invariant forall p :: p in approvals <==>
        exists i :: 0 <= i < k && p == (old(decisions[i]).left, old(decisions[i]).right)
          && old(decisions[i]).outcome == Unresolved && judge(p.0, p.1) == Approved
      invariant Distinct(approvals)
    {
      var d := decisions[k];
      if d.outcome == Unresolved && venues[d.left] == venues[d.right] {
        match judge(d.left, d.right) {
          case Approved =>
            assert (d.left, d.right) !in approvals;
            approvals := approvals + [(d.left, d.right)];
          case Different =>
            decisions[k] := d.(outcome := NeverMerge, rule := JevCalibratedDifferent);
          case Undecided =>
        }
      }
    }
  }

  /** An approved decision becomes a merge or is marked rejected. */
  function Settled(d: Decision, approved: bool, merged: bool): Decision {
    if !approved then d
    else if merged then d.(outcome := JevMerge, rule := JevApprovedClusterSafe)
    else d.(rule := JevApprovedClusterRejected)
  }

  /** The last loop: every approved pair is published as merged or as rejected. */
  method PublishApprovals(decisions: array<Decision>, slot: map<Edge, nat>, approvals: seq<Edge>, merged: set<Edge>)
    requires forall p :: p in slot ==>
      slot[p] < decisions.Length && decisions[slot[p]].left == p.0 && decisions[slot[p]].right == p.1
    requires forall k :: 0 <= k < |approvals| ==> approvals[k] in slot
    requires Distinct(approvals)
    modifies decisions
    ensures forall p :: p in slot ==>
      decisions[slot[p]] == Settled(old(decisions[slot[p]]), p in approvals, p in merged)
  {
    for k := 0 to |approvals|
      invariant forall p :: p in slot ==>
        decisions[slot[p]] == Settled(old(decisions[slot[p]]), p in approvals[..k], p in merged)
    {
      var p := approvals[k];
      assert p !in approvals[..k];
      decisions[slot[p]] := Settled(decisions[slot[p]], true, p in merged);
    }
    assert approvals[..|approvals|] == approvals;
  }

  /** The pairs the judge approved, by position in the decision list. */
  ghost predicate ListsApprovals(decisions: seq<Decision>, slot: map<Edge, nat>, judge: Judge, approvals: seq<Edge>) {
    Distinct(approvals) && forall p :: p in approvals <==> JudgeApproves(decisions, slot, judge, p)
  }

  /** A decision as finally published; its pair, when approved by the judge, is
      rejected exactly when its listings end apart, and then for a reason that
      holds between the two final sessions. */
  ghost predicate DecisionAccounts(
      listings: seq<Listing>, r: Resolution, judge: Judge, approved: Approval, sessionOf: seq<nat>, final: seq<nat>,
      p: Edge, d: Decision, rejected: map<Edge, Rule>)
    requires Records(|sessionOf|, r.decisions, r.slot) && |sessionOf| == |listings| && p in r.slot
    requires forall x :: 0 <= x < |sessionOf| ==> sessionOf[x] < |final|
  {
    && d == Final(r.decisions[r.slot[p]], judge, Together(sessionOf, final, p.0, p.1))
    && (JudgeApproves(r.decisions, r.slot, judge, p) ==> (p in rejected <==> !Together(sessionOf, final, p.0, p.1)))
    && (JudgeApproves(r.decisions, r.slot, judge, p) && p in rejected ==>
          Justifies(listings, approved, sessionOf, final, sessionOf[p.0], sessionOf[p.1], rejected[p]))
  }

  /** Every recorded decision is the final one, with its reason. */
  ghost predicate Accounts(
      listings: seq<Listing>, r: Resolution, judge: Judge, approved: Approval, sessionOf: seq<nat>, final: seq<nat>,
      decisions: seq<Decision>, rejected: map<Edge, Rule>)
    requires Records(|sessionOf|, r.decisions, r.slot) && |decisions| == |r.decisions| && |sessionOf| == |listings|
    requires forall x :: 0 <= x < |sessionOf| ==> sessionOf[x] < |final|
  {
    forall p: Edge :: p in r.slot ==>
      DecisionAccounts(listings, r, judge, approved, sessionOf, final, p, decisions[r.slot[p]], rejected)
  }

  // ---- the order of the approved pairs ----

  /** The host's order of strings, by which the keys of pairs are sorted. */
  type TextOrder = (string, string) -> bool

  const SEPARATOR := "\U{1f}"

  /** The key of a pair: both identifiers, the lesser one first. */
  function PairKey(before: TextOrder, left: string, right: string): string {
    if before(left, right) then left + SEPARATOR + right else right + SEPARATOR + left
  }

  /** Under an order of strings the key names the lesser identifier first,
      whichever way round the pair is given. */
  lemma PairKeyNamesLesserFirst(before: TextOrder, left: string, right: string)
    requires Total(before) && (before(left, right) && before(right, left) ==> left == right)
    ensures PairKey(before, left, right) == PairKey(before, right, left)
    ensures before(left, right) ==> PairKey(before, left, right) == left + "\U{1f}" + right
  {
    assert before(left, right) || before(right, left);
  }

  function EdgeKey(listings: seq<Listing>, before: TextOrder, p: Edge): string {
    if p.0 < |listings| && p.1 < |listings|
    then PairKey(before, listings[p.0].listingId, listings[p.1].listingId) else ""
  }

  function KeyOrder(listings: seq<Listing>, before: TextOrder): (Edge, Edge) -> bool {
    (a: Edge, b: Edge) => before(EdgeKey(listings, before, a), EdgeKey(listings, before, b))
  }

  lemma KeyOrderIsTotal(listings: seq<Listing>, before: TextOrder)
    requires Total(before)
    ensures Total<Edge>(KeyOrder(listings, before))
  {
    forall a: Edge, b: Edge ensures KeyOrder(listings, before)(a, b) || KeyOrder(listings, before)(b, a) {
      var x, y := EdgeKey(listings, before, a), EdgeKey(listings, before, b);
      assert before(x, y) || before(y, x);
    }
  }

  /** Approved pairs are tried in the order of their keys. */
  method SortApproved(
      listings: seq<Listing>, before: TextOrder, decisions: seq<Decision>, slot: map<Edge, nat>, judge: Judge,
      found: seq<Edge>) returns (tries: seq<Edge>)
    requires Total(before)
    requires ListsApprovals(decisions, slot, judge, found) && InRange(found, |listings|)
    ensures ListsApprovals(decisions, slot, judge, tries) && InRange(tries, |listings|)
    ensures Ordered(KeyOrder(listings, before), tries)
    ensures forall p :: p in tries <==> p in found
  {
    var order := KeyOrder(listings, before);
    tries := Sort<Edge>(order, found);
    SortKeeps<Edge>(order, found);
    KeyOrderIsTotal(listings, before);
    SortOrders<Edge>(order, found);
    SortKeepsPositions<Edge>(order, found, tries);
    SameApprovals(decisions, slot, judge, found, tries, |listings|);
  }

  lemma SameApprovals(
      decisions: seq<Decision>, slot: map<Edge, nat>, judge: Judge, found: seq<Edge>, tries: seq<Edge>, n: nat)
    requires ListsApprovals(decisions, slot, judge, found) && InRange(found, n) && Distinct(tries)
    requires forall k :: 0 <= k < |tries| ==> tries[k] in found
    requires forall k :: 0 <= k < |found| ==> found[k] in tries
    ensures ListsApprovals(decisions, slot, judge, tries) && InRange(tries, n)
    ensures forall p :: p in tries <==> p in found
  {
    forall k | 0 <= k < |tries| ensures tries[k].0 < n && tries[k].1 < n {
      var h :| 0 <= h < |found| && found[h] == tries[k];
    }
  }

  lemma DecisionsAreDistinct(r: Resolution, n: nat)
    requires Records(n, r.decisions, r.slot) && Indexed(r.decisions, r.slot)
    ensures forall k :: 0 <= k < |r.decisions| ==> r.decisions[k].left < r.decisions[k].right < n
    ensures forall i, j :: 0 <= i < j < |r.decisions| ==>
      (r.decisions[i].left, r.decisions[i].right) != (r.decisions[j].left, r.decisions[j].right)
  {
  }

  lemma ApprovalsAreListed(r: Resolution, n: nat, judge: Judge, found: seq<Edge>)
    requires Records(n, r.decisions, r.slot) && Indexed(r.decisions, r.slot) && Distinct(found)
    requires forall p :: p in found <==>
      exists k :: 0 <= k < |r.decisions| && p == (r.decisions[k].left, r.decisions[k].right)
        && r.decisions[k].outcome == Unresolved && judge(p.0, p.1) == Approved
    ensures ListsApprovals(r.decisions, r.slot, judge, found) && InRange(found, n)
  {
    forall p | JudgeApproves(r.decisions, r.slot, judge, p) ensures p in found {
      var k := r.slot[p];
      assert p == (r.decisions[k].left, r.decisions[k].right);
    }
    forall k | 0 <= k < |found| ensures found[k].0 < n && found[k].1 < n {
      assert found[k] in found;
    }
  }

  /** Settling judged differences first does not change what counts as approved. */
  lemma ApprovalIsPairApproved(
      r: Resolution, n: nat, judge: Judge, judged: seq<Decision>, found: seq<Edge>, x: nat, y: nat)
    requires Records(n, r.decisions, r.slot) && |judged| == |r.decisions|
    requires forall k :: 0 <= k < |judged| ==> judged[k] == AfterJudging(r.decisions[k], judge)
    requires ListsApprovals(r.decisions, r.slot, judge, found)
    ensures (StillMerging(judged, r.slot, x, y) || Pair(x, y) in found)
         == PairApproved(r.decisions, r.slot, judge, x, y)
  {
  }

  lemma AccountsFor(
      listings: seq<Listing>, r: Resolution, judge: Judge, sessionOf: seq<nat>, approved: Approval, found: seq<Edge>,
      tries: seq<Edge>, judged: seq<Decision>, decisions: seq<Decision>, merged: set<Edge>, rejected: map<Edge, Rule>)
    requires |sessionOf| == |listings| && Locates(r.components, sessionOf) && InRange(tries, |listings|)
    requires Records(|listings|, r.decisions, r.slot) && |judged| == |decisions| == |r.decisions|
    requires ListsApprovals(r.decisions, r.slot, judge, found) && ListsApprovals(r.decisions, r.slot, judge, tries)
    requires forall k :: 0 <= k < |judged| ==> judged[k] == AfterJudging(r.decisions[k], judge)
    requires forall p :: p in r.slot ==> decisions[r.slot[p]] == Settled(judged[r.slot[p]], p in found, p in merged)
    requires Accounted(listings, r.components, approved, sessionOf, tries, merged, rejected)
    ensures var final := FinalSessionRoots(listings, r.components, approved, sessionOf, tries);
      Accounts(listings, r, judge, approved, sessionOf, final, decisions, rejected)
  {
    var final := FinalSessionRoots(listings, r.components, approved, sessionOf, tries);
    forall p | p in r.slot
      ensures DecisionAccounts(listings, r, judge, approved, sessionOf, final, p, decisions[r.slot[p]], rejected)
    {
      if p in tries {
        var k :| 0 <= k < |tries| && tries[k] == p;
        assert JudgeApproves(r.decisions, r.slot, judge, p);
        assert PairAccounted(listings, approved, sessionOf, final, tries[k], merged, rejected);
      }
    }
  }

  method JudgeList(
      n: nat, venues: seq<string>, r: Resolution, judge: Judge, list: array<Decision>)
    returns (found: seq<Edge>)
    requires |venues| == n && list[..] == r.decisions
    requires Records(n, r.decisions, r.slot) && Indexed(r.decisions, r.slot)
    requires forall k :: 0 <= k < |r.decisions| && r.decisions[k].outcome == Unresolved ==>
      r.decisions[k].left < |venues| && r.decisions[k].right < |venues|
        && venues[r.decisions[k].left] == venues[r.decisions[k].right]
    modifies list
    ensures forall k :: 0 <= k < list.Length ==> list[..][k] == AfterJudging(r.decisions[k], judge)
    ensures ListsApprovals(r.decisions, r.slot, judge, found) && InRange(found, n)
  {
    DecisionsAreDistinct(r, n);
    assert forall k :: 0 <= k < list.Length ==> list[k] == r.decisions[k];
    found := JudgeAmbiguous(list, venues, judge);
    ApprovalsAreListed(r, n, judge, found);
  }

  method JoinJudged(
      listings: seq<Listing>, r: Resolution, judge: Judge, sessionOf: seq<nat>, list: array<Decision>, found: seq<Edge>,
      tries: seq<Edge>)
    returns (decisions: seq<Decision>, groups: seq<seq<nat>>, rejected: map<Edge, Rule>, ghost approved: Approval,
      ghost heads: seq<nat>)
    requires |sessionOf| == |listings| && Locates(r.components, sessionOf)
    requires Records(|listings|, r.decisions, r.slot) && list.Length == |r.decisions|
    requires forall k :: 0 <= k < list.Length ==> list[..][k] == AfterJudging(r.decisions[k], judge)
    requires ListsApprovals(r.decisions, r.slot, judge, found)
    requires ListsApprovals(r.decisions, r.slot, judge, tries) && InRange(tries, |listings|)
    modifies list
    ensures forall u, v :: approved(u, v) == PairApproved(r.decisions, r.slot, judge, u, v)
    ensures |decisions| == |r.decisions|
    ensures var final := FinalSessionRoots(listings, r.components, approved, sessionOf, tries);
      && Accounts(listings, r, judge, approved, sessionOf, final, decisions, rejected)
      && ComponentsOf(groups, final, heads)
  {
    var judged := list[..];
    var approves: Approval := (x: nat, y: nat) => StillMerging(judged, r.slot, x, y) || Pair(x, y) in found;
    forall x: nat, y: nat ensures approves(x, y) == PairApproved(r.decisions, r.slot, judge, x, y) {
      ApprovalIsPairApproved(r, |listings|, judge, judged, found, x, y);
    }
    var sets, merged, refusals := JoinApproved(listings, r.components, sessionOf, approves, tries);
    approved, rejected := approves, refusals;
    groups, heads := CollectComponents(sets.parent,
      FinalSessionRoots(listings, r.components, approved, sessionOf, tries));
    forall k | 0 <= k < |found| ensures found[k] in r.slot {
      assert found[k] in found;
    }
    decisions := Publish(list, judged, r.slot, found, merged);
    AccountsFor(listings, r, judge, sessionOf, approved, found, tries, judged, decisions, merged, rejected);
  }

  method Publish(
      list: array<Decision>, judged: seq<Decision>, slot: map<Edge, nat>, found: seq<Edge>,
      merged: set<Edge>) returns (decisions: seq<Decision>)
    requires list[..] == judged && Distinct(found)
    requires forall p :: p in slot ==> slot[p] < |judged| && judged[slot[p]].left == p.0 && judged[slot[p]].right == p.1
    requires forall k :: 0 <= k < |found| ==> found[k] in slot
    modifies list
    ensures |decisions| == |judged|
    ensures forall p :: p in slot ==> decisions[slot[p]] == Settled(judged[slot[p]], p in found, p in merged)
  {
    assert forall k :: 0 <= k < list.Length ==> list[k] == judged[k];
    PublishApprovals(list, slot, found, merged);
    decisions := list[..];
  }

  /** The judgment pass over deterministic sessions. */
  method JudgeAndJoin(
      listings: seq<Listing>, venues: seq<string>, r: Resolution, judge: Judge, before: TextOrder, sessionOf: seq<nat>)
    returns (decisions: seq<Decision>, groups: seq<seq<nat>>, rejected: map<Edge, Rule>, ghost approved: Approval,
             ghost approvals: seq<Edge>, ghost heads: seq<nat>)
    requires Total(before)
    requires |venues| == |listings| && |sessionOf| == |listings| && Locates(r.components, sessionOf)
    requires Records(|listings|, r.decisions, r.slot) && Indexed(r.decisions, r.slot)
    requires forall k :: 0 <= k < |r.decisions| && r.decisions[k].outcome == Unresolved ==>
      && r.decisions[k].left < |venues| && r.decisions[k].right < |venues|
      && venues[r.decisions[k].left] == venues[r.decisions[k].right]
    ensures forall u, v :: approved(u, v) == PairApproved(r.decisions, r.slot, judge, u, v)
    ensures ListsApprovals(r.decisions, r.slot, judge, approvals) && InRange(approvals, |listings|)
    ensures Ordered(KeyOrder(listings, before), approvals)
    ensures |decisions| == |r.decisions|
    ensures var final := FinalSessionRoots(listings, r.components, approved, sessionOf, approvals);
      && Accounts(listings, r, judge, approved, sessionOf, final, decisions, rejected)
      && ComponentsOf(groups, final, heads)
  {
    var list := new Decision[|r.decisions|](k requires 0 <= k < |r.decisions| => r.decisions[k]);
    assert list[..] == r.decisions;
    var found := JudgeList(|listings|, venues, r, judge, list);
    var tries := SortApproved(listings, before, r.decisions, r.slot, judge, found);
    approvals := tries;
    decisions, groups, rejected, approved, heads := JoinJudged(listings, r, judge, sessionOf, list, found, tries);
  }

  /** Deterministic resolution followed by the judgment pass. */
  method ResolveIdentityWithJev(input: Input, judge: Judge, before: TextOrder)
    returns (r: Resolution, decisions: seq<Decision>, groups: seq<seq<nat>>, rejected: map<Edge, Rule>,
             sessionOf: seq<nat>,
             ghost accepted: seq<Edge>, ghost roots: seq<nat>, ghost approved: Approval, ghost approvals: seq<Edge>,
             ghost heads: seq<nat>)
    requires input.Valid() && Total(before)
    ensures Resolves(input.listings, VerdictsOf(input), accepted, roots, r)
    ensures |sessionOf| == |input.listings| && Locates(r.components, sessionOf) && InRange(approvals, |input.listings|)
    ensures forall u, v :: approved(u, v) == PairApproved(r.decisions, r.slot, judge, u, v)
    ensures ListsApprovals(r.decisions, r.slot, judge, approvals)
    ensures Ordered(KeyOrder(input.listings, before), approvals)
    ensures |decisions| == |r.decisions|
    ensures var final := FinalSessionRoots(input.listings, r.components, approved, sessionOf, approvals);
      && Accounts(input.listings, r, judge, approved, sessionOf, final, decisions, rejected)
      && ComponentsOf(groups, final, heads)
    ensures PublishesJudged(r.decisions, decisions, judge, sessionOf,
      FinalSessionRoots(input.listings, r.components, approved, sessionOf, approvals))
  {
    r, accepted, roots := ResolveSessions(input);
    ghost var labels :| ComponentsOf(r.components, roots, labels);
    sessionOf := IndexSessions(r.components, |input.listings|, roots, labels);
    AmbiguousShareVenue(input, accepted, roots, r);
    decisions, groups, rejected, approved, approvals, heads :=
      JudgeAndJoin(input.listings, input.venues, r, judge, before, sessionOf);
    JudgedAsSaid(input.listings, r, judge, approved, sessionOf,
                 FinalSessionRoots(input.listings, r.components, approved, sessionOf, approvals), decisions, rejected);
  }

  /** Every deterministic decision is published as the judge's word asks. */
  ghost predicate PublishesJudged(
      before: seq<Decision>, after: seq<Decision>, judge: Judge, sessionOf: seq<nat>, final: seq<nat>)
  {
    && |after| == |before|
    && forall k :: 0 <= k < |before| ==>
      && before[k].left < |sessionOf| && before[k].right < |sessionOf|
      && sessionOf[before[k].left] < |final| && sessionOf[before[k].right] < |final|
      && PublishedAs(before[k], after[k], judge(before[k].left, before[k].right),
                     Together(sessionOf, final, before[k].left, before[k].right))
  }

  lemma JudgedAsSaid(
      listings: seq<Listing>, r: Resolution, judge: Judge, approved: Approval, sessionOf: seq<nat>, final: seq<nat>,
      decisions: seq<Decision>, rejected: map<Edge, Rule>)
    requires Records(|sessionOf|, r.decisions, r.slot) && Indexed(r.decisions, r.slot)
    requires |decisions| == |r.decisions| && |sessionOf| == |listings|
    requires forall x :: 0 <= x < |sessionOf| ==> sessionOf[x] < |final|
    requires Accounts(listings, r, judge, approved, sessionOf, final, decisions, rejected)
    ensures PublishesJudged(r.decisions, decisions, judge, sessionOf, final)
  {
    forall k | 0 <= k < |r.decisions|
      ensures r.decisions[k].left < |sessionOf| && r.decisions[k].right < |sessionOf|
      ensures PublishedAs(r.decisions[k], decisions[k], judge(r.decisions[k].left, r.decisions[k].right),
                          Together(sessionOf, final, r.decisions[k].left, r.decisions[k].right))
    {
      var p := (r.decisions[k].left, r.decisions[k].right);
      assert p in r.slot && r.slot[p] == k;
      assert DecisionAccounts(listings, r, judge, approved, sessionOf, final, p, decisions[r.slot[p]], rejected);
    }
  }

  lemma AmbiguousShareVenue(input: Input, accepted: seq<Edge>, roots: seq<nat>, r: Resolution)
    requires input.Valid() && Resolves(input.listings, VerdictsOf(input), accepted, roots, r)
    ensures forall k :: 0 <= k < |r.decisions| && r.decisions[k].outcome == Unresolved ==>
      r.decisions[k].left < |input.venues| && r.decisions[k].right < |input.venues|
        && input.venues[r.decisions[k].left] == input.venues[r.decisions[k].right]
  {
    forall k | 0 <= k < |r.decisions| && r.decisions[k].outcome == Unresolved
      ensures r.decisions[k].left < r.decisions[k].right < |input.venues|
      ensures input.venues[r.decisions[k].left] == input.venues[r.decisions[k].right]
    {
      var p := (r.decisions[k].left, r.decisions[k].right);
      assert PairPublished(input.listings, VerdictsOf(input), p in accepted, roots, p, r.decisions[k]);
      AmbiguousIsSameOccasion(input, p.0, p.1);
    }
  }
}
