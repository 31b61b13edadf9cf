/** What identity resolution delivers, with and without calibrated judgments:
    sessions that partition the listings and a decision list that describes them. */
module Identity {
  import opened Listings
  import opened UnionFind
  import opened GuardedClustering
  import opened Sessions
  import opened PairRules
  import opened Judgments
  import opened Sorting

  /** Both listings are in one group. */
  ghost predicate Shared(groups: seq<seq<nat>>, x: nat, y: nat) {
    exists g: nat :: g < |groups| && x in groups[g] && y in groups[g]
  }

  /** Every one of n listings is in exactly one group. */
  ghost predicate Partitions(groups: seq<seq<nat>>, n: nat) {
    && (forall x: nat :: x < n ==> Shared(groups, x, x))
    && (forall g: nat, x: nat :: g < |groups| && x in groups[g] ==> x < n)
    && (forall g: nat, h: nat, x: nat :: g < h < |groups| && x in groups[g] ==> x !in groups[h])
  }

  predicate Joins(outcome: Outcome) { Merging(outcome) || outcome == JevMerge }

  /** A decision joins its pair if and only if one session holds both, and the
      pairs of a session that are decided are all its pairs. */
  ghost predicate Describes(n: nat, sessions: seq<seq<nat>>, decisions: seq<Decision>) {
    && (forall k :: 0 <= k < |decisions| ==> Describing(n, sessions, decisions[k]))
    && (forall x: nat, y: nat :: x < y < n && Shared(sessions, x, y) ==> HasDecision(decisions, x, y))
  }

  ghost predicate Describing(n: nat, sessions: seq<seq<nat>>, d: Decision) {
    d.left < d.right < n && (Joins(d.outcome) <==> Shared(sessions, d.left, d.right))
  }

  ghost predicate HasDecision(decisions: seq<Decision>, x: nat, y: nat) {
    exists k :: 0 <= k < |decisions| && decisions[k].left == x && decisions[k].right == y
  }

  /** Listings of one session share instant, city and venue, come from different
      providers, and contradict each other in neither timing nor policy. */
  ghost predicate OneOccasionEach(input: Input, sessions: seq<seq<nat>>)
    requires |input.venues| == |input.listings|
  {
    forall x: nat, y: nat :: x < y < |input.listings| && Shared(sessions, x, y) ==>
      SameOccasion(input.listings[x], input.listings[y], input.venues[x], input.venues[y])
  }

  /** The same on the fields alone: nothing read off two listings of one session
      speaks against it. */
  ghost predicate AllAlike(input: Input, sessions: seq<seq<nat>>)
    requires |input.venues| == |input.listings|
  {
    forall x: nat, y: nat :: x < y < |input.listings| && Shared(sessions, x, y) ==>
      Alike(input.listings[x], input.listings[y], input.venues[x], input.venues[y])
  }

  lemma OccasionsAreAlike(input: Input, sessions: seq<seq<nat>>)
    requires |input.venues| == |input.listings| && OneOccasionEach(input, sessions)
    ensures AllAlike(input, sessions)
  {
    forall x: nat, y: nat | x < y < |input.listings| && Shared(sessions, x, y)
      ensures Alike(input.listings[x], input.listings[y], input.venues[x], input.venues[y])
    {
      ConflictsByFields(input.listings[x], input.listings[y]);
      assert SameOccasion(input.listings[x], input.listings[y], input.venues[x], input.venues[y]);
    }
  }

  /** Each group holds the listings that carry its label. */
  ghost predicate Labelled(groups: seq<seq<nat>>, labels: seq<nat>, heads: seq<nat>) {
    && |groups| == |heads|
    && (forall g: nat, h: nat :: g < h < |heads| ==> heads[g] != heads[h])
    && (forall x: nat :: x < |labels| ==> labels[x] in heads)
    && (forall g: nat :: g < |groups| ==> HoldsLabel(groups[g], labels, heads[g]))
  }

  ghost predicate HoldsLabel(group: seq<nat>, labels: seq<nat>, head: nat) {
    forall x: nat :: x in group <==> x < |labels| && labels[x] == head
  }

  lemma LabelledPartition(groups: seq<seq<nat>>, labels: seq<nat>, heads: seq<nat>)
    requires Labelled(groups, labels, heads)
    ensures Partitions(groups, |labels|)
    ensures forall x: nat, y: nat :: x < |labels| && y < |labels| ==> (Shared(groups, x, y) <==> labels[x] == labels[y])
  {
    forall x: nat, y: nat | x < |labels| && y < |labels| ensures Shared(groups, x, y) <==> labels[x] == labels[y] {
      var h: nat :| h < |heads| && heads[h] == labels[x];
      assert HoldsLabel(groups[h], labels, heads[h]) && x in groups[h];
    }
    forall g: nat, x: nat | g < |groups| && x in groups[g] ensures x < |labels| && labels[x] == heads[g] {
      assert HoldsLabel(groups[g], labels, heads[g]);
    }
  }

  lemma ComponentsAreLabelled(components: seq<seq<nat>>, roots: seq<nat>, heads: seq<nat>)
    requires ComponentsOf(components, roots, heads)
    ensures Labelled(components, roots, heads)
  {
    forall h: nat | h < |components| ensures HoldsLabel(components[h], roots, heads[h]) {
      ClassOfExact(roots, heads[h], |roots|);
    }
  }

  /** The decisions are those of the compared pairs, each given once. */
  ghost predicate DecidesCompared(input: Input, decisions: seq<Decision>)
    requires |input.venues| == |input.listings|
  {
    && (forall x: nat, y: nat :: HasDecision(decisions, x, y) <==> Compared(input, x, y))
    && (forall i, j :: 0 <= i < j < |decisions| ==>
          (decisions[i].left, decisions[i].right) != (decisions[j].left, decisions[j].right))
  }

  /** Why the sessions of x and y may not be joined: one provider is in both, or
      they hold two listings that are not to share a session. */
  ghost predicate SessionsClash(input: Input, sessions: seq<seq<nat>>, x: nat, y: nat, rule: Rule)
    requires |input.venues| == |input.listings|
  {
    exists u: nat, v: nat :: u < |input.listings| && v < |input.listings|
      && Shared(sessions, x, u) && Shared(sessions, y, v) && PairClashes(input, u, v, rule)
  }

  ghost predicate PairClashes(input: Input, u: nat, v: nat, rule: Rule)
    requires |input.venues| == |input.listings| && u < |input.listings| && v < |input.listings|
  {
    || (rule == GraphSameProviderCollision && input.listings[u].provider == input.listings[v].provider)
    || (rule == GraphPairwiseIncompatibility && !MayMerge(input, u, v) && !MayMerge(input, v, u))
  }

  /** A published decision: that of the rules, unless the pair is to share a
      session and ended apart; then a veto that names a clash of its sessions. */
  ghost predicate RuledOrVetoed(input: Input, sessions: seq<seq<nat>>, d: Decision)
    requires |input.venues| == |input.listings|
  {
    if MayMerge(input, d.left, d.right) && !Shared(sessions, d.left, d.right)
    then d.outcome == NeverMerge && SessionsClash(input, sessions, d.left, d.right, d.rule)
    else Ruled(input, d.left, d.right, Verdict(d.outcome, d.rule))
  }

  /** Listings that are to share a session do, unless their sessions clash. */
  ghost predicate MergesUnlessClash(input: Input, sessions: seq<seq<nat>>)
    requires |input.venues| == |input.listings|
  {
    forall x: nat, y: nat :: MayMerge(input, x, y) && !Shared(sessions, x, y) ==>
      || SessionsClash(input, sessions, x, y, GraphSameProviderCollision)
      || SessionsClash(input, sessions, x, y, GraphPairwiseIncompatibility)
  }

  /** Deterministic resolution. */
  method ResolveIdentity(input: Input) returns (sessions: seq<seq<nat>>, decisions: seq<Decision>)
    requires input.Valid()
    ensures Partitions(sessions, |input.listings|)
    ensures Describes(|input.listings|, sessions, decisions)
    ensures OneOccasionEach(input, sessions) && AllAlike(input, sessions)
    ensures DecidesCompared(input, decisions)
    ensures forall k :: 0 <= k < |decisions| ==> RuledOrVetoed(input, sessions, decisions[k])
    ensures MergesUnlessClash(input, sessions)
  {
    var r, accepted, roots := ResolveSessions(input);
    sessions, decisions := r.components, r.decisions;
    ResolutionDescribes(input, accepted, roots, r);
    ResolutionDecides(input, accepted, roots, r);
    OccasionsAreAlike(input, sessions);
  }

  /** The sessions share exactly the listings of one component. */
  lemma ComponentsShareRoots(input: Input, accepted: seq<Edge>, roots: seq<nat>, r: Resolution)
    requires input.Valid() && Resolves(input.listings, VerdictsOf(input), accepted, roots, r)
    ensures |roots| == |input.listings|
    ensures forall x: nat, y: nat :: x < |roots| && y < |roots| ==>
      (Shared(r.components, x, y) <==> roots[x] == roots[y])
  {
    var heads :| ComponentsOf(r.components, roots, heads);
    ComponentsAreLabelled(r.components, roots, heads);
    LabelledPartition(r.components, roots, heads);
  }

  lemma ResolutionDecides(input: Input, accepted: seq<Edge>, roots: seq<nat>, r: Resolution)
    requires input.Valid() && Resolves(input.listings, VerdictsOf(input), accepted, roots, r)
    ensures DecidesCompared(input, r.decisions)
    ensures forall k :: 0 <= k < |r.decisions| ==> RuledOrVetoed(input, r.components, r.decisions[k])
    ensures MergesUnlessClash(input, r.components)
  {
    forall x: nat, y: nat ensures HasDecision(r.decisions, x, y) <==> Compared(input, x, y) {
      DecidedPairs(input, accepted, roots, r, x, y);
    }
    forall k | 0 <= k < |r.decisions| ensures RuledOrVetoed(input, r.components, r.decisions[k]) {
      DecisionIsRuled(input, accepted, roots, r, k);
    }
    forall x: nat, y: nat | MayMerge(input, x, y) && !Shared(r.components, x, y)
      ensures SessionsClash(input, r.components, x, y, GraphSameProviderCollision)
           || SessionsClash(input, r.components, x, y, GraphPairwiseIncompatibility)
    {
      assert Compared(input, x, y) && HasDecision(r.decisions, x, y);
      var k :| 0 <= k < |r.decisions| && r.decisions[k].left == x && r.decisions[k].right == y;
      assert RuledOrVetoed(input, r.components, r.decisions[k]);
    }
  }

  lemma DecidedPairs(input: Input, accepted: seq<Edge>, roots: seq<nat>, r: Resolution, x: nat, y: nat)
    requires input.Valid() && Resolves(input.listings, VerdictsOf(input), accepted, roots, r)
    ensures HasDecision(r.decisions, x, y) <==> Compared(input, x, y)
  {
    if x < y < |input.listings| {
      DecidedByFields(input, x, y);
    }
    assert (x, y) in r.slot <==> x < y < |input.listings| && VerdictsOf(input)(x, y).Some?;
    if (x, y) in r.slot {
      RecordedPair(|input.listings|, r.decisions, r.slot, x, y);
    }
    if HasDecision(r.decisions, x, y) {
      var k :| 0 <= k < |r.decisions| && r.decisions[k].left == x && r.decisions[k].right == y;
      SlotOf(r, |input.listings|, k);
    }
  }

  lemma DecisionIsRuled(input: Input, accepted: seq<Edge>, roots: seq<nat>, r: Resolution, k: nat)
    requires input.Valid() && Resolves(input.listings, VerdictsOf(input), accepted, roots, r) && k < |r.decisions|
    ensures RuledOrVetoed(input, r.components, r.decisions[k])
  {
    var p := (r.decisions[k].left, r.decisions[k].right);
    SlotOf(r, |input.listings|, k);
    assert PairPublished(input.listings, VerdictsOf(input), p in accepted, roots, p, r.decisions[k]);
    DecidedByFields(input, p.0, p.1);
    AcceptedByFields(input, p.0, p.1);
    ComponentsShareRoots(input, accepted, roots, r);
    if p in accepted {
      var h :| 0 <= h < |accepted| && accepted[h] == p;
    }
    if MayMerge(input, p.0, p.1) && roots[p.0] != roots[p.1] {
      JustifiedClash(input, accepted, roots, r, p, r.decisions[k].rule);
    }
  }

  lemma JustifiedClash(
      input: Input, accepted: seq<Edge>, roots: seq<nat>, r: Resolution, p: Edge, rule: Rule)
    requires input.Valid() && Resolves(input.listings, VerdictsOf(input), accepted, roots, r)
    requires |roots| == |input.listings| && p.0 < |roots| && p.1 < |roots|
    requires Justified(input.listings, VerdictsOf(input), roots, p, rule)
    ensures SessionsClash(input, r.components, p.0, p.1, rule)
  {
    ComponentsShareRoots(input, accepted, roots, r);
    var u: nat, v: nat :| u < |roots| && v < |roots| && roots[u] == roots[p.0] && roots[v] == roots[p.1]
      && Vetoes(input.listings, VerdictsOf(input), u, v, rule);
    VetoedPairClashes(input, u, v, rule);
    assert Shared(r.components, p.0, u) && Shared(r.components, p.1, v);
  }

  lemma VetoedPairClashes(input: Input, u: nat, v: nat, rule: Rule)
    requires input.Valid() && u < |input.listings| && v < |input.listings|
    requires Vetoes(input.listings, VerdictsOf(input), u, v, rule)
    ensures PairClashes(input, u, v, rule)
  {
    if u < v {
      AcceptedByFields(input, u, v);
    } else if v < u {
      AcceptedByFields(input, v, u);
    }
  }

  lemma ResolutionDescribes(input: Input, accepted: seq<Edge>, roots: seq<nat>, r: Resolution)
    requires input.Valid() && Resolves(input.listings, VerdictsOf(input), accepted, roots, r)
    ensures Partitions(r.components, |input.listings|)
    ensures Describes(|input.listings|, r.components, r.decisions)
    ensures OneOccasionEach(input, r.components)
  {
    var heads :| ComponentsOf(r.components, roots, heads);
    ComponentsAreLabelled(r.components, roots, heads);
    LabelledPartition(r.components, roots, heads);
    forall k | 0 <= k < |r.decisions| ensures Describing(|input.listings|, r.components, r.decisions[k]) {
      DecisionDescribes(input, accepted, roots, r, k);
    }
    forall x: nat, y: nat | x < y < |input.listings| && Shared(r.components, x, y)
      ensures HasDecision(r.decisions, x, y)
      ensures SameOccasion(input.listings[x], input.listings[y], input.venues[x], input.venues[y])
    {
      SharedPair(input, accepted, roots, r, x, y);
    }
  }

  lemma DecisionDescribes(input: Input, accepted: seq<Edge>, roots: seq<nat>, r: Resolution, k: nat)
    requires input.Valid() && Resolves(input.listings, VerdictsOf(input), accepted, roots, r) && k < |r.decisions|
    ensures var d := r.decisions[k];
      d.left < d.right < |roots| && (Joins(d.outcome) <==> roots[d.left] == roots[d.right])
  {
    var p := (r.decisions[k].left, r.decisions[k].right);
    assert p in r.slot && r.slot[p] == k;
    RulesNeverSayJevMerge(input);
    NeverPublishesJevMerge(input.listings, VerdictsOf(input), accepted, roots, r, p);
    DecisionsDescribeSessions(input.listings, VerdictsOf(input), accepted, roots, r);
  }

  lemma SharedPair(input: Input, accepted: seq<Edge>, roots: seq<nat>, r: Resolution, x: nat, y: nat)
    requires input.Valid() && Resolves(input.listings, VerdictsOf(input), accepted, roots, r)
    requires x < y < |input.listings| && roots[x] == roots[y]
    ensures HasDecision(r.decisions, x, y)
    ensures SameOccasion(input.listings[x], input.listings[y], input.venues[x], input.venues[y])
  {
    DecisionsDescribeSessions(input.listings, VerdictsOf(input), accepted, roots, r);
    SessionsShareOneOccasion(input, accepted, roots, r, x, y);
    RecordedPair(|input.listings|, r.decisions, r.slot, x, y);
  }

  lemma RecordedPair(n: nat, decisions: seq<Decision>, slot: map<Edge, nat>, x: nat, y: nat)
    requires Records(n, decisions, slot) && (x, y) in slot
    ensures HasDecision(decisions, x, y)
  {
    assert decisions[slot[(x, y)]].left == x;
  }

  // ---- with judgments ----

  /** The listings of a group of sessions. */
  function Regrouped(sessions: seq<seq<nat>>, group: seq<nat>): seq<nat>
    requires forall k :: 0 <= k < |group| ==> group[k] < |sessions|
  {
    if group == [] then [] else sessions[group[0]] + Regrouped(sessions, group[1..])
  }

  lemma {:induction false} RegroupedHolds(sessions: seq<seq<nat>>, group: seq<nat>, x: nat)
    requires forall k :: 0 <= k < |group| ==> group[k] < |sessions|
    ensures x in Regrouped(sessions, group) <==> exists k :: 0 <= k < |group| && x in sessions[group[k]]
  {
    if group != [] {
      RegroupedHolds(sessions, group[1..], x);
      assert forall k :: 1 <= k < |group| ==> group[k] == group[1..][k - 1];
    }
  }

  method Regroup(sessions: seq<seq<nat>>, groups: seq<seq<nat>>) returns (merged: seq<seq<nat>>)
    requires forall g, k :: 0 <= g < |groups| && 0 <= k < |groups[g]| ==> groups[g][k] < |sessions|
    ensures |merged| == |groups| && forall g :: 0 <= g < |groups| ==> merged[g] == Regrouped(sessions, groups[g])
  {
    merged := [];
    for g := 0 to |groups|
      invariant |merged| == g && forall h :: 0 <= h < g ==> merged[h] == Regrouped(sessions, groups[h])
    {
      merged := merged + [Regrouped(sessions, groups[g])];
    }
  }

  /** The final label of every listing. */
  ghost function FinalLabels(sessionOf: seq<nat>, final: seq<nat>): (labels: seq<nat>)
    requires forall x :: 0 <= x < |sessionOf| ==> sessionOf[x] < |final|
    ensures |labels| == |sessionOf| && forall x :: 0 <= x < |labels| ==> labels[x] == final[sessionOf[x]]
  {
    seq(|sessionOf|, x requires 0 <= x < |sessionOf| => final[sessionOf[x]])
  }

  lemma RegroupedLabel(sessions: seq<seq<nat>>, sessionOf: seq<nat>, final: seq<nat>, group: seq<nat>, head: nat)
    requires Locates(sessions, sessionOf) && |final| == |sessions| && HoldsLabel(group, final, head)
    requires forall k :: 0 <= k < |group| ==> group[k] < |sessions|
    ensures HoldsLabel(Regrouped(sessions, group), FinalLabels(sessionOf, final), head)
  {
    forall x: nat ensures x in Regrouped(sessions, group) <==> x < |sessionOf| && final[sessionOf[x]] == head {
      RegroupedHolds(sessions, group, x);
      if x in Regrouped(sessions, group) {
        var k :| 0 <= k < |group| && x in sessions[group[k]];
        assert group[k] in group;
      }
      if x < |sessionOf| && final[sessionOf[x]] == head {
        assert sessionOf[x] in group;
        var k :| 0 <= k < |group| && group[k] == sessionOf[x];
        assert x in sessions[group[k]];
      }
    }
  }

  /** Regrouping sessions shares exactly the listings whose sessions are shared. */
  lemma RegroupedPartition(
      sessions: seq<seq<nat>>, sessionOf: seq<nat>, final: seq<nat>, groups: seq<seq<nat>>, heads: seq<nat>,
      merged: seq<seq<nat>>)
    requires Locates(sessions, sessionOf) && |final| == |sessions| && Labelled(groups, final, heads)
    requires forall g, k :: 0 <= g < |groups| && 0 <= k < |groups[g]| ==> groups[g][k] < |sessions|
    requires |merged| == |groups| && forall g :: 0 <= g < |groups| ==> merged[g] == Regrouped(sessions, groups[g])
    ensures Partitions(merged, |sessionOf|)
    ensures forall x: nat, y: nat :: x < |sessionOf| && y < |sessionOf| ==>
      (Shared(merged, x, y) <==> Together(sessionOf, final, x, y))
  {
    var labels := FinalLabels(sessionOf, final);
    forall g: nat | g < |merged| ensures HoldsLabel(merged[g], labels, heads[g]) {
      RegroupedLabel(sessions, sessionOf, final, groups[g], heads[g]);
    }
    LabelledPartition(merged, labels, heads);
  }

  lemma GroupsInRange(sessions: seq<seq<nat>>, final: seq<nat>, groups: seq<seq<nat>>, heads: seq<nat>)
    requires |final| == |sessions| && Labelled(groups, final, heads)
    ensures forall g, k :: 0 <= g < |groups| && 0 <= k < |groups[g]| ==> groups[g][k] < |sessions|
  {
    forall g: nat, k | g < |groups| && 0 <= k < |groups[g]| ensures groups[g][k] < |sessions| {
      assert HoldsLabel(groups[g], final, heads[g]) && groups[g][k] in groups[g];
    }
  }

  /** A decision published after the judgments: a pair that was left to the judge
      is as the judge said, any other as the rules said. */
  ghost predicate RuledOrJudged(input: Input, judge: Judge, sessions: seq<seq<nat>>, d: Decision)
    requires |input.venues| == |input.listings|
  {
    if Ambiguous(input, d.left, d.right) then
      match judge(d.left, d.right)
      case Different => d.outcome == NeverMerge && d.rule == JevCalibratedDifferent
      case Undecided => d.outcome == Unresolved && d.rule == TitleAmbiguous
      case Approved =>
        if Shared(sessions, d.left, d.right) then d.outcome == JevMerge && d.rule == JevApprovedClusterSafe
        else d.outcome == Unresolved && d.rule == JevApprovedClusterRejected
    else RuledOrVetoed(input, sessions, d)
  }

  /** The two listings are approved: their decision merges by rule, or was left to
      the judge, who approved. */
  ghost predicate JointlyApproved(input: Input, judge: Judge, decisions: seq<Decision>, u: nat, v: nat)
    requires |input.venues| == |input.listings|
  {
    exists k :: 0 <= k < |decisions|
      && ((decisions[k].left == u && decisions[k].right == v) || (decisions[k].left == v && decisions[k].right == u))
      && ApprovedBy(input, judge, decisions[k])
  }

  ghost predicate ApprovedBy(input: Input, judge: Judge, d: Decision)
    requires |input.venues| == |input.listings|
  {
    Merging(d.outcome) || (Ambiguous(input, d.left, d.right) && judge(d.left, d.right) == Approved)
  }

  /** An approved pair is rejected only when its two sessions hold one provider, or
      a pair across them that is not approved. */
  ghost predicate RejectedRightly(
      input: Input, judge: Judge, sessions: seq<seq<nat>>, decisions: seq<Decision>, d: Decision)
    requires |input.venues| == |input.listings|
  {
    d.rule == JevApprovedClusterRejected ==>
      exists u: nat, v: nat :: u < |input.listings| && v < |input.listings|
        && Shared(sessions, d.left, u) && Shared(sessions, d.right, v)
        && (input.listings[u].provider == input.listings[v].provider || !JointlyApproved(input, judge, decisions, u, v))
  }

  /** Resolution with judgments: approval of single pairs never bypasses provider
      uniqueness or the compatibility of all pairs of a session. */
  method ResolveIdentityJudged(input: Input, judge: Judge, before: TextOrder)
    returns (sessions: seq<seq<nat>>, decisions: seq<Decision>)
    requires input.Valid() && Total(before)
    ensures Partitions(sessions, |input.listings|)
    ensures Describes(|input.listings|, sessions, decisions)
    ensures OneOccasionEach(input, sessions) && AllAlike(input, sessions)
    ensures DecidesCompared(input, decisions)
    ensures forall k :: 0 <= k < |decisions| ==> RuledOrJudged(input, judge, sessions, decisions[k])
    ensures forall k :: 0 <= k < |decisions| ==> RejectedRightly(input, judge, sessions, decisions, decisions[k])
    ensures MergesUnlessClash(input, sessions)
  {
    var r, published, groups, rejected, sessionOf, accepted, roots, approved, approvals, heads :=
      ResolveIdentityWithJev(input, judge, before);
    ghost var final := FinalSessionRoots(input.listings, r.components, approved, sessionOf, approvals);
    ComponentsAreLabelled(groups, final, heads);
    GroupsInRange(r.components, final, groups, heads);
    sessions := Regroup(r.components, groups);
    decisions := published;
    RegroupedPartition(r.components, sessionOf, final, groups, heads, sessions);
    JudgedDescribes(input, accepted, roots, r, sessionOf, judge, approved, approvals, published, rejected, sessions);
    ResolutionDecides(input, accepted, roots, r);
    SessionsGrow(input, accepted, roots, r, sessionOf, final, sessions);
    JudgedDecides(input, r, judge, sessionOf, final, decisions, sessions);
    RejectionsAreRight(input, r, judge, approved, sessionOf, final, decisions, rejected, sessions);
    OccasionsAreAlike(input, sessions);
  }

  /** Who is approved after the judgments was approved before they were applied. */
  lemma ApprovedBefore(
      input: Input, r: Resolution, judge: Judge, sessionOf: seq<nat>, final: seq<nat>, decisions: seq<Decision>,
      u: nat, v: nat)
    requires input.Valid() && Records(|input.listings|, r.decisions, r.slot) && Indexed(r.decisions, r.slot)
    requires PublishesJudged(r.decisions, decisions, judge, sessionOf, final)
    requires forall k :: 0 <= k < |r.decisions| ==> RuledOrVetoed(input, r.components, r.decisions[k])
    requires JointlyApproved(input, judge, decisions, u, v)
    ensures PairApproved(r.decisions, r.slot, judge, u, v)
  {
    var k :| 0 <= k < |decisions|
      && ((decisions[k].left == u && decisions[k].right == v) || (decisions[k].left == v && decisions[k].right == u))
      && ApprovedBy(input, judge, decisions[k]);
    var d := r.decisions[k];
    SlotOf(r, |input.listings|, k);
    assert PublishedAs(d, decisions[k], judge(d.left, d.right), Together(sessionOf, final, d.left, d.right));
    assert RuledOrVetoed(input, r.components, d);
    assert Pair(u, v) == (d.left, d.right);
  }

  lemma RejectionsAreRight(
      input: Input, r: Resolution, judge: Judge, approved: Approval, sessionOf: seq<nat>, final: seq<nat>,
      decisions: seq<Decision>, rejected: map<Edge, Rule>, sessions: seq<seq<nat>>)
    requires input.Valid() && |sessionOf| == |input.listings|
    requires Records(|sessionOf|, r.decisions, r.slot) && Indexed(r.decisions, r.slot)
    requires forall u, v :: approved(u, v) == PairApproved(r.decisions, r.slot, judge, u, v)
    requires PublishesJudged(r.decisions, decisions, judge, sessionOf, final)
    requires forall x :: 0 <= x < |sessionOf| ==> sessionOf[x] < |final|
    requires Accounts(input.listings, r, judge, approved, sessionOf, final, decisions, rejected)
    requires forall x: nat, y: nat :: x < |sessionOf| && y < |sessionOf| ==>
      (Shared(sessions, x, y) <==> Together(sessionOf, final, x, y))
    requires forall k :: 0 <= k < |r.decisions| ==> RuledOrVetoed(input, r.components, r.decisions[k])
    ensures forall k :: 0 <= k < |decisions| ==> RejectedRightly(input, judge, sessions, decisions, decisions[k])
  {
    forall k | 0 <= k < |decisions| && decisions[k].rule == JevApprovedClusterRejected
      ensures RejectedRightly(input, judge, sessions, decisions, decisions[k])
    {
      RejectionIsRight(input, r, judge, approved, sessionOf, final, decisions, rejected, sessions, k);
    }
  }

  lemma RejectionIsRight(
      input: Input, r: Resolution, judge: Judge, approved: Approval, sessionOf: seq<nat>, final: seq<nat>,
      decisions: seq<Decision>, rejected: map<Edge, Rule>, sessions: seq<seq<nat>>, k: nat)
    requires input.Valid() && |sessionOf| == |input.listings|
    requires Records(|sessionOf|, r.decisions, r.slot) && Indexed(r.decisions, r.slot)
    requires forall u, v :: approved(u, v) == PairApproved(r.decisions, r.slot, judge, u, v)
    requires PublishesJudged(r.decisions, decisions, judge, sessionOf, final)
    requires forall x :: 0 <= x < |sessionOf| ==> sessionOf[x] < |final|
    requires Accounts(input.listings, r, judge, approved, sessionOf, final, decisions, rejected)
    requires forall x: nat, y: nat :: x < |sessionOf| && y < |sessionOf| ==>
      (Shared(sessions, x, y) <==> Together(sessionOf, final, x, y))
    requires forall h :: 0 <= h < |r.decisions| ==> RuledOrVetoed(input, r.components, r.decisions[h])
    requires k < |decisions| && decisions[k].rule == JevApprovedClusterRejected
    ensures RejectedRightly(input, judge, sessions, decisions, decisions[k])
  {
    var p := RejectionIsJustified(input, r, judge, approved, sessionOf, final, decisions, rejected, k);
    var u: nat, v: nat :| u < |input.listings| && v < |input.listings|
      && final[sessionOf[u]] == final[sessionOf[p.0]] && final[sessionOf[v]] == final[sessionOf[p.1]]
      && Refuses(input.listings, approved, u, v, rejected[p]);
    if JointlyApproved(input, judge, decisions, u, v) {
      ApprovedBefore(input, r, judge, sessionOf, final, decisions, u, v);
    }
    assert Shared(sessions, p.0, u) && Shared(sessions, p.1, v);
  }

  lemma RejectionIsJustified(
      input: Input, r: Resolution, judge: Judge, approved: Approval, sessionOf: seq<nat>, final: seq<nat>,
      decisions: seq<Decision>, rejected: map<Edge, Rule>, k: nat) returns (p: Edge)
    requires input.Valid() && |sessionOf| == |input.listings|
    requires Records(|sessionOf|, r.decisions, r.slot) && Indexed(r.decisions, r.slot)
    requires PublishesJudged(r.decisions, decisions, judge, sessionOf, final)
    requires forall x :: 0 <= x < |sessionOf| ==> sessionOf[x] < |final|
    requires Accounts(input.listings, r, judge, approved, sessionOf, final, decisions, rejected)
    requires forall h :: 0 <= h < |r.decisions| ==> RuledOrVetoed(input, r.components, r.decisions[h])
    requires k < |decisions| && decisions[k].rule == JevApprovedClusterRejected
    ensures p.0 < |sessionOf| && p.1 < |sessionOf| && p == (decisions[k].left, decisions[k].right) && p in rejected
    ensures Justifies(input.listings, approved, sessionOf, final, sessionOf[p.0], sessionOf[p.1], rejected[p])
  {
    p := (r.decisions[k].left, r.decisions[k].right);
    SlotOf(r, |sessionOf|, k);
    assert RuledOrVetoed(input, r.components, r.decisions[k]);
    assert PublishedAs(r.decisions[k], decisions[k], judge(p.0, p.1), Together(sessionOf, final, p.0, p.1));
    assert DecisionAccounts(input.listings, r, judge, approved, sessionOf, final, p, decisions[r.slot[p]], rejected);
  }

  /** Every group is inside one group of another grouping. */
  ghost predicate Inside(fine: seq<seq<nat>>, coarse: seq<seq<nat>>, n: nat) {
    forall x: nat, y: nat :: x < n && y < n && Shared(fine, x, y) ==> Shared(coarse, x, y)
  }

  lemma SessionsGrow(
      input: Input, accepted: seq<Edge>, roots: seq<nat>, r: Resolution, sessionOf: seq<nat>, final: seq<nat>,
      sessions: seq<seq<nat>>)
    requires input.Valid() && Resolves(input.listings, VerdictsOf(input), accepted, roots, r)
    requires |sessionOf| == |input.listings| && Locates(r.components, sessionOf) && |final| == |r.components|
    requires forall x: nat, y: nat :: x < |sessionOf| && y < |sessionOf| ==>
      (Shared(sessions, x, y) <==> Together(sessionOf, final, x, y))
    ensures Inside(r.components, sessions, |input.listings|)
  {
    forall x: nat, y: nat | x < |sessionOf| && y < |sessionOf| && Shared(r.components, x, y)
      ensures Shared(sessions, x, y)
    {
      var g: nat :| g < |r.components| && x in r.components[g] && y in r.components[g];
      assert sessionOf[x] == g && sessionOf[y] == g;
    }
  }

  lemma ClashGrows(
      input: Input, fine: seq<seq<nat>>, coarse: seq<seq<nat>>, x: nat, y: nat, rule: Rule)
    requires |input.venues| == |input.listings| && x < |input.listings| && y < |input.listings|
    requires Inside(fine, coarse, |input.listings|) && SessionsClash(input, fine, x, y, rule)
    ensures SessionsClash(input, coarse, x, y, rule)
  {
    var u: nat, v: nat :| u < |input.listings| && v < |input.listings|
      && Shared(fine, x, u) && Shared(fine, y, v) && PairClashes(input, u, v, rule);
    assert Shared(coarse, x, u) && Shared(coarse, y, v);
  }

  lemma JudgedDecides(
      input: Input, r: Resolution, judge: Judge, sessionOf: seq<nat>, final: seq<nat>, decisions: seq<Decision>,
      sessions: seq<seq<nat>>)
    requires input.Valid() && |sessionOf| == |input.listings|
    requires PublishesJudged(r.decisions, decisions, judge, sessionOf, final)
    requires forall x :: 0 <= x < |sessionOf| ==> sessionOf[x] < |final|
    requires forall x: nat, y: nat :: x < |sessionOf| && y < |sessionOf| ==>
      (Shared(sessions, x, y) <==> Together(sessionOf, final, x, y))
    requires Inside(r.components, sessions, |input.listings|)
    requires DecidesCompared(input, r.decisions) && MergesUnlessClash(input, r.components)
    requires forall k :: 0 <= k < |r.decisions| ==> RuledOrVetoed(input, r.components, r.decisions[k])
    requires Describes(|input.listings|, sessions, decisions)
    ensures DecidesCompared(input, decisions)
    ensures forall k :: 0 <= k < |decisions| ==> RuledOrJudged(input, judge, sessions, decisions[k])
    ensures MergesUnlessClash(input, sessions)
  {
    SamePairs(r.decisions, decisions, judge, sessionOf, final);
    forall k | 0 <= k < |decisions| ensures RuledOrJudged(input, judge, sessions, decisions[k]) {
      assert Describing(|input.listings|, sessions, decisions[k]);
      assert RuledOrVetoed(input, r.components, r.decisions[k]);
      JudgedDecision(input, judge, r.components, sessions, r.decisions[k], decisions[k]);
    }
    forall x: nat, y: nat | MayMerge(input, x, y) && !Shared(sessions, x, y)
      ensures SessionsClash(input, sessions, x, y, GraphSameProviderCollision)
           || SessionsClash(input, sessions, x, y, GraphPairwiseIncompatibility)
    {
      if SessionsClash(input, r.components, x, y, GraphSameProviderCollision) {
        ClashGrows(input, r.components, sessions, x, y, GraphSameProviderCollision);
      } else {
        ClashGrows(input, r.components, sessions, x, y, GraphPairwiseIncompatibility);
      }
    }
  }

  /** The judgments publish the same pairs. */
  lemma SamePairs(before: seq<Decision>, after: seq<Decision>, judge: Judge, sessionOf: seq<nat>, final: seq<nat>)
    requires PublishesJudged(before, after, judge, sessionOf, final)
    ensures forall k :: 0 <= k < |before| ==> after[k].left == before[k].left && after[k].right == before[k].right
    ensures forall x: nat, y: nat :: HasDecision(before, x, y) <==> HasDecision(after, x, y)
  {
    forall k | 0 <= k < |before| ensures after[k].left == before[k].left && after[k].right == before[k].right {
      assert PublishedAs(before[k], after[k], judge(before[k].left, before[k].right),
                         Together(sessionOf, final, before[k].left, before[k].right));
    }
  }

  lemma JudgedDecision(
      input: Input, judge: Judge, fine: seq<seq<nat>>, sessions: seq<seq<nat>>, d: Decision, e: Decision)
    requires input.Valid() && RuledOrVetoed(input, fine, d) && Compared(input, d.left, d.right)
    requires Inside(fine, sessions, |input.listings|) && Describing(|input.listings|, sessions, e)
    requires PublishedAs(d, e, judge(d.left, d.right), Shared(sessions, d.left, d.right))
    ensures RuledOrJudged(input, judge, sessions, e)
  {
    if MayMerge(input, d.left, d.right) && !Shared(sessions, d.left, d.right) {
      ClashGrows(input, fine, sessions, d.left, d.right, d.rule);
    }
  }

  lemma JudgedDescribes(
      input: Input, accepted: seq<Edge>, roots: seq<nat>, r: Resolution, sessionOf: seq<nat>, judge: Judge,
      approved: Approval, pairs: seq<Edge>, decisions: seq<Decision>, rejected: map<Edge, Rule>,
      sessions: seq<seq<nat>>)
    requires input.Valid() && Resolves(input.listings, VerdictsOf(input), accepted, roots, r)
    requires |sessionOf| == |input.listings| && Locates(r.components, sessionOf) && InRange(pairs, |input.listings|)
    requires forall u, v :: approved(u, v) == PairApproved(r.decisions, r.slot, judge, u, v)
    requires |decisions| == |r.decisions|
    requires var final := FinalSessionRoots(input.listings, r.components, approved, sessionOf, pairs);
      && Accounts(input.listings, r, judge, approved, sessionOf, final, decisions, rejected)
      && forall x: nat, y: nat :: x < |sessionOf| && y < |sessionOf| ==>
        (Shared(sessions, x, y) <==> Together(sessionOf, final, x, y))
    ensures Describes(|input.listings|, sessions, decisions)
    ensures OneOccasionEach(input, sessions)
  {
    var final := FinalSessionRoots(input.listings, r.components, approved, sessionOf, pairs);
    forall k | 0 <= k < |decisions| ensures Describing(|input.listings|, sessions, decisions[k]) {
      FinalAt(input.listings, r, judge, approved, sessionOf, final, decisions, rejected, k);
      JudgedDescribing(input, accepted, roots, r, sessionOf, judge, approved, pairs, decisions[k], k);
    }
    forall x: nat, y: nat | x < y < |input.listings| && Shared(sessions, x, y)
      ensures HasDecision(decisions, x, y)
      ensures SameOccasion(input.listings[x], input.listings[y], input.venues[x], input.venues[y])
    {
      JudgedPair(input, accepted, roots, r, sessionOf, judge, approved, pairs, x, y);
      JudgedRecorded(input.listings, r, judge, approved, sessionOf, final, decisions, rejected, x, y);
    }
  }

  lemma FinalAt(
      listings: seq<Listing>, r: Resolution, judge: Judge, approved: Approval, sessionOf: seq<nat>, final: seq<nat>,
      decisions: seq<Decision>, rejected: map<Edge, Rule>, k: nat)
    requires Records(|sessionOf|, r.decisions, r.slot) && Indexed(r.decisions, r.slot) && k < |r.decisions|
    requires |decisions| == |r.decisions| && |sessionOf| == |listings|
    requires forall x :: 0 <= x < |sessionOf| ==> sessionOf[x] < |final|
    requires Accounts(listings, r, judge, approved, sessionOf, final, decisions, rejected)
    ensures var d := r.decisions[k];
      d.left < d.right < |sessionOf| && decisions[k] == Final(d, judge, Together(sessionOf, final, d.left, d.right))
  {
    var p := (r.decisions[k].left, r.decisions[k].right);
    assert p in r.slot && r.slot[p] == k;
    assert DecisionAccounts(listings, r, judge, approved, sessionOf, final, p, decisions[r.slot[p]], rejected);
  }

  lemma JudgedDescribing(
      input: Input, accepted: seq<Edge>, roots: seq<nat>, r: Resolution, sessionOf: seq<nat>, judge: Judge,
      approved: Approval, pairs: seq<Edge>, d: Decision, k: nat)
    requires input.Valid() && Resolves(input.listings, VerdictsOf(input), accepted, roots, r)
    requires |sessionOf| == |input.listings| && Locates(r.components, sessionOf) && InRange(pairs, |input.listings|)
    requires forall u, v :: approved(u, v) == PairApproved(r.decisions, r.slot, judge, u, v)
    requires k < |r.decisions| && r.decisions[k].left < r.decisions[k].right < |sessionOf|
    requires var final := FinalSessionRoots(input.listings, r.components, approved, sessionOf, pairs);
      d == Final(r.decisions[k], judge, Together(sessionOf, final, r.decisions[k].left, r.decisions[k].right))
    ensures d.left == r.decisions[k].left && d.right == r.decisions[k].right
    ensures var final := FinalSessionRoots(input.listings, r.components, approved, sessionOf, pairs);
      Joins(d.outcome) <==> Together(sessionOf, final, d.left, d.right)
  {
    var p := (r.decisions[k].left, r.decisions[k].right);
    SlotOf(r, |input.listings|, k);
    RulesNeverSayJevMerge(input);
    JudgedDecisionsDescribeSessions(
      input.listings, VerdictsOf(input), accepted, roots, r, sessionOf, judge, approved, pairs, p);
  }

  lemma SlotOf(r: Resolution, n: nat, k: nat)
    requires Records(n, r.decisions, r.slot) && Indexed(r.decisions, r.slot) && k < |r.decisions|
    ensures (r.decisions[k].left, r.decisions[k].right) in r.slot
    ensures r.slot[(r.decisions[k].left, r.decisions[k].right)] == k
  {
  }

  lemma JudgedPair(
      input: Input, accepted: seq<Edge>, roots: seq<nat>, r: Resolution, sessionOf: seq<nat>, judge: Judge,
      approved: Approval, pairs: seq<Edge>, x: nat, y: nat)
    requires input.Valid() && Resolves(input.listings, VerdictsOf(input), accepted, roots, r)
    requires |sessionOf| == |input.listings| && Locates(r.components, sessionOf) && InRange(pairs, |input.listings|)
    requires forall u, v :: approved(u, v) == PairApproved(r.decisions, r.slot, judge, u, v)
    requires x < y < |input.listings|
    requires Together(sessionOf, FinalSessionRoots(input.listings, r.components, approved, sessionOf, pairs), x, y)
    ensures PairApproved(r.decisions, r.slot, judge, x, y)
    ensures SameOccasion(input.listings[x], input.listings[y], input.venues[x], input.venues[y])
  {
    JudgedSessionsAreSafe(
      input.listings, VerdictsOf(input), accepted, roots, r, sessionOf, judge, approved, pairs, x, y);
    JudgedSessionsShareOneOccasion(input, accepted, roots, r, sessionOf, judge, approved, pairs, x, y);
  }

  lemma JudgedRecorded(
      listings: seq<Listing>, r: Resolution, judge: Judge, approved: Approval, sessionOf: seq<nat>, final: seq<nat>,
      decisions: seq<Decision>, rejected: map<Edge, Rule>, x: nat, y: nat)
    requires Records(|sessionOf|, r.decisions, r.slot) && |decisions| == |r.decisions| && x < y
    requires |sessionOf| == |listings|
    requires forall s :: 0 <= s < |sessionOf| ==> sessionOf[s] < |final|
    requires Accounts(listings, r, judge, approved, sessionOf, final, decisions, rejected)
    requires PairApproved(r.decisions, r.slot, judge, x, y)
    ensures HasDecision(decisions, x, y)
  {
    assert (x, y) in r.slot;
    assert DecisionAccounts(listings, r, judge, approved, sessionOf, final, (x, y), decisions[r.slot[(x, y)]],
      rejected);
    assert decisions[r.slot[(x, y)]].left == x;
  }
}
