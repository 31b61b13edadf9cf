/** Links between equal venue names and between a name and the only longer one. */
module VenueNames {
  import opened Listings
  import opened GuardedClustering
  import opened VenueReasons
  import opened Buckets
  import opened VenueLinks

  /** Exactly one name group of the city extends this one by a single word. */
  function Extensions(listings: seq<VenueListing>, groups: seq<seq<nat>>, g: nat): (extensions: seq<nat>)
    requires g < |groups| && forall h :: 0 <= h < |groups| ==> groups[h] != [] && groups[h][0] < |listings|
    ensures forall k :: 0 <= k < |extensions| ==>
      extensions[k] < |groups| && listings[groups[extensions[k]][0]].city == listings[groups[g][0]].city
  {
    ExtensionsFrom(listings, groups, g, |groups|)
  }

  function ExtensionsFrom(listings: seq<VenueListing>, groups: seq<seq<nat>>, g: nat, n: nat): (extensions: seq<nat>)
    requires g < |groups| && n <= |groups| && forall h :: 0 <= h < |groups| ==>
      groups[h] != [] && groups[h][0] < |listings|
    ensures forall k :: 0 <= k < |extensions| ==>
      extensions[k] < |groups| && listings[groups[extensions[k]][0]].city == listings[groups[g][0]].city
  {
    if n == 0 then []
    else
      var own, other := listings[groups[g][0]], listings[groups[n - 1][0]];
      ExtensionsFrom(listings, groups, g, n - 1) +
        if other.city == own.city && ExtendsName(own.distinctive, other.distinctive) then [n - 1] else []
  }

  /** The longer name has one more word; an already specific name must not gain
      another identifying word. */
  predicate ExtendsName(name: DistinctiveName, longer: DistinctiveName) {
    && |longer.tokens| == |name.tokens| + 1
    && name.tokens <= longer.tokens
    && (|name.identifying| < 2 || longer.identifying <= name.tokens)
  }

  /** What a name group is linked to: itself, and the one group that extends it,
      if there is exactly one and the name has an identifying word. */
  ghost predicate NameLinked(listings: seq<VenueListing>, groups: seq<seq<nat>>, g: nat, edges: EdgeMap)
    requires g < |groups| && forall h :: 0 <= h < |groups| ==> groups[h] != [] && groups[h][0] < |listings|
  {
    && LinkedAll(edges, groups[g], groups[g], NAME_PRIORITY)
    && (listings[groups[g][0]].distinctive.identifying != {} && |Extensions(listings, groups, g)| == 1 ==>
          LinkedAll(edges, groups[g], groups[Extensions(listings, groups, g)[0]], EXTENSION_PRIORITY))
  }

  ghost predicate Anchored(listings: seq<VenueListing>, groups: seq<seq<nat>>) {
    forall h :: 0 <= h < |groups| ==> groups[h] != [] && groups[h][0] < |listings|
  }

  /** The name groups, and the links between them. */
  ghost predicate NamesLinked(listings: seq<VenueListing>, edges: EdgeMap) {
    exists groups, names ::
      GroupedByKey(Keys(listings, NameKey), |listings|, groups, names) && Anchored(listings, groups)
      && FirstNamesLinked(listings, groups, |groups|, edges)
  }

  ghost predicate FirstNamesLinked(listings: seq<VenueListing>, groups: seq<seq<nat>>, n: nat, edges: EdgeMap)
    requires n <= |groups| && Anchored(listings, groups)
  {
    forall g :: 0 <= g < n ==> NameLinked(listings, groups, g, edges)
  }

  lemma FirstNamesStay(listings: seq<VenueListing>, groups: seq<seq<nat>>, n: nat, before: EdgeMap, after: EdgeMap)
    requires n < |groups| && Anchored(listings, groups) && FirstNamesLinked(listings, groups, n, before)
    requires Extends(before, after)
    requires NameLinked(listings, groups, n, after)
    ensures FirstNamesLinked(listings, groups, n + 1, after)
  {
    forall g | 0 <= g < n ensures NameLinked(listings, groups, g, after) {
      NameStaysLinked(listings, groups, g, before, after);
    }
  }

  /** Listings of one name, and those of a name and the only one a word longer. */
  ghost function NameReasons(listings: seq<VenueListing>): Reasons {
    (p: Edge, q: nat) => p.0 <= p.1 < |listings| && (q == NAME_PRIORITY || q == EXTENSION_PRIORITY)
      && if q == NAME_PRIORITY then NamedAlike(listings, p.0, p.1)
         else NamedLonger(listings, p.0, p.1) || NamedLonger(listings, p.1, p.0)
              || ChainedLonger(listings, p.0, p.1)
  }

  lemma NameKeyTells()
    ensures Tells(NameKey, SameName)
  {
  }

  /** A listing's name group is as large as the listings of its name are many. */
  lemma NameCount(listings: seq<VenueListing>, group: seq<nat>, i: nat)
    requires i in group && group[0] < |listings| && NameKey(listings[group[0]]).Some?
    requires group == BucketOf(listings, NameKey, group[0])
    ensures i < |listings| && SameName(listings[group[0]], listings[i])
    ensures |AllLike(listings, SameName, i)| == |group|
  {
    NameKeyTells();
    BucketHolds(listings, NameKey, SameName, group[0]);
    var keys := Keys(listings, NameKey);
    var key := NameKey(listings[group[0]]).value;
    CountMembers(keys, key, |keys|);
    assert AllLike(listings, SameName, i) == set k: nat | k < |keys| && keys[k] == Some(key);
  }

  /** A name group: its listings bear the first one's name, which nobody bears
      earlier, in list order. */
  ghost predicate NameGroup(listings: seq<VenueListing>, group: seq<nat>) {
    && group != [] && Rising(group) && First(listings, SameName, group[0])
    && (forall i: nat :: i in group <==> i < |listings| && SameName(listings[group[0]], listings[i]))
    && (forall h, k :: 0 <= h && h + 1 == k < |group| ==> Next(listings, SameName, group[h], group[k]))
    && (forall i: nat :: i in group ==> |AllLike(listings, SameName, i)| == |group|)
  }

  lemma GroupIsNameGroup(
      listings: seq<VenueListing>, groups: seq<seq<nat>>, names: seq<(string, string, string)>, g: nat)
    requires GroupedByKey(Keys(listings, NameKey), |listings|, groups, names) && g < |groups|
    ensures NameGroup(listings, groups[g])
  {
    var group := groups[g];
    GroupIsBucket(listings, NameKey, groups, names, g);
    NameKeyTells();
    BucketHolds(listings, NameKey, SameName, group[0]);
    BucketPlaces(listings, NameKey, SameName, group[0]);
    forall i: nat | i in group ensures |AllLike(listings, SameName, i)| == |group| {
      NameCount(listings, group, i);
    }
  }

  ghost predicate NameGroups(listings: seq<VenueListing>, groups: seq<seq<nat>>) {
    && (forall g :: 0 <= g < |groups| ==> NameGroup(listings, groups[g]))
    && (forall g, h :: 0 <= g < h < |groups| ==> groups[g][0] != groups[h][0])
    && (forall i: nat :: First(listings, SameName, i) ==> exists g :: 0 <= g < |groups| && groups[g][0] == i)
  }

  lemma GroupsAreNameGroups(
      listings: seq<VenueListing>, groups: seq<seq<nat>>, names: seq<(string, string, string)>)
    requires GroupedByKey(Keys(listings, NameKey), |listings|, groups, names)
    ensures NameGroups(listings, groups) && Anchored(listings, groups)
  {
    var keys := Keys(listings, NameKey);
    forall g | 0 <= g < |groups|
      ensures NameGroup(listings, groups[g]) && keys[groups[g][0]] == Some(names[g])
    {
      GroupIsNameGroup(listings, groups, names, g);
      MembersExact(keys, names[g], |keys|);
      assert groups[g][0] in groups[g];
    }
    forall i: nat | First(listings, SameName, i) ensures exists g :: 0 <= g < |groups| && groups[g][0] == i {
      assert keys[i] == NameKey(listings[i]) && keys[i].value in names;
      var g :| 0 <= g < |names| && names[g] == keys[i].value;
      var head := groups[g][0];
      assert keys[head] == NameKey(listings[head]);
      assert SameName(listings[head], listings[i]) && i in groups[g];
      assert head <= i by {
        var k :| 0 <= k < |groups[g]| && groups[g][k] == i;
      }
    }
  }

  /** The group at h bears a name that extends the one at g, in the same city. */
  predicate Lengthens(listings: seq<VenueListing>, groups: seq<seq<nat>>, g: nat, h: nat)
    requires g < |groups| && h < |groups| && Anchored(listings, groups)
  {
    && listings[groups[h][0]].city == listings[groups[g][0]].city
    && ExtendsName(listings[groups[g][0]].distinctive, listings[groups[h][0]].distinctive)
  }

  lemma OneMoreExtension(listings: seq<VenueListing>, groups: seq<seq<nat>>, g: nat, n: nat)
    requires g < |groups| && 0 < n <= |groups| && Anchored(listings, groups)
    ensures ExtensionsFrom(listings, groups, g, n)
         == ExtensionsFrom(listings, groups, g, n - 1) + if Lengthens(listings, groups, g, n - 1) then [n - 1] else []
  {
  }

  lemma RisesTo(shorter: seq<nat>, last: nat, taken: bool)
    requires Rising(shorter) && forall h :: h in shorter ==> h < last
    ensures var longer := shorter + if taken then [last] else [];
            Rising(longer) && forall h: nat :: h in longer <==> h in shorter || (taken && h == last)
  {
    forall k | 0 <= k < |shorter| ensures shorter[k] < last {
      assert shorter[k] in shorter;
    }
  }

  lemma {:induction false} ExtensionsExact(listings: seq<VenueListing>, groups: seq<seq<nat>>, g: nat, n: nat)
    requires g < |groups| && n <= |groups| && Anchored(listings, groups)
    ensures forall h: nat :: h in ExtensionsFrom(listings, groups, g, n) <==> h < n && Lengthens(listings, groups, g, h)
    ensures Rising(ExtensionsFrom(listings, groups, g, n))
  {
    if n > 0 {
      ExtensionsExact(listings, groups, g, n - 1);
      OneMoreExtension(listings, groups, g, n);
      RisesTo(ExtensionsFrom(listings, groups, g, n - 1), n - 1, Lengthens(listings, groups, g, n - 1));
    }
  }

  lemma NothingLeft(words: set<string>, known: set<string>)
    ensures words <= known <==> words - known == {}
  {
    if words - known == {} {
      forall w | w in words ensures w in known {
        assert w !in words - known;
      }
    }
  }

  lemma ExtensionByFields(l: VenueListing, m: VenueListing)
    ensures l.city == m.city && ExtendsName(l.distinctive, m.distinctive) <==> OneWordLonger(l, m)
  {
    var a, b := l.distinctive.tokens, m.distinctive.tokens;
    if a <= b {
      assert b * a == a && |b - a| == |b| - |b * a|;
    }
    NothingLeft(m.distinctive.identifying, a);
  }

  /** There is one extension exactly when one name is the only one a word longer. */
  lemma OneExtension(listings: seq<VenueListing>, groups: seq<seq<nat>>, g: nat)
    requires g < |groups| && Anchored(listings, groups) && NameGroups(listings, groups)
    requires listings[groups[g][0]].distinctive.identifying != {}
    ensures |Extensions(listings, groups, g)| == 1 ==>
      OnlyLonger(listings, groups[g][0], groups[Extensions(listings, groups, g)[0]][0])
    ensures forall h: nat :: OnlyLonger(listings, groups[g][0], h) ==>
      |Extensions(listings, groups, g)| == 1 && groups[Extensions(listings, groups, g)[0]][0] == h
  {
    var heads := Heads(groups);
    HeadsAreFirst(listings, groups);
    ExtensionHeads(listings, groups, g);
    if |Extensions(listings, groups, g)| == 1 {
      OnlyOne(listings, heads, g, Extensions(listings, groups, g));
    }
    forall h: nat | OnlyLonger(listings, heads[g], h)
      ensures |Extensions(listings, groups, g)| == 1 && heads[Extensions(listings, groups, g)[0]] == h
    {
      OneOnly(listings, heads, g, Extensions(listings, groups, g), h);
    }
  }

  function Heads(groups: seq<seq<nat>>): (heads: seq<nat>)
    requires forall g :: 0 <= g < |groups| ==> groups[g] != []
    ensures |heads| == |groups| && forall g :: 0 <= g < |groups| ==> heads[g] == groups[g][0]
  {
    seq(|groups|, h requires 0 <= h < |groups| => groups[h][0])
  }

  /** extensions are the names, given by their first bearers, a word longer than
      the g-th, in order. */
  ghost predicate Extending(listings: seq<VenueListing>, heads: seq<nat>, g: nat, extensions: seq<nat>)
    requires g < |heads| && forall h :: 0 <= h < |heads| ==> heads[h] < |listings|
  {
    && Rising(extensions)
    && forall h: nat :: h in extensions <==> h < |heads| && OneWordLonger(listings[heads[g]], listings[heads[h]])
  }

  lemma ExtensionHeads(listings: seq<VenueListing>, groups: seq<seq<nat>>, g: nat)
    requires g < |groups| && Anchored(listings, groups)
    ensures Extending(listings, Heads(groups), g, Extensions(listings, groups, g))
  {
    ExtensionsExact(listings, groups, g, |groups|);
    forall h: nat | h < |groups|
      ensures h in Extensions(listings, groups, g)
        <==> OneWordLonger(listings[groups[g][0]], listings[groups[h][0]])
    {
      ExtensionByFields(listings[groups[g][0]], listings[groups[h][0]]);
    }
  }

  lemma HeadsAreFirst(listings: seq<VenueListing>, groups: seq<seq<nat>>)
    requires Anchored(listings, groups) && NameGroups(listings, groups)
    ensures ListsFirst(listings, Heads(groups))
  {
    forall i: nat | First(listings, SameName, i) ensures i in Heads(groups) {
      var g :| 0 <= g < |groups| && groups[g][0] == i;
      assert Heads(groups)[g] == i;
    }
    forall h | 0 <= h < |groups| ensures First(listings, SameName, groups[h][0]) {
      assert NameGroup(listings, groups[h]);
    }
  }

  /** heads are the first bearers of the names, each once. */
  ghost predicate ListsFirst(listings: seq<VenueListing>, heads: seq<nat>) {
    && (forall h :: 0 <= h < |heads| ==> First(listings, SameName, heads[h]))
    && (forall g, h :: 0 <= g < h < |heads| ==> heads[g] != heads[h])
    && (forall i: nat :: First(listings, SameName, i) ==> i in heads)
  }

  lemma OnlyOne(listings: seq<VenueListing>, heads: seq<nat>, g: nat, extensions: seq<nat>)
    requires ListsFirst(listings, heads) && g < |heads| && |extensions| == 1
    requires listings[heads[g]].distinctive.identifying != {}
    requires Extending(listings, heads, g, extensions)
    ensures extensions[0] < |heads| && OnlyLonger(listings, heads[g], heads[extensions[0]])
  {
    assert extensions[0] in extensions;
    forall k: nat | First(listings, SameName, k) && OneWordLonger(listings[heads[g]], listings[k])
      ensures k == heads[extensions[0]]
    {
      var h: nat :| h < |heads| && heads[h] == k;
      assert h in extensions;
    }
  }

  lemma OneOnly(listings: seq<VenueListing>, heads: seq<nat>, g: nat, extensions: seq<nat>, only: nat)
    requires ListsFirst(listings, heads) && g < |heads| && Extending(listings, heads, g, extensions)
    requires OnlyLonger(listings, heads[g], only)
    ensures |extensions| == 1 && extensions[0] < |heads| && heads[extensions[0]] == only
  {
    var at: nat :| at < |heads| && heads[at] == only;
    assert at in extensions;
    forall e | 0 <= e < |extensions| ensures extensions[e] == at {
      assert extensions[e] in extensions && First(listings, SameName, heads[extensions[e]]);
    }
    var e := if |extensions| > 1 then 1 else 0;
    assert extensions[0] == extensions[e];
  }

  lemma SameNameFor(listings: seq<VenueListing>, group: seq<nat>)
    requires NameGroup(listings, group)
    ensures ReasonsForAll(group, group, NAME_PRIORITY, NameReasons(listings))
  {
    var reasons := NameReasons(listings);
    assert forall k :: 0 <= k < |group| ==> group[k] in group;
    if |group| * |group| > LINK_ALL_LIMIT {
      forall h, k | 0 <= h && h + 1 == k < |group| ensures reasons(Oriented(group[h], group[k]), NAME_PRIORITY) {
        assert NamedAlike(listings, group[h], group[k]);
      }
      forall k | 0 <= k < |group| ensures reasons(Oriented(group[k], group[0]), NAME_PRIORITY) {
        assert NamedAlike(listings, group[0], group[k]);
      }
    } else {
      forall i, j | 0 <= i < |group| && 0 <= j < |group| && group[i] != group[j]
        ensures reasons(Oriented(group[i], group[j]), NAME_PRIORITY)
      {
        assert if group[i] < group[j] then NamedAlike(listings, group[i], group[j])
          else NamedAlike(listings, group[j], group[i]);
      }
    }
  }

  lemma SizesAgree(listings: seq<VenueListing>, group: seq<nat>, longer: seq<nat>)
    requires NameGroup(listings, group) && NameGroup(listings, longer)
    ensures ManyPairs(listings, group[0], longer[0]) <==> |group| * |longer| > LINK_ALL_LIMIT
  {
    assert group[0] in group && longer[0] in longer;
  }

  lemma LongerPair(listings: seq<VenueListing>, group: seq<nat>, longer: seq<nat>, a: nat, b: nat)
    requires NameGroup(listings, group) && NameGroup(listings, longer) && a in group && b in longer
    requires OnlyLonger(listings, group[0], longer[0])
    requires ManyPairs(listings, group[0], longer[0]) ==> b == longer[0]
    ensures NameReasons(listings)(Oriented(a, b), EXTENSION_PRIORITY)
  {
    LongerBearers(listings, group[0], longer[0], a, b);
    ReasonOfLonger(listings, a, b);
  }

  lemma LongerBearers(listings: seq<VenueListing>, g: nat, h: nat, a: nat, b: nat)
    requires OnlyLonger(listings, g, h) && a < |listings| && b < |listings| && SameName(listings[g], listings[a])
    requires if ManyPairs(listings, g, h) then b == h else SameName(listings[h], listings[b])
    ensures NamedLonger(listings, a, b)
  {
  }

  lemma ReasonOfLonger(listings: seq<VenueListing>, a: nat, b: nat)
    requires NamedLonger(listings, a, b)
    ensures NameReasons(listings)(Oriented(a, b), EXTENSION_PRIORITY)
  {
  }

  lemma LongerNext(listings: seq<VenueListing>, group: seq<nat>, longer: seq<nat>, h: nat, k: nat)
    requires NameGroup(listings, group) && NameGroup(listings, longer) && h + 1 == k < |longer|
    requires OnlyLonger(listings, group[0], longer[0]) && ManyPairs(listings, group[0], longer[0])
    ensures NameReasons(listings)(Oriented(longer[h], longer[k]), EXTENSION_PRIORITY)
  {
    assert longer[h] in longer && Next(listings, SameName, longer[h], longer[k]);
    assert ChainedLonger(listings, longer[h], longer[k]);
  }

  lemma LongerNameFor(listings: seq<VenueListing>, group: seq<nat>, longer: seq<nat>)
    requires NameGroup(listings, group) && NameGroup(listings, longer)
    requires OnlyLonger(listings, group[0], longer[0])
    ensures ReasonsForAll(group, longer, EXTENSION_PRIORITY, NameReasons(listings))
  {
    var reasons := NameReasons(listings);
    SizesAgree(listings, group, longer);
    if |group| * |longer| > LINK_ALL_LIMIT {
      forall h, k | 0 <= h && h + 1 == k < |longer|
        ensures reasons(Oriented(longer[h], longer[k]), EXTENSION_PRIORITY)
      {
        LongerNext(listings, group, longer, h, k);
      }
      forall k | 0 <= k < |group| ensures reasons(Oriented(group[k], longer[0]), EXTENSION_PRIORITY) {
        LongerPair(listings, group, longer, group[k], longer[0]);
      }
    } else {
      forall i, j | 0 <= i < |group| && 0 <= j < |longer|
        ensures reasons(Oriented(group[i], longer[j]), EXTENSION_PRIORITY)
      {
        LongerPair(listings, group, longer, group[i], longer[j]);
      }
    }
  }

  /** There is a reason for what a name group is linked to. */
  ghost predicate ReasonsForName(listings: seq<VenueListing>, groups: seq<seq<nat>>, g: nat, reasons: Reasons)
    requires g < |groups| && Anchored(listings, groups)
  {
    && ReasonsForAll(groups[g], groups[g], NAME_PRIORITY, reasons)
    && (listings[groups[g][0]].distinctive.identifying != {} && |Extensions(listings, groups, g)| == 1 ==>
          ReasonsForAll(groups[g], groups[Extensions(listings, groups, g)[0]], EXTENSION_PRIORITY, reasons))
  }

  lemma NameFor(listings: seq<VenueListing>, groups: seq<seq<nat>>, g: nat)
    requires g < |groups| && Anchored(listings, groups) && NameGroups(listings, groups)
    ensures ReasonsForName(listings, groups, g, NameReasons(listings))
  {
    assert NameGroup(listings, groups[g]);
    SameNameFor(listings, groups[g]);
    if listings[groups[g][0]].distinctive.identifying != {} && |Extensions(listings, groups, g)| == 1 {
      OneExtension(listings, groups, g);
      var h := Extensions(listings, groups, g)[0];
      assert NameGroup(listings, groups[h]);
      LongerNameFor(listings, groups[g], groups[h]);
    }
  }

  method LinkName(
      listings: seq<VenueListing>, groups: seq<seq<nat>>, g: nat, edges0: EdgeMap, ghost reasons: Reasons)
    returns (edges: EdgeMap)
    requires g < |groups| && Anchored(listings, groups) && ReasonsForName(listings, groups, g, reasons)
    ensures OfferedFor(edges0, edges, reasons) && NameLinked(listings, groups, g, edges)
  {
    edges := LinkAll(groups[g], groups[g], NAME_PRIORITY, edges0, reasons);
    if listings[groups[g][0]].distinctive.identifying != {} {
      var extensions := Extensions(listings, groups, g);
      if |extensions| == 1 {
        ghost var before := edges;
        edges := LinkAll(groups[g], groups[extensions[0]], EXTENSION_PRIORITY, edges, reasons);
        LinksStay(before, edges, groups[g], groups[g], NAME_PRIORITY);
      }
    }
  }

  /** Equal distinctive names link; a name links to a longer one only when
      exactly one name extends it. */
  method LinkNames(listings: seq<VenueListing>, edges0: EdgeMap) returns (edges: EdgeMap)
    ensures OffersExactly(edges0, edges, NameReasons(listings)) && NamesLinked(listings, edges)
  {
    var groups, names := GroupByKey(Keys(listings, NameKey));
    GroupsAreNameGroups(listings, groups, names);
    edges := edges0;
    for g := 0 to |groups|
      invariant OfferedFor(edges0, edges, NameReasons(listings))
      invariant FirstNamesLinked(listings, groups, g, edges)
    {
      ghost var before := edges;
      NameFor(listings, groups, g);
      edges := LinkName(listings, groups, g, edges, NameReasons(listings));
      FirstNamesStay(listings, groups, g, before, edges);
    }
    assert GroupedByKey(Keys(listings, NameKey), |listings|, groups, names) && Anchored(listings, groups);
    NamesCover(listings, groups, edges);
  }

  /** The group of a listing that has a name. */
  lemma GroupOf(listings: seq<VenueListing>, groups: seq<seq<nat>>, i: nat) returns (g: nat)
    requires NameGroups(listings, groups) && i < |listings| && SameName(listings[i], listings[i])
    ensures g < |groups| && i in groups[g]
  {
    var head := FirstBearer(listings, i);
    g :| g < |groups| && groups[g][0] == head;
    assert NameGroup(listings, groups[g]);
  }

  lemma {:induction false} FirstBearer(listings: seq<VenueListing>, i: nat) returns (head: nat)
    requires i < |listings| && SameName(listings[i], listings[i])
    ensures First(listings, SameName, head) && SameName(listings[head], listings[i])
  {
    if k :| 0 <= k < i && SameName(listings[k], listings[i]) {
      head := FirstBearer(listings, k);
    } else {
      head := i;
    }
  }

  /** Every reason between names was offered. */
  lemma NamesCover(listings: seq<VenueListing>, groups: seq<seq<nat>>, edges: EdgeMap)
    requires Anchored(listings, groups) && NameGroups(listings, groups)
    requires FirstNamesLinked(listings, groups, |groups|, edges)
    ensures forall p, q: nat :: NameReasons(listings)(p, q) ==> p in edges && edges[p] <= q
  {
    forall p: Edge | NamedAlike(listings, p.0, p.1) ensures p in edges && edges[p] <= NAME_PRIORITY {
      AlikeCovers(listings, groups, edges, p);
    }
    forall a: nat, b: nat | NamedLonger(listings, a, b) ensures Offered(edges, a, b, EXTENSION_PRIORITY) {
      LongerCovers(listings, groups, edges, a, b);
    }
    forall p: Edge | ChainedLonger(listings, p.0, p.1) ensures p in edges && edges[p] <= EXTENSION_PRIORITY {
      ChainCovers(listings, groups, edges, p);
    }
    OfferedNames(listings, edges);
  }

  lemma OfferedNames(listings: seq<VenueListing>, edges: EdgeMap)
    requires forall p: Edge :: NamedAlike(listings, p.0, p.1) ==> p in edges && edges[p] <= NAME_PRIORITY
    requires forall a: nat, b: nat :: NamedLonger(listings, a, b) ==> Offered(edges, a, b, EXTENSION_PRIORITY)
    requires forall p: Edge :: ChainedLonger(listings, p.0, p.1) ==> p in edges && edges[p] <= EXTENSION_PRIORITY
    ensures forall p, q: nat :: NameReasons(listings)(p, q) ==> p in edges && edges[p] <= q
  {
    forall p, q: nat | NameReasons(listings)(p, q) ensures p in edges && edges[p] <= q {
      if q == EXTENSION_PRIORITY {
        if Offered(edges, p.0, p.1, q) {
          OfferedEdge(edges, p.0, p.1, p, q);
        }
        if Offered(edges, p.1, p.0, q) {
          OfferedEdge(edges, p.1, p.0, p, q);
        }
      }
    }
  }

  lemma OfferedEdge(edges: EdgeMap, a: nat, b: nat, p: Edge, priority: nat)
    requires Offered(edges, a, b, priority) && p == Oriented(a, b)
    ensures p in edges && edges[p] <= priority
  {
  }

  lemma AlikeCovers(listings: seq<VenueListing>, groups: seq<seq<nat>>, edges: EdgeMap, p: Edge)
    requires Anchored(listings, groups) && NameGroups(listings, groups)
    requires FirstNamesLinked(listings, groups, |groups|, edges) && NamedAlike(listings, p.0, p.1)
    ensures p in edges && edges[p] <= NAME_PRIORITY
  {
    var g := GroupOf(listings, groups, p.0);
    assert NameLinked(listings, groups, g, edges) && NameGroup(listings, groups[g]);
    NameCovers(listings, groups[g], edges, p);
  }

  lemma NameCovers(listings: seq<VenueListing>, group: seq<nat>, edges: EdgeMap, p: Edge)
    requires NameGroup(listings, group) && LinkedAll(edges, group, group, NAME_PRIORITY)
    requires p.0 in group && NamedAlike(listings, p.0, p.1)
    ensures p in edges && edges[p] <= NAME_PRIORITY
  {
    assert p.1 in group;
    if |group| * |group| <= LINK_ALL_LIMIT {
      assert Offered(edges, p.0, p.1, NAME_PRIORITY);
    } else if First(listings, SameName, p.0) {
      var k :| 0 <= k < |group| && group[k] == p.1;
      assert group[0] == p.0;
      assert Offered(edges, group[k], group[0], NAME_PRIORITY);
    } else {
      var k := PlaceOfNext(listings, group, p.0, p.1);
      assert Offered(edges, group[k - 1], group[k], NAME_PRIORITY);
    }
  }

  lemma PlaceOfNext(listings: seq<VenueListing>, group: seq<nat>, i: nat, j: nat) returns (k: nat)
    requires NameGroup(listings, group) && i in group && Next(listings, SameName, i, j)
    ensures 1 <= k < |group| && group[k - 1] == i && group[k] == j
  {
    forall x: nat | i < x < j ensures x !in group {
      assert !SameName(listings[x], listings[i]);
    }
    k := NextPlace(group, i, j);
  }

  lemma LongerCovers(listings: seq<VenueListing>, groups: seq<seq<nat>>, edges: EdgeMap, a: nat, b: nat)
    requires Anchored(listings, groups) && NameGroups(listings, groups)
    requires FirstNamesLinked(listings, groups, |groups|, edges) && NamedLonger(listings, a, b)
    ensures Offered(edges, a, b, EXTENSION_PRIORITY)
  {
    var head: nat, other: nat :| OnlyLonger(listings, head, other) && SameName(listings[head], listings[a])
      && if ManyPairs(listings, head, other) then b == other else SameName(listings[other], listings[b]);
    var g, h := LongerGroups(listings, groups, edges, head, other);
    assert a in groups[g] && b in groups[h];
    if |groups[g]| * |groups[h]| <= LINK_ALL_LIMIT {
      NamesApart(listings, head, other, a, b);
    } else {
      var k :| 0 <= k < |groups[g]| && groups[g][k] == a;
      assert Offered(edges, groups[g][k], groups[h][0], EXTENSION_PRIORITY);
    }
  }

  /** The two groups of a name and the only one a word longer are linked. */
  lemma LongerGroups(listings: seq<VenueListing>, groups: seq<seq<nat>>, edges: EdgeMap, head: nat, other: nat)
    returns (g: nat, h: nat)
    requires Anchored(listings, groups) && NameGroups(listings, groups)
    requires FirstNamesLinked(listings, groups, |groups|, edges) && OnlyLonger(listings, head, other)
    ensures g < |groups| && h < |groups| && groups[g][0] == head && groups[h][0] == other
    ensures NameGroup(listings, groups[g]) && NameGroup(listings, groups[h])
    ensures ManyPairs(listings, head, other) <==> |groups[g]| * |groups[h]| > LINK_ALL_LIMIT
    ensures LinkedAll(edges, groups[g], groups[h], EXTENSION_PRIORITY)
  {
    g :| g < |groups| && groups[g][0] == head;
    OneExtension(listings, groups, g);
    h := Extensions(listings, groups, g)[0];
    assert NameLinked(listings, groups, g, edges);
    assert NameGroup(listings, groups[g]) && NameGroup(listings, groups[h]);
    assert head in groups[g] && other in groups[h];
  }

  lemma NamesApart(listings: seq<VenueListing>, head: nat, other: nat, a: nat, b: nat)
    requires OnlyLonger(listings, head, other) && a < |listings| && b < |listings|
    requires SameName(listings[head], listings[a]) && SameName(listings[other], listings[b])
    ensures a != b
  {
    assert head != other;
    assert !SameName(listings[head], listings[other]) && !SameName(listings[other], listings[head]);
  }

  lemma ChainCovers(listings: seq<VenueListing>, groups: seq<seq<nat>>, edges: EdgeMap, p: Edge)
    requires Anchored(listings, groups) && NameGroups(listings, groups)
    requires FirstNamesLinked(listings, groups, |groups|, edges) && ChainedLonger(listings, p.0, p.1)
    ensures p in edges && edges[p] <= EXTENSION_PRIORITY
  {
    var head: nat, other: nat :| OnlyLonger(listings, head, other) && ManyPairs(listings, head, other)
      && SameName(listings[other], listings[p.0]);
    var g, h := LongerGroups(listings, groups, edges, head, other);
    var k := PlaceOfNext(listings, groups[h], p.0, p.1);
    assert Offered(edges, groups[h][k - 1], groups[h][k], EXTENSION_PRIORITY);
  }

  lemma NameStaysLinked(listings: seq<VenueListing>, groups: seq<seq<nat>>, g: nat, before: EdgeMap, after: EdgeMap)
    requires g < |groups| && Anchored(listings, groups) && NameLinked(listings, groups, g, before)
    requires Extends(before, after)
    ensures NameLinked(listings, groups, g, after)
  {
    LinksStay(before, after, groups[g], groups[g], NAME_PRIORITY);
    var extensions := Extensions(listings, groups, g);
    if |extensions| == 1 { LinksStay(before, after, groups[g], groups[extensions[0]], EXTENSION_PRIORITY); }
  }
}
