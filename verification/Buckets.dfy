/** Grouping the positions of a list by a key. */
module Buckets {
  import opened Listings

  /** The indexes below n with a key, ascending. */
  function MembersOf<K(==)>(keys: seq<Option<K>>, key: K, n: nat): seq<nat>
    requires n <= |keys|
  {
    if n == 0 then []
    else MembersOf(keys, key, n - 1) + if keys[n - 1] == Some(key) then [n - 1] else []
  }

  lemma {:induction false} MembersExact<K>(keys: seq<Option<K>>, key: K, n: nat)
    requires n <= |keys|
    ensures forall i: nat :: i in MembersOf(keys, key, n) <==> i < n && keys[i] == Some(key)
  {
    if n > 0 { MembersExact(keys, key, n - 1); }
  }

  /** groups partitions the keyed indexes below n: one group for each name. */
  ghost predicate GroupedByKey<K>(keys: seq<Option<K>>, n: nat, groups: seq<seq<nat>>, names: seq<K>)
    requires n <= |keys|
  {
    && |groups| == |names|
    && (forall g, h :: 0 <= g < h < |names| ==> names[g] != names[h])
    && (forall i :: 0 <= i < n && keys[i].Some? ==> keys[i].value in names)
    && (forall g :: 0 <= g < |groups| ==> groups[g] != [] && groups[g] == MembersOf(keys, names[g], n))
  }

  /** Where a name's group is. */
  ghost predicate Finds<K>(index: map<K, nat>, names: seq<K>) {
    && (forall k :: k in index ==> index[k] < |names| && names[index[k]] == k)
    && (forall k :: k in names ==> k in index)
  }

  method GroupByKey<K(==)>(keys: seq<Option<K>>) returns (groups: seq<seq<nat>>, ghost names: seq<K>)
    ensures GroupedByKey(keys, |keys|, groups, names)
  {
    groups, names := [], [];
    var index: map<K, nat> := map[];
    for i := 0 to |keys|
      invariant GroupedByKey(keys, i, groups, names) && Finds(index, names)
    {
      if keys[i].Some? {
        var k := keys[i].value;
        if k in index {
          GroupGrows(keys, i, groups, names, index[k]);
          groups := groups[index[k] := groups[index[k]] + [i]];
        } else {
          GroupBegins(keys, i, groups, names, k);
          index := index[k := |groups|];
          groups, names := groups + [[i]], names + [k];
        }
      } else {
        GroupsStay(keys, i, groups, names);
      }
    }
  }

  lemma GroupsStay<K>(keys: seq<Option<K>>, i: nat, groups: seq<seq<nat>>, names: seq<K>)
    requires i < |keys| && keys[i].None? && GroupedByKey(keys, i, groups, names)
    ensures GroupedByKey(keys, i + 1, groups, names)
  {
  }

  lemma GroupGrows<K>(keys: seq<Option<K>>, i: nat, groups: seq<seq<nat>>, names: seq<K>, at: nat)
    requires i < |keys| && GroupedByKey(keys, i, groups, names) && at < |names| && keys[i] == Some(names[at])
    ensures GroupedByKey(keys, i + 1, groups[at := groups[at] + [i]], names)
  {
    var after := groups[at := groups[at] + [i]];
    forall g | 0 <= g < |after| ensures after[g] != [] && after[g] == MembersOf(keys, names[g], i + 1) {
      assert groups[g] == MembersOf(keys, names[g], i);
    }
  }

  lemma GroupBegins<K>(keys: seq<Option<K>>, i: nat, groups: seq<seq<nat>>, names: seq<K>, k: K)
    requires i < |keys| && GroupedByKey(keys, i, groups, names) && k !in names && keys[i] == Some(k)
    ensures GroupedByKey(keys, i + 1, groups + [[i]], names + [k])
  {
    MembersExact(keys, k, i);
    NoMembers(MembersOf(keys, k, i));
    var after, longer := groups + [[i]], names + [k];
    forall g | 0 <= g < |after| ensures after[g] != [] && after[g] == MembersOf(keys, longer[g], i + 1) {
      if g < |groups| { assert groups[g] == MembersOf(keys, names[g], i) && names[g] in names; }
    }
    forall j | 0 <= j < i + 1 && keys[j].Some? ensures keys[j].value in longer {
      assert j < i ==> keys[j].value in names;
      assert longer[|names|] == k;
    }
  }

  lemma NoMembers(members: seq<nat>)
    requires forall i: nat :: i !in members
    ensures members == []
  {
    if members != [] { HeadIsMember(members); }
  }

  lemma HeadIsMember(members: seq<nat>)
    requires members != []
    ensures members[0] in members
  {
  }

  lemma {:induction false} MembersAscend<K>(keys: seq<Option<K>>, key: K, n: nat)
    requires n <= |keys|
    ensures Rising(MembersOf(keys, key, n))
    ensures forall k :: 0 <= k < |MembersOf(keys, key, n)| ==> MembersOf(keys, key, n)[k] < n
  {
    if n > 0 { MembersAscend(keys, key, n - 1); }
  }

  predicate Rising(s: seq<nat>) { forall x, y :: 0 <= x < y < |s| ==> s[x] < s[y] }

  lemma NothingBetween(s: seq<nat>, k: nat, x: nat)
    requires Rising(s) && 1 <= k < |s| && s[k - 1] < x < s[k]
    ensures x !in s
  {
    forall h | 0 <= h < |s| ensures s[h] != x {
      if h < k - 1 {
        assert s[h] < s[k - 1];
      } else if h > k {
        assert s[k] < s[h];
      }
    }
  }

  lemma NextPlace(s: seq<nat>, i: nat, j: nat) returns (k: nat)
    requires Rising(s) && i in s && j in s && i < j && forall x: nat :: i < x < j ==> x !in s
    ensures 1 <= k < |s| && s[k - 1] == i && s[k] == j
  {
    var h :| 0 <= h < |s| && s[h] == i;
    k :| 0 <= k < |s| && s[k] == j;
    assert h < k;
    assert s[h + 1] in s && i < s[h + 1];
  }

  lemma {:induction false} CountMembers<K>(keys: seq<Option<K>>, key: K, n: nat)
    requires n <= |keys|
    ensures |set i: nat | i < n && keys[i] == Some(key)| == |MembersOf(keys, key, n)|
  {
    if n > 0 {
      CountMembers(keys, key, n - 1);
      var all, fewer := set i: nat | i < n && keys[i] == Some(key), set i: nat | i < n - 1 && keys[i] == Some(key);
      assert all == fewer + if keys[n - 1] == Some(key) then {n - 1} else {};
    }
  }
}
