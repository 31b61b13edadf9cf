/** The parent forest behind both union-finds of the identity code, and the two
    classes built on it.  Parents never exceed their children, so the root of an
    index is also the smallest index of its class. */
module UnionFind {

  ghost predicate Forest(p: seq<nat>) {
    forall i :: 0 <= i < |p| ==> p[i] <= i
  }

  /** The class representative of index i. */
  ghost function Root(p: seq<nat>, i: nat): (r: nat)
    requires Forest(p) && i < |p|
    ensures r <= i && p[r] == r
    decreases i
  {
    if p[i] == i then i else Root(p, p[i])
  }

  ghost predicate SameRoots(p: seq<nat>, q: seq<nat>) {
    && |p| == |q| && Forest(p) && Forest(q)
    && forall j :: 0 <= j < |p| ==> Root(p, j) == Root(q, j)
  }

  /** roots lists the class representative of every index. */
  ghost predicate Labels(p: seq<nat>, roots: seq<nat>) {
    Forest(p) && |roots| == |p| && forall i :: 0 <= i < |p| ==> Root(p, i) == roots[i]
  }

  /** q is p after the classes of roots a and b were joined. */
  ghost predicate Joined(p: seq<nat>, q: seq<nat>, a: nat, b: nat) {
    && |p| == |q| && Forest(p) && Forest(q)
    && var keep, drop := if a < b then a else b, if a < b then b else a;
    && forall j :: 0 <= j < |p| ==> Root(q, j) == if Root(p, j) == drop then keep else Root(p, j)
  }

  /** The root is the smallest member of its class. */
  lemma RootIsSmallest(p: seq<nat>, i: nat, j: nat)
    requires Forest(p) && i < |p| && j < |p| && Root(p, i) == Root(p, j)
    ensures Root(p, i) <= j && Root(p, Root(p, i)) == Root(p, i)
  {
  }

  /** Path compression at one index changes no class. */
  lemma {:induction false} CompressKeepsRoots(p: seq<nat>, i: nat, j: nat)
    requires Forest(p) && i < |p| && j < |p|
    ensures Forest(p[i := Root(p, i)])
    ensures Root(p[i := Root(p, i)], j) == Root(p, j)
    decreases j
  {
    var q := p[i := Root(p, i)];
    if q[j] != j {
      CompressKeepsRoots(p, i, q[j]);
    }
  }

  /** Hanging the larger root under the smaller one joins exactly two classes. */
  lemma {:induction false} LinkJoins(p: seq<nat>, keep: nat, drop: nat, j: nat)
    requires Forest(p) && keep < drop < |p| && p[keep] == keep && p[drop] == drop && j < |p|
    ensures Forest(p[drop := keep])
    ensures Root(p[drop := keep], j) == if Root(p, j) == drop then keep else Root(p, j)
    decreases j
  {
    var q := p[drop := keep];
    if p[j] != j {
      LinkJoins(p, keep, drop, p[j]);
    } else if j == drop {
      assert Root(q, keep) == keep;
    }
  }

  lemma LinkedForest(p: seq<nat>, keep: nat, drop: nat)
    requires Forest(p) && keep < drop < |p| && p[keep] == keep && p[drop] == drop
    ensures Forest(p[drop := keep]) && Joined(p, p[drop := keep], keep, drop)
  {
    forall j | 0 <= j < |p|
      ensures Forest(p[drop := keep]) && Root(p[drop := keep], j) == if Root(p, j) == drop then keep else Root(p, j)
    {
      LinkJoins(p, keep, drop, j);
    }
  }

  /** `find`: walk to the root, then point every index of the walked path at it. */
  method FindRoot(parent: array<nat>, start: nat) returns (root: nat)
    requires Forest(parent[..]) && start < parent.Length
    modifies parent
    ensures SameRoots(old(parent[..]), parent[..])
    ensures root == Root(old(parent[..]), start)
  {
    ghost var before := parent[..];
    root := start;
    while parent[root] != root
      invariant root <= start
      invariant parent[..] == before
      invariant Root(before, root) == Root(before, start)
      decreases root
    {
      root := parent[root];
    }
    var index: nat := start;
    while parent[index] != index
      invariant index <= start
      invariant SameRoots(before, parent[..])
      invariant Root(before, index) == root
      decreases index
    {
      var next := parent[index];
      assert next == parent[..][index];
      ghost var now := parent[..];
      forall j | 0 <= j < |now| ensures Forest(now[index := root]) && Root(now[index := root], j) == Root(now, j) {
        CompressKeepsRoots(now, index, j);
      }
      parent[index] := root;
      assert parent[..] == now[index := root];
      index := next;
    }
  }

  /** The disjoint-set forest with explicit member lists used by venue and
      session resolution. */
  class DisjointSet {
    const parent: array<nat>
    const componentMembers: array<seq<nat>>

    ghost predicate Valid()
      reads this, parent, componentMembers
    {
      && parent as object != componentMembers as object
      && parent.Length == componentMembers.Length
      && Forest(parent[..])
      && (forall r :: 0 <= r < parent.Length && parent[r] == r ==> ListsClass(parent[..], r, componentMembers[r]))
    }

    ghost function Size(): nat reads this { parent.Length }

    /** The class representative of each index. */
    ghost function RootOf(i: nat): (r: nat)
      requires Valid() && i < Size()
      reads this, parent, componentMembers
      ensures r <= i && r < Size() && parent[r] == r
    {
      Root(parent[..], i)
    }

    constructor (size: nat)
      ensures Valid() && fresh(parent) && fresh(componentMembers)
      ensures Labels(parent[..], seq(size, i => i))
    {
      parent := new nat[size](i => i);
      componentMembers := new seq<nat>[size](i => [i]);
    }

    method Find(index: nat) returns (root: nat)
      requires Valid() && index < Size()
      modifies parent
      ensures Valid() && root == RootOf(index) == old(RootOf(index))
      ensures SameRoots(old(parent[..]), parent[..])
      ensures componentMembers[..] == old(componentMembers[..])
    {
      root := FindRoot(parent, index);
      SameRootsSameLists(old(parent[..]), parent[..]);
    }

    /** Hangs one root under a smaller one, which takes over its list. */
    method Link(root: nat, child: nat)
      requires Valid() && root < child < Size() && parent[root] == root && parent[child] == child
      modifies parent, componentMembers
      ensures Valid()
      ensures Joined(old(parent[..]), parent[..], root, child)
    {
      ghost var p, lists := parent[..], componentMembers[..];
      assert ListsClass(p, root, lists[root]) && ListsClass(p, child, lists[child]);
      LinkedForest(p, root, child);
      parent[child] := root;
      assert parent[..] == p[child := root];
      componentMembers[root] := componentMembers[root] + componentMembers[child];
      componentMembers[child] := [];
      JoinedLists(p, root, child, lists[root], lists[child]);
      forall r | 0 <= r < parent.Length && parent[r] == r
        ensures ListsClass(parent[..], r, componentMembers[r])
      {
        if r != root {
          assert r != child && ListsClass(p, r, lists[r]);
        }
      }
    }

    /** Joins the two classes; the smaller root survives and takes over both lists. */
    method Union(left: nat, right: nat) returns (root: nat)
      requires Valid() && left < Size() && right < Size()
      modifies parent, componentMembers
      ensures Valid()
      ensures Joined(old(parent[..]), parent[..], old(RootOf(left)), old(RootOf(right)))
      ensures root == RootOf(left) == RootOf(right)
      ensures root == if old(RootOf(left)) < old(RootOf(right)) then old(RootOf(left)) else old(RootOf(right))
    {
      var a := Find(left);
      var b := Find(right);
      if a == b {
        return a;
      }
      root := if a < b then a else b;
      var child := if a < b then b else a;
      Link(root, child);
    }

    /** The members of index's class, without repetition. */
    method Members(index: nat) returns (members: seq<nat>)
      requires Valid() && index < Size()
      modifies parent
      ensures Valid() && SameRoots(old(parent[..]), parent[..])
      ensures componentMembers[..] == old(componentMembers[..])
      ensures ListsClass(parent[..], RootOf(index), members)
    {
      var root := Find(index);
      members := componentMembers[root];
    }
  }

  /** The member list of root r: exactly its class, each index once. */
  ghost predicate ListsClass(p: seq<nat>, r: nat, members: seq<nat>) {
    && Forest(p)
    && (forall j :: j in members ==> j < |p| && Root(p, j) == r)
    && (forall j :: 0 <= j < |p| && Root(p, j) == r ==> j in members)
    && (forall x, y :: 0 <= x < y < |members| ==> members[x] != members[y])
  }

  lemma ListedInRange(p: seq<nat>, r: nat, members: seq<nat>)
    requires ListsClass(p, r, members)
    ensures forall k :: 0 <= k < |members| ==> members[k] < |p|
  {
    forall k | 0 <= k < |members| ensures members[k] < |p| {
      assert members[k] in members;
    }
  }

  lemma SameRootsSameLists(p: seq<nat>, q: seq<nat>)
    requires SameRoots(p, q)
    ensures forall r :: 0 <= r < |p| ==> (p[r] == r <==> q[r] == r)
    ensures forall r, ms :: ListsClass(p, r, ms) ==> ListsClass(q, r, ms)
  {
    forall r | 0 <= r < |p| ensures p[r] == r <==> q[r] == r {
      assert Root(p, r) == Root(q, r);
    }
  }

  lemma JoinedLists(p: seq<nat>, keep: nat, drop: nat, kept: seq<nat>, dropped: seq<nat>)
    requires Forest(p) && keep < drop < |p|
    requires ListsClass(p, keep, kept) && ListsClass(p, drop, dropped)
    requires Joined(p, p[drop := keep], keep, drop)
    ensures ListsClass(p[drop := keep], keep, kept + dropped)
  {
    var q, both := p[drop := keep], kept + dropped;
    forall x, y | 0 <= x < y < |both| ensures both[x] != both[y] {
      if x < |kept| <= y {
        var left, right := kept[x], dropped[y - |kept|];
        assert left in kept && right in dropped && both[x] == left && both[y] == right;
      }
    }
    forall j | 0 <= j < |q| && Root(q, j) == keep ensures j in both {
      assert Root(p, j) == keep || Root(p, j) == drop;
    }
  }

  /** The forest without member lists used by the judgment pass. */
  class SessionSets {
    const parent: array<nat>

    ghost predicate Valid()
      reads this, parent
    {
      Forest(parent[..])
    }

    ghost function RootOf(i: nat): (r: nat)
      requires Valid() && i < parent.Length
      reads this, parent
      ensures r <= i && parent[r] == r
    {
      Root(parent[..], i)
    }

    constructor (size: nat)
      ensures Valid() && fresh(parent)
      ensures Labels(parent[..], seq(size, i => i))
    {
      parent := new nat[size](i => i);
    }

    method Find(index: nat) returns (root: nat)
      requires Valid() && index < parent.Length
      modifies parent
      ensures Valid() && root == RootOf(index) == old(RootOf(index))
      ensures SameRoots(old(parent[..]), parent[..])
    {
      root := FindRoot(parent, index);
    }

    method Union(left: nat, right: nat)
      requires Valid() && left < parent.Length && right < parent.Length
      modifies parent
      ensures Valid()
      ensures Joined(old(parent[..]), parent[..], old(RootOf(left)), old(RootOf(right)))
    {
      var a := Find(left);
      var b := Find(right);
      if a != b {
        var keep: nat, drop: nat := if a < b then a else b, if a < b then b else a;
        ghost var p := parent[..];
        LinkedForest(p, keep, drop);
        parent[drop] := keep;
        assert parent[..] == p[drop := keep];
      }
    }
  }
}
