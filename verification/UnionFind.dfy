/** Disjoint sets over hashes: union by rank with path compression, kept in two maps. */
module UnionFind {
  import opened Basics
  import opened Graphs

  /** An element that is no key is its own parent and has rank 0. */
  datatype Forest = Forest(parent: map<Hash, Hash>, rank: map<Hash, nat>)

  function Rank(f: Forest, x: Hash): nat {
    if x in f.rank then f.rank[x] else 0
  }

  function Parent(f: Forest, x: Hash): Hash {
    if x in f.parent then f.parent[x] else x
  }

  /** The rank strictly increases along every parent link. */
  ghost predicate Ranked(f: Forest) {
    forall x :: x in f.parent && f.parent[x] != x ==> Rank(f, x) < Rank(f, f.parent[x])
  }

  ghost function Above(f: Forest, x: Hash): set<Hash> {
    set y | y in f.rank && f.rank[y] > Rank(f, x)
  }

  lemma AboveShrinks(f: Forest, x: Hash)
    requires Ranked(f) && Parent(f, x) != x
    ensures |Above(f, Parent(f, x))| < |Above(f, x)|
  {
    var p := Parent(f, x);
    assert p in Above(f, x) && p !in Above(f, p);
    SubsetCardinality(Above(f, p), Above(f, x));
  }

  ghost function Root(f: Forest, x: Hash): Hash
    requires Ranked(f)
    decreases |Above(f, x)|
  {
    if Parent(f, x) == x then x else AboveShrinks(f, x); Root(f, Parent(f, x))
  }

  lemma {:induction false} RootFacts(f: Forest, x: Hash)
    requires Ranked(f)
    ensures Parent(f, Root(f, x)) == Root(f, x)
    ensures x != Root(f, x) ==> Rank(f, x) < Rank(f, Root(f, x))
    decreases |Above(f, x)|
  {
    if Parent(f, x) != x {
      AboveShrinks(f, x);
      RootFacts(f, Parent(f, x));
    }
  }

  // ----- the two updates -----

  function Compress(f: Forest, x: Hash, root: Hash): Forest {
    f.(parent := f.parent[x := root])
  }

  /** Pointing a node straight at its root changes no root. */
  lemma CompressRanked(f: Forest, x: Hash)
    requires Ranked(f) && Root(f, x) != x
    ensures Ranked(Compress(f, x, Root(f, x)))
  {
    RootFacts(f, x);
  }

  lemma {:induction false} CompressKeepsRoots(f: Forest, x: Hash, y: Hash)
    requires Ranked(f) && Root(f, x) != x
    ensures Ranked(Compress(f, x, Root(f, x)))
    ensures Root(Compress(f, x, Root(f, x)), y) == Root(f, y)
    decreases |Above(f, y)|
  {
    CompressRanked(f, x);
    var g := Compress(f, x, Root(f, x));
    if y == x {
      RootFacts(f, x);
      assert Root(g, Root(f, x)) == Root(f, x);
    } else if Parent(f, y) != y {
      AboveShrinks(f, y);
      CompressKeepsRoots(f, x, Parent(f, y));
    }
  }

  /** Hang root `a` under root `b`, whose rank may have been raised by one. */
  function Link(f: Forest, a: Hash, b: Hash, rankOfB: nat): Forest {
    Forest(f.parent[a := b], if rankOfB == Rank(f, b) then f.rank else f.rank[b := rankOfB])
  }

  ghost predicate Linkable(f: Forest, a: Hash, b: Hash, rankOfB: nat) {
    && Ranked(f) && a != b && Parent(f, a) == a && Parent(f, b) == b
    && Rank(f, a) < rankOfB && Rank(f, b) <= rankOfB
  }

  lemma LinkRanked(f: Forest, a: Hash, b: Hash, rankOfB: nat)
    requires Linkable(f, a, b, rankOfB)
    ensures Ranked(Link(f, a, b, rankOfB))
    ensures forall x :: Rank(Link(f, a, b, rankOfB), x) == if x == b then rankOfB else Rank(f, x)
  {
  }

  /** Linking merges exactly two classes. */
  lemma {:induction false} LinkRoots(f: Forest, a: Hash, b: Hash, rankOfB: nat, x: Hash)
    requires Linkable(f, a, b, rankOfB)
    ensures Ranked(Link(f, a, b, rankOfB))
    ensures Root(Link(f, a, b, rankOfB), x) == if Root(f, x) == a then b else Root(f, x)
    decreases |Above(f, x)|
  {
    LinkRanked(f, a, b, rankOfB);
    var g := Link(f, a, b, rankOfB);
    assert Root(g, b) == b;
    if Parent(f, x) != x {
      AboveShrinks(f, x);
      LinkRoots(f, a, b, rankOfB, Parent(f, x));
    }
  }

  /** Parents and ranked elements are keys: holds as long as the first end of every union is one. */
  ghost predicate KeysClosed(f: Forest) {
    f.rank.Keys <= f.parent.Keys && forall x :: ParentIsKey(f, x)
  }

  ghost predicate ParentIsKey(f: Forest, x: Hash) {
    x in f.parent ==> f.parent[x] in f.parent
  }

  lemma {:induction false} RootIsKey(f: Forest, x: Hash)
    requires Ranked(f) && KeysClosed(f) && x in f.parent
    ensures Root(f, x) in f.parent
    decreases |Above(f, x)|
  {
    if Parent(f, x) != x {
      AboveShrinks(f, x);
      assert ParentIsKey(f, x);
      RootIsKey(f, Parent(f, x));
    }
  }

  // ----- the equivalence closure of the unions -----

  function Neighbours(edges: set<(Hash, Hash)>, x: Hash): set<Hash> {
    (set e | e in edges && e.0 == x :: e.1) + (set e | e in edges && e.1 == x :: e.0)
  }

  /** Every union read as an edge in both directions. */
  function Undirected(edges: set<(Hash, Hash)>): Graph {
    map x | x in (set e | e in edges :: e.0) + (set e | e in edges :: e.1) :: Neighbours(edges, x)
  }

  /** The reflexive, symmetric and transitive closure of the unions. */
  ghost predicate Connected(edges: set<(Hash, Hash)>, x: Hash, y: Hash) {
    Reach(Undirected(edges), x, y)
  }

  lemma UndirectedEdge(edges: set<(Hash, Hash)>, x: Hash, y: Hash)
    ensures y in Out(Undirected(edges), x) <==> (x, y) in edges || (y, x) in edges
  {
    if (x, y) in edges {
      assert (x, y).1 in Neighbours(edges, x);
    }
    if (y, x) in edges {
      assert (y, x).0 in Neighbours(edges, x);
    }
  }

  lemma {:induction false} PathReversed(edges: set<(Hash, Hash)>, p: seq<Hash>)
    requires IsPath(Undirected(edges), p)
    ensures Connected(edges, p[|p| - 1], p[0])
    decreases |p|
  {
    var g := Undirected(edges);
    if |p| == 1 {
      ReachRefl(g, p[0]);
    } else {
      PathPieces(g, p, 1);
      PathReversed(edges, p[1..]);
      assert EdgeAt(g, p, 0);
      UndirectedEdge(edges, p[0], p[1]);
      UndirectedEdge(edges, p[1], p[0]);
      ReachEdge(g, p[1], p[0]);
      ReachTrans(g, p[|p| - 1], p[1], p[0]);
    }
  }

  lemma ConnectedSymmetric(edges: set<(Hash, Hash)>, x: Hash, y: Hash)
    requires Connected(edges, x, y)
    ensures Connected(edges, y, x)
  {
    var p :| IsPath(Undirected(edges), p) && p[0] == x && p[|p| - 1] == y;
    PathReversed(edges, p);
  }

  lemma ConnectedGrows(edges: set<(Hash, Hash)>, more: set<(Hash, Hash)>, x: Hash, y: Hash)
    requires edges <= more && Connected(edges, x, y)
    ensures Connected(more, x, y)
  {
    forall z
      ensures Out(Undirected(edges), z) <= Out(Undirected(more), z)
    {
      forall w | w in Out(Undirected(edges), z)
        ensures w in Out(Undirected(more), z)
      {
        UndirectedEdge(edges, z, w);
        UndirectedEdge(more, z, w);
      }
    }
    ReachMonotone(Undirected(edges), Undirected(more), x, y);
  }

  ghost predicate ReachesRoot(f: Forest, edges: set<(Hash, Hash)>, x: Hash)
    requires Ranked(f)
  {
    Connected(edges, x, Root(f, x))
  }

  /** Every element is connected to its root and every union's ends share a root. */
  ghost predicate Represents(f: Forest, edges: set<(Hash, Hash)>) {
    && Ranked(f)
    && (forall x :: ReachesRoot(f, edges, x))
    && (forall e :: e in edges ==> Root(f, e.0) == Root(f, e.1))
  }

  lemma {:induction false} PathOneRoot(f: Forest, edges: set<(Hash, Hash)>, p: seq<Hash>)
    requires Represents(f, edges) && IsPath(Undirected(edges), p)
    ensures Root(f, p[0]) == Root(f, p[|p| - 1])
    decreases |p|
  {
    if |p| == 1 {
    } else {
      PathPieces(Undirected(edges), p, 1);
      PathOneRoot(f, edges, p[1..]);
      assert EdgeAt(Undirected(edges), p, 0);
      UndirectedEdge(edges, p[0], p[1]);
      assert Root(f, p[0]) == Root(f, p[1]) by {
        if (p[0], p[1]) in edges {
          assert Root(f, (p[0], p[1]).0) == Root(f, (p[0], p[1]).1);
        } else {
          assert Root(f, (p[1], p[0]).0) == Root(f, (p[1], p[0]).1);
        }
      }
    }
  }

  /** Two elements have one root exactly when the unions connect them. */
  lemma ClassesAreClosure(f: Forest, edges: set<(Hash, Hash)>, x: Hash, y: Hash)
    requires Represents(f, edges)
    ensures Root(f, x) == Root(f, y) <==> Connected(edges, x, y)
  {
    if Root(f, x) == Root(f, y) {
      assert ReachesRoot(f, edges, x) && ReachesRoot(f, edges, y);
      ConnectedSymmetric(edges, y, Root(f, y));
      ReachTrans(Undirected(edges), x, Root(f, x), y);
    }
    if Connected(edges, x, y) {
      var p :| IsPath(Undirected(edges), p) && p[0] == x && p[|p| - 1] == y;
      PathOneRoot(f, edges, p);
    }
  }

  lemma UnionRepresents(f: Forest, g: Forest, edges: set<(Hash, Hash)>, x: Hash, y: Hash, a: Hash, b: Hash)
    requires Represents(f, edges) && Ranked(g)
    requires (Root(f, x) == a && Root(f, y) == b) || (Root(f, x) == b && Root(f, y) == a)
    requires forall z :: Root(g, z) == if Root(f, z) == a then b else Root(f, z)
    ensures Represents(g, edges + {(x, y)})
  {
    var more := edges + {(x, y)};
    assert Connected(more, a, b) by {
      UndirectedEdge(more, x, y);
      ReachEdge(Undirected(more), x, y);
      assert ReachesRoot(f, edges, x) && ReachesRoot(f, edges, y);
      ConnectedGrows(edges, more, x, Root(f, x));
      ConnectedGrows(edges, more, y, Root(f, y));
      ConnectedSymmetric(more, x, Root(f, x));
      ReachTrans(Undirected(more), Root(f, x), x, y);
      ReachTrans(Undirected(more), Root(f, x), y, Root(f, y));
      ConnectedSymmetric(more, Root(f, x), Root(f, y));
    }
    forall z
      ensures ReachesRoot(g, more, z)
    {
      assert ReachesRoot(f, edges, z);
      ConnectedGrows(edges, more, z, Root(f, z));
      if Root(f, z) == a {
        ReachTrans(Undirected(more), z, a, b);
      }
    }
    forall e | e in more
      ensures Root(g, e.0) == Root(g, e.1)
    {
      if e in edges {
        assert Root(f, e.0) == Root(f, e.1);
      }
    }
  }

  lemma SameRootsRepresent(f: Forest, g: Forest, edges: set<(Hash, Hash)>, more: set<(Hash, Hash)>)
    requires Represents(f, edges) && Ranked(g) && forall z :: Root(g, z) == Root(f, z)
    requires edges <= more && forall e :: e in more ==> Root(f, e.0) == Root(f, e.1)
    ensures Represents(g, more)
  {
    forall z
      ensures ReachesRoot(g, more, z)
    {
      assert ReachesRoot(f, edges, z);
      ConnectedGrows(edges, more, z, Root(f, z));
    }
  }

  // ----- rank against class size -----

  function Pow2(n: nat): nat {
    if n == 0 then 1 else 2 * Pow2(n - 1)
  }

  ghost function Members(f: Forest, r: Hash): set<Hash>
    requires Ranked(f)
  {
    set x | x in f.parent.Keys + f.rank.Keys + {r} && Root(f, x) == r
  }

  ghost predicate BigEnough(f: Forest, r: Hash)
    requires Ranked(f)
  {
    Parent(f, r) == r ==> Pow2(Rank(f, r)) <= |Members(f, r)|
  }

  /** A class of rank k has at least 2^k members. */
  ghost predicate Balanced(f: Forest)
    requires Ranked(f)
  {
    forall r :: BigEnough(f, r)
  }

  lemma SameMembersBalanced(f: Forest, g: Forest)
    requires Ranked(f) && Ranked(g) && Balanced(f)
    requires forall x :: Root(g, x) == Root(f, x)
    requires forall x :: Rank(g, x) == Rank(f, x)
    requires f.parent.Keys + f.rank.Keys <= g.parent.Keys + g.rank.Keys
    ensures Balanced(g)
  {
    forall r
      ensures BigEnough(g, r)
    {
      assert BigEnough(f, r);
      if Parent(g, r) == r {
        assert Root(g, r) == r;
        RootFacts(f, r);
        SubsetCardinality(Members(f, r), Members(g, r));
      }
    }
  }

  lemma LinkMembers(f: Forest, a: Hash, b: Hash, rankOfB: nat, r: Hash)
    requires Linkable(f, a, b, rankOfB) && r != a
    ensures Ranked(Link(f, a, b, rankOfB))
    ensures Members(f, r) <= Members(Link(f, a, b, rankOfB), r)
    ensures r == b ==> Members(f, a) <= Members(Link(f, a, b, rankOfB), r)
  {
    LinkRanked(f, a, b, rankOfB);
    forall x {
      LinkRoots(f, a, b, rankOfB, x);
    }
  }

  lemma LinkBalanced(f: Forest, a: Hash, b: Hash, rankOfB: nat)
    requires Linkable(f, a, b, rankOfB) && Balanced(f)
    requires rankOfB == Rank(f, b) || (rankOfB == Rank(f, b) + 1 && Rank(f, a) == Rank(f, b))
    ensures Ranked(Link(f, a, b, rankOfB)) && Balanced(Link(f, a, b, rankOfB))
  {
    LinkRanked(f, a, b, rankOfB);
    var g := Link(f, a, b, rankOfB);
    forall r
      ensures BigEnough(g, r)
    {
      if Parent(g, r) == r {
        assert r != a;
        assert BigEnough(f, r) && BigEnough(f, a);
        LinkMembers(f, a, b, rankOfB, r);
        SubsetCardinality(Members(f, r), Members(g, r));
        if r == b {
          TwoClasses(f, a, b, Members(g, b));
        }
      }
    }
  }

  lemma TwoClasses(f: Forest, a: Hash, b: Hash, merged: set<Hash>)
    requires Ranked(f) && a != b && Members(f, a) <= merged && Members(f, b) <= merged
    ensures |Members(f, a)| + |Members(f, b)| <= |merged|
  {
    assert Members(f, a) !! Members(f, b);
    SubsetCardinality(Members(f, a) + Members(f, b), merged);
  }

  lemma LinkStep(f: Forest, edges: set<(Hash, Hash)>, x: Hash, y: Hash, a: Hash, b: Hash, rankOfB: nat)
    requires Represents(f, edges) && Balanced(f) && Linkable(f, a, b, rankOfB)
    requires rankOfB == Rank(f, b) || (rankOfB == Rank(f, b) + 1 && Rank(f, a) == Rank(f, b))
    requires (Root(f, x) == a && Root(f, y) == b) || (Root(f, x) == b && Root(f, y) == a)
    ensures var g := Link(f, a, b, rankOfB); Represents(g, edges + {(x, y)}) && Balanced(g)
  {
    LinkRanked(f, a, b, rankOfB);
    forall z
      ensures Root(Link(f, a, b, rankOfB), z) == if Root(f, z) == a then b else Root(f, z)
    {
      LinkRoots(f, a, b, rankOfB, z);
    }
    LinkBalanced(f, a, b, rankOfB);
    UnionRepresents(f, Link(f, a, b, rankOfB), edges, x, y, a, b);
  }

  lemma CompressStep(f: Forest, edges: set<(Hash, Hash)>, x: Hash)
    requires Represents(f, edges) && Balanced(f) && Root(f, x) != x
    ensures var g := Compress(f, x, Root(f, x));
            && Represents(g, edges) && Balanced(g) && g.parent.Keys == f.parent.Keys + {x}
            && (forall y :: Root(g, y) == Root(f, y))
            && (KeysClosed(f) ==> KeysClosed(g) && Root(f, x) in g.parent)
  {
    var g := Compress(f, x, Root(f, x));
    CompressRanked(f, x);
    forall y
      ensures Root(g, y) == Root(f, y)
    {
      CompressKeepsRoots(f, x, y);
    }
    SameRootsRepresent(f, g, edges, edges);
    SameMembersBalanced(f, g);
    if KeysClosed(f) {
      assert x in f.parent;
      RootIsKey(f, x);
      forall y
        ensures ParentIsKey(g, y)
      {
        assert ParentIsKey(f, y);
      }
    }
  }

  /** Hanging `a` under a key makes it one. */
  lemma LinkKeys(f: Forest, a: Hash, b: Hash, rankOfB: nat)
    requires KeysClosed(f) && b in f.parent
    ensures KeysClosed(Link(f, a, b, rankOfB)) && Link(f, a, b, rankOfB).parent.Keys == f.parent.Keys + {a}
  {
    forall y
      ensures ParentIsKey(Link(f, a, b, rankOfB), y)
    {
      assert ParentIsKey(f, y);
    }
  }

  // ----- the program's structure -----

  class DisjointSetUnion {
    var parent: map<Hash, Hash>
    var rank: map<Hash, nat>
    /** The unions made so far. */
    ghost var edges: set<(Hash, Hash)>

    ghost function F(): Forest
      reads this
    {
      Forest(parent, rank)
    }

    ghost predicate Valid()
      reads this
    {
      Represents(F(), edges) && Balanced(F())
    }

    constructor ()
      ensures Valid() && edges == {} && parent == map[] && rank == map[]
    {
      parent := map[];
      rank := map[];
      edges := {};
      new;
      forall x
        ensures ReachesRoot(F(), edges, x)
        ensures BigEnough(F(), x)
      {
        ReachRefl(Undirected(edges), x);
        assert x in Members(F(), x);
      }
    }

    method MakeSet(x: Hash)
      requires Valid()
      modifies this`parent, this`rank
      ensures Valid() && parent.Keys == old(parent.Keys) + {x}
      ensures forall y :: Root(F(), y) == old(Root(F(), y))
      ensures old(KeysClosed(F())) ==> KeysClosed(F())
    {
      ghost var f := F();
      if x !in parent {
        parent := parent[x := x];
      }
      if x !in rank {
        rank := rank[x := 0];
      }
      assert forall y :: Rank(F(), y) == Rank(f, y) && Parent(F(), y) == Parent(f, y);
      SameParentsSameRoots(f, F());
      SameRootsRepresent(f, F(), edges, edges);
      SameMembersBalanced(f, F());
      if KeysClosed(f) {
        forall y
          ensures ParentIsKey(F(), y)
        {
          assert ParentIsKey(f, y);
        }
      }
    }

    method Find(x: Hash) returns (root: Hash)
      requires Valid()
      modifies this`parent
      ensures Valid() && root == old(Root(F(), x)) && parent.Keys == old(parent.Keys)
      ensures forall y :: Root(F(), y) == old(Root(F(), y))
      ensures old(KeysClosed(F())) ==> KeysClosed(F()) && if x in old(parent) then root in parent else root == x
      decreases |Above(F(), x)|
    {
      if x in parent {
        var p := parent[x];
        if p != x {
          AboveShrinks(F(), x);
          RootFacts(F(), x);
          RootFacts(F(), p);
          assert KeysClosed(F()) ==> ParentIsKey(F(), x);
          root := Find(p);
          ghost var f := F();
          assert Root(f, x) == root != x;
          CompressStep(f, edges, x);
          parent := parent[x := root];
          assert F() == Compress(f, x, root);
          return;
        }
      }
      root := x;
    }

    method Union(x: Hash, y: Hash)
      requires Valid()
      modifies this
      ensures Valid() && edges == old(edges) + {(x, y)}
      ensures old(parent.Keys) <= parent.Keys
      ensures old(KeysClosed(F())) && x in old(parent) ==> KeysClosed(F()) && parent.Keys == old(parent.Keys) + {y}
    {
      var root1 := Find(x);
      var root2 := Find(y);
      RootFacts(F(), x);
      RootFacts(F(), y);
      if root1 == root2 {
        SameRootsRepresent(F(), F(), edges, edges + {(x, y)});
        edges := edges + {(x, y)};
      } else {
        Attach(root1, root2, x, y);
      }
    }

    /** The lower-ranked root goes under the other one; between equals the first one wins and rises. */
    method Attach(root1: Hash, root2: Hash, ghost x: Hash, ghost y: Hash)
      requires Valid() && root1 != root2
      requires Root(F(), x) == root1 && Root(F(), y) == root2 && Parent(F(), root1) == root1 && Parent(F(), root2) == root2
      modifies this
      ensures Valid() && edges == old(edges) + {(x, y)} && old(parent.Keys) <= parent.Keys
      ensures old(KeysClosed(F())) && root1 in old(parent) ==> KeysClosed(F()) && parent.Keys == old(parent.Keys) + {root2}
    {
      ghost var f := F();
      var rank1 := if root1 in rank then rank[root1] else 0;
      var rank2 := if root2 in rank then rank[root2] else 0;
      ghost var a, b, rankOfB := root2, root1, rank1;
      if rank1 < rank2 {
        a, b, rankOfB := root1, root2, rank2;
        parent := parent[root1 := root2];
      } else if rank1 > rank2 {
        parent := parent[root2 := root1];
      } else {
        rankOfB := rank1 + 1;
        parent := parent[root2 := root1];
        rank := rank[root1 := rank1 + 1];
      }
      assert F() == Link(f, a, b, rankOfB);
      LinkStep(f, edges, x, y, a, b, rankOfB);
      if KeysClosed(f) && root1 in f.parent {
        LinkKeys(f, a, b, rankOfB);
      }
      edges := edges + {(x, y)};
    }

    /** The classes, restricted to the elements that have a parent entry, listed under their roots. */
    method GetComponents() returns (components: map<Hash, seq<Hash>>)
      requires Valid()
      modifies this`parent
      ensures Valid() && parent.Keys == old(parent.Keys) && forall y :: Root(F(), y) == old(Root(F(), y))
      ensures Groups(F(), parent.Keys, components)
    {
      components := map[];
      ghost var f := F();
      var keys := parent.Keys;
      var rest := keys;
      while rest != {}
        invariant Valid() && rest <= keys == parent.Keys && forall y :: Root(F(), y) == Root(f, y)
        invariant Groups(f, keys - rest, components)
        decreases rest
      {
        var k :| k in rest;
        var root := Find(k);
        AddToGroup(f, keys - rest, components, k);
        components := components[root := (if root in components then components[root] else []) + [k]];
        Remaining(keys, rest, k);
        rest := rest - {k};
      }
      assert keys - {} == keys;
      SameRootsSameGroups(f, F(), keys, components);
    }
  }

  ghost predicate GroupAt(f: Forest, keys: set<Hash>, components: map<Hash, seq<Hash>>, r: Hash)
    requires Ranked(f) && r in components
  {
    NoDup(components[r]) && forall k :: k in components[r] <==> k in keys && Root(f, k) == r
  }

  /** Every key is listed once, under its root, and nothing else is. */
  ghost predicate Groups(f: Forest, keys: set<Hash>, components: map<Hash, seq<Hash>>)
    requires Ranked(f)
  {
    && (forall r :: r in components ==> GroupAt(f, keys, components, r))
    && (forall k :: k in keys ==> Root(f, k) in components)
  }

  lemma SameRootsSameGroups(f: Forest, g: Forest, keys: set<Hash>, components: map<Hash, seq<Hash>>)
    requires Ranked(f) && Ranked(g) && forall y :: Root(g, y) == Root(f, y)
    requires Groups(f, keys, components)
    ensures Groups(g, keys, components)
  {
    forall r | r in components
      ensures GroupAt(g, keys, components, r)
    {
      assert GroupAt(f, keys, components, r);
    }
  }

  lemma AddToGroup(f: Forest, keys: set<Hash>, components: map<Hash, seq<Hash>>, k: Hash)
    requires Ranked(f) && Groups(f, keys, components) && k !in keys
    ensures Groups(f, keys + {k},
                   components[Root(f, k) := (if Root(f, k) in components then components[Root(f, k)] else []) + [k]])
  {
    var r := Root(f, k);
    var group := if r in components then components[r] else [];
    var more := components[r := group + [k]];
    assert r in components ==> GroupAt(f, keys, components, r);
    forall q | q in more
      ensures GroupAt(f, keys + {k}, more, q)
    {
      if q == r {
        assert k !in Elems(group);
        NoDupAppend(group, k);
      } else {
        assert GroupAt(f, keys, components, q);
      }
    }
  }

  lemma SameParentsSameRoots(f: Forest, g: Forest)
    requires Ranked(f)
    requires forall y :: Rank(g, y) == Rank(f, y) && Parent(g, y) == Parent(f, y)
    ensures Ranked(g) && forall y :: Root(g, y) == Root(f, y)
  {
    forall x | x in g.parent && g.parent[x] != x
      ensures Rank(g, x) < Rank(g, g.parent[x])
    {
      assert Parent(g, x) == Parent(f, x);
      assert x in f.parent;
    }
    forall y {
      SameRoot(f, g, y);
    }
  }

  lemma {:induction false} SameRoot(f: Forest, g: Forest, y: Hash)
    requires Ranked(f) && Ranked(g)
    requires forall z :: Parent(g, z) == Parent(f, z)
    ensures Root(g, y) == Root(f, y)
    decreases |Above(f, y)|
  {
    assert Parent(g, y) == Parent(f, y);
    if Parent(f, y) != y {
      AboveShrinks(f, y);
      SameRoot(f, g, Parent(f, y));
    }
  }
}
