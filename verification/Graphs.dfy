/** Directed graphs over hashes, reachability and acyclicity. An edge goes from a transaction to a parent. */
module Graphs {
  import opened Basics

  type Graph = map<Hash, set<Hash>>

  function Out(g: Graph, x: Hash): set<Hash> {
    if x in g then g[x] else {}
  }

  ghost predicate EdgeAt(g: Graph, p: seq<Hash>, i: int) {
    0 <= i < |p| - 1 && p[i + 1] in Out(g, p[i])
  }

  ghost predicate IsPath(g: Graph, p: seq<Hash>) {
    |p| > 0 && forall i :: 0 <= i < |p| - 1 ==> EdgeAt(g, p, i)
  }

  /** `y` is `x` itself or can be reached from it. */
  ghost predicate Reach(g: Graph, x: Hash, y: Hash) {
    exists p :: IsPath(g, p) && p[0] == x && p[|p| - 1] == y
  }

  /** `y` can be reached from `x` by at least one edge: in a parent graph, `y` is an ancestor of `x`. */
  ghost predicate ReachPlus(g: Graph, x: Hash, y: Hash) {
    exists z :: z in Out(g, x) && Reach(g, z, y)
  }

  ghost predicate Acyclic(g: Graph) {
    forall x :: !ReachPlus(g, x, x)
  }

  ghost predicate Closed(g: Graph, s: set<Hash>) {
    forall x :: x in s ==> Out(g, x) <= s
  }

  /** Every node that has edges or is the end of one. */
  function Nodes(g: Graph): set<Hash> {
    g.Keys + set x, y | x in g && y in g[x] :: y
  }

  lemma NodesClosed(g: Graph, s: set<Hash>)
    requires Nodes(g) <= s
    ensures Closed(g, s)
  {
    forall x | x in s
      ensures Out(g, x) <= s
    {
      assert forall y :: y in Out(g, x) ==> y in Nodes(g);
    }
  }

  /** Breadth-first search for everything reachable by at least one edge. */
  method Collect(g: Graph, start: Hash) returns (found: set<Hash>)
    ensures forall x :: x in found <==> ReachPlus(g, start, x)
  {
    found := {};
    var queue := [start];
    ReachRefl(g, start);
    while queue != []
      invariant found <= Nodes(g) && Elems(queue) <= found + {start}
      invariant forall x :: x in found ==> ReachPlus(g, start, x)
      invariant forall x :: x in found + {start} && x !in queue ==> Out(g, x) <= found
      decreases Nodes(g) - found, |queue|
    {
      var current := queue[0];
      assert current in Elems(queue);
      queue := queue[1..];
      found, queue := Expand(g, start, current, found, queue);
    }
    forall x | ReachPlus(g, start, x)
      ensures x in found
    {
      var z :| z in Out(g, start) && Reach(g, z, x);
      assert Closed(g, found);
      ClosedReach(g, found, z, x);
    }
  }

  method Expand(g: Graph, ghost start: Hash, current: Hash, found: set<Hash>, queue: seq<Hash>)
    returns (found1: set<Hash>, queue1: seq<Hash>)
    requires found <= Nodes(g) && Elems(queue) <= found + {start} && current in found + {start}
    requires forall x :: x in found ==> ReachPlus(g, start, x)
    requires forall x :: x in found + {start} && x !in queue && x != current ==> Out(g, x) <= found
    ensures found <= found1 <= Nodes(g) && Elems(queue1) <= found1 + {start} && (found1 == found ==> queue1 == queue)
    ensures forall x :: x in found1 ==> ReachPlus(g, start, x)
    ensures forall x :: x in found1 + {start} && x !in queue1 ==> Out(g, x) <= found1
  {
    found1, queue1 := found, queue;
    var pending := Out(g, current);
    while pending != {}
      invariant pending <= Out(g, current) <= pending + found1
      invariant found <= found1 <= Nodes(g) && (found1 == found ==> queue1 == queue)
      invariant Elems(queue1) == Elems(queue) + (found1 - found)
      invariant forall x :: x in found1 ==> ReachPlus(g, start, x)
      decreases pending
    {
      var p :| p in pending;
      if p !in found1 {
        ReachEdge(g, current, p);
        if current != start {
          ReachPlusTrans(g, start, current, p);
        }
        assert Elems(queue1 + [p]) == Elems(queue1) + {p};
        found1, queue1 := found1 + {p}, queue1 + [p];
      }
      pending := pending - {p};
    }
    forall x | x in found1 + {start} && x !in queue1
      ensures Out(g, x) <= found1
    {
      assert x !in Elems(queue1);
    }
  }

  lemma ReachRefl(g: Graph, x: Hash)
    ensures Reach(g, x, x)
  {
    assert IsPath(g, [x]);
  }

  lemma PathPieces(g: Graph, p: seq<Hash>, k: nat)
    requires IsPath(g, p) && k < |p|
    ensures IsPath(g, p[k..]) && IsPath(g, p[..k + 1])
  {
    var q := p[k..];
    forall i | 0 <= i < |q| - 1
      ensures EdgeAt(g, q, i)
    {
      assert EdgeAt(g, p, k + i);
    }
    var front := p[..k + 1];
    forall i | 0 <= i < |front| - 1
      ensures EdgeAt(g, front, i)
    {
      assert EdgeAt(g, p, i);
    }
  }

  lemma PathJoin(g: Graph, p: seq<Hash>, q: seq<Hash>)
    requires IsPath(g, p) && IsPath(g, q) && q[0] in Out(g, p[|p| - 1])
    ensures IsPath(g, p + q)
  {
    var r := p + q;
    forall i | 0 <= i < |r| - 1
      ensures EdgeAt(g, r, i)
    {
      if i >= |p| {
        assert EdgeAt(g, q, i - |p|);
      } else if i < |p| - 1 {
        assert EdgeAt(g, p, i);
      }
    }
  }

  lemma ReachTrans(g: Graph, x: Hash, y: Hash, z: Hash)
    requires Reach(g, x, y) && Reach(g, y, z)
    ensures Reach(g, x, z)
  {
    var p :| IsPath(g, p) && p[0] == x && p[|p| - 1] == y;
    var q :| IsPath(g, q) && q[0] == y && q[|q| - 1] == z;
    if |q| == 1 {
      assert Reach(g, x, z);
    } else {
      PathPieces(g, q, 1);
      assert EdgeAt(g, q, 0);
      PathJoin(g, p, q[1..]);
      assert (p + q[1..])[0] == x;
    }
  }

  lemma ReachEdge(g: Graph, x: Hash, y: Hash)
    requires y in Out(g, x)
    ensures Reach(g, x, y) && ReachPlus(g, x, y)
  {
    assert IsPath(g, [x, y]);
    ReachRefl(g, y);
  }

  lemma ReachPlusReach(g: Graph, x: Hash, y: Hash)
    requires ReachPlus(g, x, y)
    ensures Reach(g, x, y)
  {
    var z :| z in Out(g, x) && Reach(g, z, y);
    ReachEdge(g, x, z);
    ReachTrans(g, x, z, y);
  }

  lemma ReachCases(g: Graph, x: Hash, y: Hash)
    requires Reach(g, x, y)
    ensures x == y || ReachPlus(g, x, y)
  {
    var p :| IsPath(g, p) && p[0] == x && p[|p| - 1] == y;
    if |p| > 1 {
      assert EdgeAt(g, p, 0);
      PathPieces(g, p, 1);
      assert Reach(g, p[1], y);
    }
  }

  lemma ReachPlusTrans(g: Graph, x: Hash, y: Hash, z: Hash)
    requires (ReachPlus(g, x, y) && Reach(g, y, z)) || (Reach(g, x, y) && ReachPlus(g, y, z))
    ensures ReachPlus(g, x, z)
  {
    if ReachPlus(g, x, y) {
      if !Reach(g, y, z) {
        ReachPlusReach(g, y, z);
      }
      var w :| w in Out(g, x) && Reach(g, w, y);
      ReachTrans(g, w, y, z);
    } else {
      ReachCases(g, x, y);
    }
  }

  /** A path that starts in a closed set never leaves it. */
  lemma ClosedReach(g: Graph, s: set<Hash>, x: Hash, y: Hash)
    requires Closed(g, s) && x in s && Reach(g, x, y)
    ensures y in s
  {
    var p :| IsPath(g, p) && p[0] == x && p[|p| - 1] == y;
    PathStaysIn(g, s, p, |p| - 1);
  }

  lemma {:induction false} PathStaysIn(g: Graph, s: set<Hash>, p: seq<Hash>, k: nat)
    requires IsPath(g, p) && Closed(g, s) && p[0] in s && k < |p|
    ensures p[k] in s
  {
    if k == 0 {
    } else {
      PathStaysIn(g, s, p, k - 1);
      assert EdgeAt(g, p, k - 1);
    }
  }

  /** A set that contains every node with an edge into it contains every node that reaches it. */
  lemma BackClosedReach(g: Graph, s: set<Hash>, x: Hash, y: Hash)
    requires forall z, w :: w in Out(g, z) && w in s ==> z in s
    requires y in s && Reach(g, x, y)
    ensures x in s
  {
    var p :| IsPath(g, p) && p[0] == x && p[|p| - 1] == y;
    PathBackIn(g, s, p, 0);
  }

  lemma {:induction false} PathBackIn(g: Graph, s: set<Hash>, p: seq<Hash>, k: nat)
    requires forall z, w :: w in Out(g, z) && w in s ==> z in s
    requires IsPath(g, p) && k < |p| && p[|p| - 1] in s
    ensures p[k] in s
    decreases |p| - k
  {
    if k < |p| - 1 {
      PathBackIn(g, s, p, k + 1);
      assert EdgeAt(g, p, k);
    }
  }

  /** In an acyclic graph every non-empty finite set has a member with no edge into the set. */
  lemma {:induction false} MinimalMember(g: Graph, s: set<Hash>) returns (m: Hash)
    requires Acyclic(g) && s != {}
    ensures m in s && Out(g, m) * s == {}
    decreases |s|
  {
    var x :| x in s;
    var above := set y | y in s && ReachPlus(g, x, y);
    forall y | y in Out(g, x) {
      ReachEdge(g, x, y);
    }
    if above == {} {
      m := x;
    } else {
      assert x !in above;
      SubsetCardinality(above, s);
      m := MinimalMember(g, above);
      forall y | y in Out(g, m) * s
        ensures y in above
      {
        ReachEdge(g, m, y);
        ReachPlusTrans(g, x, m, y);
      }
    }
  }

  /** Paths only use edges the larger graph has too. */
  lemma ReachMonotone(g: Graph, h: Graph, x: Hash, y: Hash)
    requires forall z :: Out(g, z) <= Out(h, z)
    requires Reach(g, x, y)
    ensures Reach(h, x, y)
  {
    var p :| IsPath(g, p) && p[0] == x && p[|p| - 1] == y;
    assert forall i :: EdgeAt(g, p, i) ==> EdgeAt(h, p, i);
  }

  lemma AcyclicMonotone(g: Graph, h: Graph)
    requires forall z :: Out(g, z) <= Out(h, z)
    requires Acyclic(h)
    ensures Acyclic(g)
  {
    forall x
      ensures !ReachPlus(g, x, x)
    {
      if ReachPlus(g, x, x) {
        var z :| z in Out(g, x) && Reach(g, z, x);
        ReachMonotone(g, h, z, x);
        assert ReachPlus(h, x, x);
      }
    }
  }

  /** Giving a node its first edges closes a cycle exactly when one of their ends already reaches the node. */
  lemma NewNodeAcyclic(g: Graph, t: Hash, parents: set<Hash>)
    requires Acyclic(g) && t !in g
    ensures Acyclic(g[t := parents]) <==> forall p :: p in parents ==> !Reach(g, p, t)
  {
    var h := g[t := parents];
    if p :| p in parents && Reach(g, p, t) {
      ReachMonotone(g, h, p, t);
      assert ReachPlus(h, t, t);
    } else {
      forall x
        ensures !ReachPlus(h, x, x)
      {
        if ReachPlus(h, x, x) {
          CycleAvoidsNewNode(g, t, parents, x);
        }
      }
    }
  }

  lemma CycleAvoidsNewNode(g: Graph, t: Hash, parents: set<Hash>, x: Hash)
    requires Acyclic(g) && t !in g
    requires forall p :: p in parents ==> !Reach(g, p, t)
    ensures !ReachPlus(g[t := parents], x, x)
  {
    var h := g[t := parents];
    if z :| z in Out(h, x) && Reach(h, z, x) {
      var q :| IsPath(h, q) && q[0] == z && q[|q| - 1] == x;
      var k := LastVisit(q, t);
      if k < 0 {
        OldCycle(g, t, parents, x, q);
      } else {
        WayBack(g, t, parents, x, q, k);
      }
    }
  }

  lemma OldCycle(g: Graph, t: Hash, parents: set<Hash>, x: Hash, q: seq<Hash>)
    requires IsPath(g[t := parents], q) && q[0] in Out(g[t := parents], x) && q[|q| - 1] == x
    requires forall i :: 0 <= i < |q| ==> q[i] != t
    ensures ReachPlus(g, x, x)
  {
    forall i | 0 <= i < |q| - 1
      ensures EdgeAt(g, q, i)
    {
      assert EdgeAt(g[t := parents], q, i);
    }
    assert q[0] in Out(g, x) && Reach(g, q[0], x);
  }

  /** A cycle through the new node passes from one of its parents back to it. */
  lemma WayBack(g: Graph, t: Hash, parents: set<Hash>, x: Hash, q: seq<Hash>, k: nat)
    requires t !in g && IsPath(g[t := parents], q) && q[0] in Out(g[t := parents], x) && q[|q| - 1] == x
    requires k < |q| && q[k] == t
    ensures exists p :: p in parents && Reach(g, p, t)
  {
    var h := g[t := parents];
    if k == |q| - 1 {
      OldPathToNewNode(g, t, parents, q);
    } else {
      // from t to x, from x to the start of the path, and on to t
      PathPieces(h, q, k + 1);
      PathPieces(h, q, k);
      assert EdgeAt(h, q, k);
      PathJoin(h, q[k + 1..], q[..k + 1]);
      OldPathToNewNode(g, t, parents, q[k + 1..] + q[..k + 1]);
    }
  }

  /** The index of the last occurrence of `t`, or -1. */
  lemma LastVisit(q: seq<Hash>, t: Hash) returns (k: int)
    ensures -1 <= k < |q|
    ensures k >= 0 ==> q[k] == t
    ensures forall i :: k < i < |q| ==> q[i] != t
  {
    k := |q| - 1;
    while k >= 0 && q[k] != t
      invariant -1 <= k < |q|
      invariant forall i :: k < i < |q| ==> q[i] != t
    {
      k := k - 1;
    }
  }

  lemma {:induction false} OldPathToNewNode(g: Graph, t: Hash, parents: set<Hash>, q: seq<Hash>)
    requires t !in g && IsPath(g[t := parents], q)
    requires q[0] in parents && q[|q| - 1] == t
    ensures exists p :: p in parents && Reach(g, p, t)
  {
    var h := g[t := parents];
    var front := q[..|q| - 1];
    var k := LastVisit(front, t);
    var rest := if k < 0 then q else q[k + 1..];
    if k >= 0 {
      assert EdgeAt(h, q, k);
    }
    forall i | 0 <= i < |rest| - 1
      ensures EdgeAt(g, rest, i)
    {
      assert rest[i] == q[k + 1 + i] && rest[i + 1] == q[k + 1 + i + 1];
      assert rest[i] == front[k + 1 + i] != t;
      assert EdgeAt(h, q, k + 1 + i);
    }
    assert IsPath(g, rest);
    assert rest[0] in parents && Reach(g, rest[0], t);
  }
}
