/**
 The ordering engine over the dependency manager: the adjacency structures it builds from the depth index, and its two
 topological sorts, the queue-based one and the reversed postorder of a depth-first search.
 */
module OrderingEngine {
  import opened Basics
  import opened Graphs
  import opened Ledger
  import opened DependencyManager
  import Kahn

  /** All ancestors of a transaction, tracked or not. */
  ghost function Ancestors(g: Graph, t: Hash): set<Hash> {
    set x | x in Nodes(g) && ReachPlus(g, t, x)
  }

  lemma AncestorsAre(g: Graph, t: Hash, x: Hash)
    ensures x in Ancestors(g, t) <==> ReachPlus(g, t, x)
  {
    if ReachPlus(g, t, x) {
      var z :| z in Out(g, t) && Reach(g, z, x);
      assert z in Nodes(g);
      NodesClosed(g, Nodes(g));
      ClosedReach(g, Nodes(g), z, x);
    }
  }

  /** The graph both sorts work on: every listed transaction waits for all its ancestors. */
  ghost function AncestorGraph(g: Graph, all: set<Hash>): Graph {
    map t | t in all :: Ancestors(g, t)
  }

  /** The transactions of the depth levels below the first empty one. */
  ghost predicate IsListed(depths: map<Hash, nat>, index: map<nat, set<Hash>>, all: set<Hash>) {
    exists cut: nat :: FirstEmpty(index, cut) && all == Shallower(depths, cut)
  }

  ghost predicate FirstEmpty(index: map<nat, set<Hash>>, cut: nat) {
    At(index, cut) == {} && forall d: nat :: d < cut ==> At(index, d) != {}
  }

  function Shallower(depths: map<Hash, nat>, cut: nat): set<Hash> {
    set t | t in depths && depths[t] < cut
  }

  method ListByDepth(m: Manager) returns (all: set<Hash>)
    requires m.Valid()
    ensures IsListed(m.executionDepth, m.depthIndex, all)
  {
    all := {};
    var depth := 0;
    while At(m.depthIndex, depth) != {}
      invariant depth >= 0 && forall d: nat :: d < depth ==> At(m.depthIndex, d) != {}
      invariant all == Shallower(m.executionDepth, depth)
      decreases m.executionDepth.Keys - all
    {
      ghost var t :| t in At(m.depthIndex, depth);
      all := all + At(m.depthIndex, depth);
      depth := depth + 1;
    }
    assert FirstEmpty(m.depthIndex, depth);
  }

  method BuildAdjacencyStructures(m: Manager) returns (adjacency: Graph, inDegree: map<Hash, nat>, all: set<Hash>)
    requires m.Valid()
    ensures IsListed(m.executionDepth, m.depthIndex, all)
    ensures EdgesFrom(AncestorGraph(m.childToParents, all), all, inDegree, adjacency)
  {
    all := ListByDepth(m);
    ghost var par := AncestorGraph(m.childToParents, all);
    adjacency := map t | t in all :: {};
    inDegree := map t | t in all :: 0;
    var pending := all;
    ghost var done := {};
    while pending != {}
      invariant pending <= all && done == all - pending && EdgesFrom(par, done, inDegree, adjacency)
      decreases pending
    {
      var t :| t in pending;
      ghost var adjacency0 := adjacency;
      var ancestors := m.GetExecutionSequence(t);
      ListedAncestors(m.childToParents, t, ancestors);
      var degree;
      degree, adjacency := AddAncestors(ancestors, t, adjacency);
      NoDupCardinality(ancestors);
      EdgesFromOneMore(par, done, t, inDegree, adjacency0, degree, adjacency);
      inDegree := inDegree[t := degree];
      Remaining(all, pending, t);
      done := done + {t};
      pending := pending - {t};
    }
  }

  lemma ListedAncestors(g: Graph, t: Hash, ancestors: seq<Hash>)
    requires forall x :: x in Elems(ancestors) <==> ReachPlus(g, t, x)
    ensures Elems(ancestors) == Ancestors(g, t)
  {
    forall x
      ensures x in Elems(ancestors) <==> x in Ancestors(g, t)
    {
      AncestorsAre(g, t, x);
    }
  }

  method AddAncestors(ancestors: seq<Hash>, t: Hash, adjacency: Graph) returns (degree: nat, adjacency1: Graph)
    requires t in adjacency
    ensures degree == |ancestors| && EdgesAdded(adjacency, Elems(ancestors), t, adjacency1)
  {
    degree, adjacency1 := 0, adjacency;
    while degree < |ancestors|
      invariant degree <= |ancestors| && EdgesAdded(adjacency, Elems(ancestors[..degree]), t, adjacency1)
    {
      var p := ancestors[degree];
      ElemsPrefix(ancestors, degree);
      EdgesAddedMore(adjacency, Elems(ancestors[..degree]), t, adjacency1, p);
      if p in adjacency1 {
        adjacency1 := adjacency1[p := adjacency1[p] + {t}];
      }
      degree := degree + 1;
    }
    assert ancestors[..degree] == ancestors;
  }

  function CycleCount(members: set<Hash>): (n: nat)
    ensures n <= 1 && (n == 0 <==> members == {})
  {
    if members == {} then 0 else 1
  }

  // ----- the queue-based sort -----

  method GetTopologicalSortKahn(m: Manager)
    returns (sorted: seq<Hash>, cyclesDetected: nat, cycleMembers: set<Hash>, all: set<Hash>)
    requires m.Valid()
    ensures IsListed(m.executionDepth, m.depthIndex, all)
    ensures var par := AncestorGraph(m.childToParents, all); Kahn.Final(par, Kahn.NoSurplus(par), sorted)
    ensures cycleMembers == all - Elems(sorted) && cyclesDetected == CycleCount(cycleMembers)
    ensures cyclesDetected == 0 <==> forall t :: t in all ==> Ancestors(m.childToParents, t) <= all
    ensures ParentsTracked(m.childToParents, m.executionDepth) ==>
              && Elems(sorted) == m.childToParents.Keys && AncestorsFirst(m.childToParents, sorted)
              && cyclesDetected == 0 && cycleMembers == {}
  {
    var adjacency, inDegree;
    adjacency, inDegree, all := BuildAdjacencyStructures(m);
    ghost var par := AncestorGraph(m.childToParents, all);
    WholeChildren(par, all, inDegree, adjacency);
    sorted := Kahn.Sort(par, inDegree, adjacency);
    NothingLeft(sorted, inDegree);
    cyclesDetected := if |sorted| != |inDegree| then 1 else 0;
    cycleMembers := inDegree.Keys - Elems(sorted);
    NoneLeftIff(m.childToParents, all, sorted);
    if ParentsTracked(m.childToParents, m.executionDepth) {
      KahnComplete(m.childToParents, m.executionDepth, m.depthIndex, all, sorted);
    }
  }

  lemma NoneLeftIff(g: Graph, all: set<Hash>, sorted: seq<Hash>)
    requires Acyclic(g)
    requires var par := AncestorGraph(g, all); Kahn.Final(par, Kahn.NoSurplus(par), sorted)
    ensures all - Elems(sorted) == {} <==> forall t :: t in all ==> Ancestors(g, t) <= all
  {
    forall t | t in all
      ensures t !in all - Elems(sorted) <==> Ancestors(g, t) <= all
    {
      KahnEmitsIff(g, all, sorted, t);
    }
  }

  lemma NothingLeft(sorted: seq<Hash>, inDegree: map<Hash, nat>)
    requires NoDup(sorted) && Elems(sorted) <= inDegree.Keys
    ensures |sorted| == |inDegree| <==> inDegree.Keys - Elems(sorted) == {}
  {
    NoDupCardinality(sorted);
    SubsetCardinality(Elems(sorted), inDegree.Keys);
    assert |inDegree| == |inDegree.Keys|;
    if inDegree.Keys - Elems(sorted) == {} {
      assert forall x :: x in inDegree.Keys ==> x !in inDegree.Keys - Elems(sorted);
      assert Elems(sorted) == inDegree.Keys;
    }
  }

  // ----- the depth-first sort -----

  function Reversed(s: seq<Hash>): seq<Hash> {
    seq(|s|, i requires 0 <= i < |s| => s[|s| - 1 - i])
  }

  method GetTopologicalSortDfs(m: Manager)
    returns (sorted: seq<Hash>, cyclesDetected: nat, cycleMembers: set<Hash>, all: set<Hash>)
    requires m.Valid()
    ensures IsListed(m.executionDepth, m.depthIndex, all)
    ensures NoDup(sorted) && Elems(sorted) == all && cyclesDetected == 0 && cycleMembers == {}
    ensures AncestorsFirst(m.childToParents, sorted)
    ensures ParentsTracked(m.childToParents, m.executionDepth) ==> Elems(sorted) == m.childToParents.Keys
  {
    var adjacency, inDegree;
    adjacency, inDegree, all := BuildAdjacencyStructures(m);
    ghost var par := AncestorGraph(m.childToParents, all);
    WholeChildren(par, all, inDegree, adjacency);
    AdjacencyAcyclic(m.childToParents, all, adjacency);
    var postorder;
    postorder, cycleMembers := VisitAll(adjacency);
    sorted := Reversed(postorder);
    cyclesDetected := CycleCount(cycleMembers);
    ReversedFacts(postorder);
    ReversedPostorder(m.childToParents, all, adjacency, postorder);
    if ParentsTracked(m.childToParents, m.executionDepth) {
      AllListed(m.childToParents, m.executionDepth, m.depthIndex, all);
    }
  }

  /** Runs on any graph: every node once, and a cycle is reported exactly when there is one. */
  method VisitAll(adjacency: Graph) returns (postorder: seq<Hash>, cycleMembers: set<Hash>)
    requires Closed(adjacency, adjacency.Keys)
    ensures NoDup(postorder) && Elems(postorder) == adjacency.Keys
    ensures cycleMembers == {} <==> Acyclic(adjacency)
    ensures cycleMembers == {} ==> Kahn.ParentsFirst(adjacency, postorder)
  {
    var visited: set<Hash>, recStack: set<Hash> := {}, {};
    postorder, cycleMembers := [], {};
    var pending := adjacency.Keys;
    while pending != {}
      invariant pending <= adjacency.Keys <= pending + visited && visited <= adjacency.Keys && recStack == {}
      invariant Progress(adjacency, visited, recStack, postorder, cycleMembers)
      decreases pending
    {
      var t :| t in pending;
      if t !in visited {
        visited, recStack, postorder, cycleMembers := DfsVisit(t, adjacency, visited, recStack, postorder, cycleMembers);
      }
      pending := pending - {t};
    }
    if cycleMembers == {} {
      Kahn.ParentsFirstAcyclic(adjacency, postorder);
    }
  }

  /** Between two steps: the finished nodes are the visited ones off the current path, children before parents. */
  ghost predicate Progress(g: Graph, visited: set<Hash>, path: set<Hash>, postorder: seq<Hash>, cycle: set<Hash>) {
    && NoDup(postorder) && Elems(postorder) == visited - path
    && (cycle == {} ==> Kahn.ParentsFirst(g, postorder))
    && (cycle != {} ==> !Acyclic(g))
  }

  method DfsVisit(t: Hash, adjacency: Graph, visited: set<Hash>, recStack: set<Hash>, postorder: seq<Hash>, cycleMembers: set<Hash>)
    returns (visited1: set<Hash>, recStack1: set<Hash>, postorder1: seq<Hash>, cycleMembers1: set<Hash>)
    requires Closed(adjacency, adjacency.Keys) && t in adjacency && t !in visited
    requires recStack <= visited <= adjacency.Keys && Progress(adjacency, visited, recStack, postorder, cycleMembers)
    requires forall x :: x in recStack ==> Reach(adjacency, x, t)
    ensures visited + {t} <= visited1 <= adjacency.Keys && recStack1 == recStack && cycleMembers <= cycleMembers1
    ensures Progress(adjacency, visited1, recStack1, postorder1, cycleMembers1)
    decreases adjacency.Keys - visited
  {
    visited1, recStack1 := visited + {t}, recStack + {t};
    postorder1, cycleMembers1 := postorder, cycleMembers;
    assert visited1 - recStack1 == visited - recStack;
    ReachRefl(adjacency, t);
    ghost var path := recStack1;
    var pending := adjacency[t];
    while pending != {}
      invariant pending <= adjacency[t] <= pending + visited1 && recStack1 == path
      invariant visited + {t} <= visited1 <= adjacency.Keys
      invariant Progress(adjacency, visited1, recStack1, postorder1, cycleMembers1)
      invariant cycleMembers <= cycleMembers1 && (cycleMembers1 == {} ==> adjacency[t] * path <= pending)
      decreases pending
    {
      var child :| child in pending;
      ReachEdge(adjacency, t, child);
      if child !in visited1 {
        forall x | x in recStack1
          ensures Reach(adjacency, x, child)
        {
          ReachTrans(adjacency, x, t, child);
        }
        visited1, recStack1, postorder1, cycleMembers1 :=
          DfsVisit(child, adjacency, visited1, recStack1, postorder1, cycleMembers1);
      } else if child in recStack1 {
        BackEdge(adjacency, recStack, t, child);
        cycleMembers1 := cycleMembers1 + {child, t};
      }
      pending := pending - {child};
    }
    recStack1 := recStack1 - {t};
    Finish(adjacency, visited1, recStack, t, postorder1, cycleMembers1);
    postorder1 := postorder1 + [t];
  }

  lemma Finish(g: Graph, visited: set<Hash>, path: set<Hash>, t: Hash, postorder: seq<Hash>, cycle: set<Hash>)
    requires Progress(g, visited, path + {t}, postorder, cycle) && t in visited && t !in path
    requires Out(g, t) <= visited && (cycle == {} ==> Out(g, t) !! path + {t})
    ensures Progress(g, visited, path, postorder + [t], cycle)
  {
    NoDupAppend(postorder, t);
    assert visited - path == (visited - (path + {t})) + {t};
    if cycle == {} {
      assert Out(g, t) <= visited - (path + {t});
      Kahn.StepParentsFirst(g, postorder, t);
    }
  }

  // ----- from adjacency back to ancestors -----

  /** Every listed ancestor of a listed transaction stands before it. */
  ghost predicate AncestorsFirst(g: Graph, order: seq<Hash>) {
    forall i, a :: 0 <= i < |order| && a in order && ReachPlus(g, order[i], a) ==> Kahn.Before(order, a, i)
  }

  lemma AdjacencyAcyclic(g: Graph, all: set<Hash>, adjacency: Graph)
    requires Acyclic(g) && adjacency.Keys == all
    requires forall t :: t in all ==> adjacency[t] == Kahn.Children(AncestorGraph(g, all), t)
    ensures Acyclic(adjacency) && Closed(adjacency, adjacency.Keys)
  {
    forall x
      ensures !ReachPlus(adjacency, x, x)
    {
      if ReachPlus(adjacency, x, x) {
        DescendantReaches(g, all, adjacency, x, x);
      }
    }
  }

  lemma DescendantReaches(g: Graph, all: set<Hash>, adjacency: Graph, x: Hash, y: Hash)
    requires adjacency.Keys == all && ReachPlus(adjacency, x, y)
    requires forall t :: t in all ==> adjacency[t] == Kahn.Children(AncestorGraph(g, all), t)
    ensures ReachPlus(g, y, x)
  {
    var z :| z in Out(adjacency, x) && Reach(adjacency, z, y);
    var p :| IsPath(adjacency, p) && p[0] == z && p[|p| - 1] == y;
    AncestorsAre(g, z, x);
    PathReaches(g, all, adjacency, x, p);
  }

  lemma {:induction false} PathReaches(g: Graph, all: set<Hash>, adjacency: Graph, x: Hash, p: seq<Hash>)
    requires adjacency.Keys == all && IsPath(adjacency, p) && ReachPlus(g, p[0], x)
    requires forall t :: t in all ==> adjacency[t] == Kahn.Children(AncestorGraph(g, all), t)
    ensures ReachPlus(g, p[|p| - 1], x)
    decreases |p|
  {
    if |p| == 1 {
    } else {
      assert EdgeAt(adjacency, p, 0);
      AncestorsAre(g, p[1], p[0]);
      ReachPlusReach(g, p[0], x);
      ReachPlusTrans(g, p[1], p[0], x);
      PathPieces(adjacency, p, 1);
      PathReaches(g, all, adjacency, x, p[1..]);
    }
  }

  lemma ReversedFacts(s: seq<Hash>)
    requires NoDup(s)
    ensures NoDup(Reversed(s)) && Elems(Reversed(s)) == Elems(s)
  {
    forall x
      ensures x in Elems(Reversed(s)) <==> x in Elems(s)
    {
      if i :| 0 <= i < |s| && s[i] == x {
        assert Reversed(s)[|s| - 1 - i] == x;
      }
    }
  }

  lemma {:induction false} ReversedPostorder(g: Graph, all: set<Hash>, adjacency: Graph, postorder: seq<Hash>)
    requires adjacency.Keys == all && NoDup(postorder) && Elems(postorder) == all
    requires forall t :: t in all ==> adjacency[t] == Kahn.Children(AncestorGraph(g, all), t)
    requires Kahn.ParentsFirst(adjacency, postorder)
    ensures AncestorsFirst(g, Reversed(postorder))
  {
    var order := Reversed(postorder);
    var n := |postorder|;
    forall i, a | 0 <= i < |order| && a in order && ReachPlus(g, order[i], a)
      ensures Kahn.Before(order, a, i)
    {
      ReversedFacts(postorder);
      var t := order[i];
      assert a in Elems(order) && t in Elems(order);
      AncestorsAre(g, t, a);
      assert t in Out(adjacency, a);
      var k :| 0 <= k < n && postorder[k] == a;
      assert Kahn.Before(postorder, t, k);
      var j :| 0 <= j < k && postorder[j] == t;
      assert postorder[n - 1 - i] == t;
      assert j == n - 1 - i;
      assert order[n - 1 - k] == a;
    }
  }

  // ----- theorems -----

  /**
   The queue-based sort emits a listed transaction exactly when all its ancestors are listed: an unregistered parent
   makes it report a cycle that is not there.
   */
  lemma KahnEmitsIff(g: Graph, all: set<Hash>, sorted: seq<Hash>, t: Hash)
    requires Acyclic(g) && t in all
    requires var par := AncestorGraph(g, all); Kahn.Final(par, Kahn.NoSurplus(par), sorted)
    ensures t in sorted <==> Ancestors(g, t) <= all
  {
    var par := AncestorGraph(g, all);
    assert par[t] == Ancestors(g, t);
    if Ancestors(g, t) <= all {
      var missing := set x | x in all && Ancestors(g, x) <= all && x !in sorted;
      if missing != {} {
        AncestorGraphAcyclic(g, all);
        var m := MinimalMember(par, missing);
        forall a | a in par[m]
          ensures a in Elems(sorted)
        {
          AncestorsShrink(g, m, a);
          assert a !in Out(par, m) * missing;
        }
        assert false;
      }
      assert t !in missing;
    }
  }

  lemma AncestorsShrink(g: Graph, m: Hash, a: Hash)
    requires a in Ancestors(g, m)
    ensures Ancestors(g, a) <= Ancestors(g, m)
  {
    AncestorsAre(g, m, a);
    forall x | x in Ancestors(g, a)
      ensures x in Ancestors(g, m)
    {
      AncestorsAre(g, a, x);
      ReachPlusReach(g, a, x);
      ReachPlusTrans(g, m, a, x);
      AncestorsAre(g, m, x);
    }
  }

  lemma AncestorGraphAcyclic(g: Graph, all: set<Hash>)
    requires Acyclic(g)
    ensures Acyclic(AncestorGraph(g, all))
  {
    var par := AncestorGraph(g, all);
    forall x
      ensures !ReachPlus(par, x, x)
    {
      if z :| z in Out(par, x) && Reach(par, z, x) {
        var p :| IsPath(par, p) && p[0] == z && p[|p| - 1] == x;
        AncestorsAre(g, x, z);
        AncestorPath(g, all, x, p);
      }
    }
  }

  lemma {:induction false} AncestorPath(g: Graph, all: set<Hash>, x: Hash, p: seq<Hash>)
    requires IsPath(AncestorGraph(g, all), p) && ReachPlus(g, x, p[0])
    ensures ReachPlus(g, x, p[|p| - 1])
    decreases |p|
  {
    if |p| == 1 {
    } else {
      assert EdgeAt(AncestorGraph(g, all), p, 0);
      AncestorsAre(g, p[0], p[1]);
      ReachPlusReach(g, p[0], p[1]);
      ReachPlusTrans(g, x, p[0], p[1]);
      PathPieces(AncestorGraph(g, all), p, 1);
      AncestorPath(g, all, x, p[1..]);
    }
  }

  lemma KahnAncestorsFirst(g: Graph, all: set<Hash>, kahn: seq<Hash>)
    requires var par := AncestorGraph(g, all); Kahn.Final(par, Kahn.NoSurplus(par), kahn)
    ensures AncestorsFirst(g, kahn)
  {
    var par := AncestorGraph(g, all);
    forall i, a | 0 <= i < |kahn| && a in kahn && ReachPlus(g, kahn[i], a)
      ensures Kahn.Before(kahn, a, i)
    {
      assert kahn[i] in Elems(kahn);
      AncestorsAre(g, kahn[i], a);
      assert a in Out(par, kahn[i]);
    }
  }

  /** Both sorts put ancestors first; they list the same transactions exactly when no listed one has an unlisted ancestor. */
  lemma SortsAgreeIff(g: Graph, all: set<Hash>, kahn: seq<Hash>, dfs: seq<Hash>)
    requires Acyclic(g) && Elems(dfs) == all
    requires var par := AncestorGraph(g, all); Kahn.Final(par, Kahn.NoSurplus(par), kahn)
    ensures AncestorsFirst(g, kahn)
    ensures Elems(kahn) == Elems(dfs) <==> forall t :: t in all ==> Ancestors(g, t) <= all
  {
    KahnAncestorsFirst(g, all, kahn);
    forall t | t in all
      ensures t in Elems(kahn) <==> Ancestors(g, t) <= all
    {
      KahnEmitsIff(g, all, kahn, t);
    }
    assert (forall t :: t in all ==> Ancestors(g, t) <= all) ==> all <= Elems(kahn);
  }

  // ----- runs that register parents first -----

  /** After a parents-first run no level is skipped: the engine lists every tracked transaction and all ancestors. */
  lemma AllListed(parents: Graph, depths: map<Hash, nat>, index: map<nat, set<Hash>>, all: set<Hash>)
    requires ParentsTracked(parents, depths) && IndexExact(depths, index) && IsListed(depths, index, all)
    ensures all == parents.Keys
    ensures forall t :: t in all ==> Ancestors(parents, t) <= all
  {
    EveryLevelListed(parents, depths, index, all);
    forall t, a | t in all && a in Ancestors(parents, t)
      ensures a in all
    {
      AncestorsAre(parents, t, a);
      var z :| z in Out(parents, t) && Reach(parents, z, a);
      assert Closed(parents, parents.Keys);
      ClosedReach(parents, parents.Keys, z, a);
    }
  }

  /** Then the queue-based sort emits everything, ancestors first. */
  lemma KahnComplete(parents: Graph, depths: map<Hash, nat>, index: map<nat, set<Hash>>, all: set<Hash>, sorted: seq<Hash>)
    requires Acyclic(parents) && ParentsTracked(parents, depths) && IndexExact(depths, index) && IsListed(depths, index, all)
    requires var par := AncestorGraph(parents, all); Kahn.Final(par, Kahn.NoSurplus(par), sorted)
    ensures all == parents.Keys == Elems(sorted) && AncestorsFirst(parents, sorted)
  {
    AllListed(parents, depths, index, all);
    KahnAncestorsFirst(parents, all, sorted);
    forall t | t in all
      ensures t in Elems(sorted)
    {
      KahnEmitsIff(parents, all, sorted, t);
    }
  }

  lemma EveryLevelListed(parents: Graph, depths: map<Hash, nat>, index: map<nat, set<Hash>>, all: set<Hash>)
    requires ParentsTracked(parents, depths) && IndexExact(depths, index) && IsListed(depths, index, all)
    ensures all == parents.Keys
  {
    var cut: nat :| FirstEmpty(index, cut) && all == Shallower(depths, cut);
    EmptyLevel(depths, index, cut);
    forall t | t in parents
      ensures depths[t] < cut
    {
      BelowEmptyLevel(parents, depths, t, cut);
    }
  }

  lemma EmptyLevel(depths: map<Hash, nat>, index: map<nat, set<Hash>>, d: nat)
    requires IndexExact(depths, index) && At(index, d) == {}
    ensures forall x: Hash :: x in depths ==> depths[x] != d
  {
    forall x: Hash | x in depths
      ensures depths[x] != d
    {
      assert x !in At(index, d);
    }
  }

  lemma {:induction false} BelowEmptyLevel(parents: Graph, depths: map<Hash, nat>, t: Hash, d: nat)
    requires ParentsTracked(parents, depths) && t in parents
    requires forall x :: x in depths ==> depths[x] != d
    ensures depths[t] < d
    decreases depths[t]
  {
    assert ExactAt(parents, depths, t);
    if parents[t] != {} {
      assert IsMaxDepth(parents[t], depths, depths[t] - 1);
      var p;
      if depths[t] == 1 {
        p :| p in parents[t];
      } else {
        p :| p in parents[t] && p in depths && depths[p] == depths[t] - 1;
      }
      BelowEmptyLevel(parents, depths, p, d);
    }
  }

  // ----- a run that reports a cycle where there is none -----

  lemma TwoDepths(depths: map<Hash, nat>, index: map<nat, set<Hash>>, all: set<Hash>)
    requires depths.Keys == {1, 2} && depths[1] == 0 && depths[2] == 1
    requires IndexExact(depths, index) && IsListed(depths, index, all)
    ensures all == {1, 2}
  {
    var cut: nat :| FirstEmpty(index, cut) && all == Shallower(depths, cut);
    assert 1 in At(index, 0) && 2 in At(index, 1);
  }

  lemma NoMempoolParents(store: Store)
    ensures MempoolParents(store, []) == {} && !StoreFails(store, [])
  {
  }

  method RegisterAlone(t: Hash, store: Store) returns (m: Manager)
    ensures fresh(m) && m.Valid() && m.childToParents.Keys == {t} && m.childToParents[t] == {}
    ensures m.executionDepth.Keys == {t} && m.executionDepth[t] == 0
  {
    m := new Manager();
    NoMempoolParents(store);
    var r := m.RegisterTransaction(t, [], store);
    var g: Graph := map[];
    NewLeafAcyclic(g, t, {});
    assert r.Registered?;
  }

  method RegisterOrphan(m: Manager, t: Hash, p: Hash, store: Store)
    requires m.Valid() && t !in m.childToParents && store((p, 0)) == Some(false)
    requires p !in m.childToParents && p != t && forall x :: x in m.childToParents ==> m.childToParents[x] == {}
    modifies m
    ensures m.Valid() && m.childToParents == old(m.childToParents)[t := {p}]
    ensures m.executionDepth == old(m.executionDepth)[t := 1]
  {
    OneMempoolParent(store, p);
    NewLeafAcyclic(m.childToParents, t, {p});
    var r := m.RegisterTransaction(t, [(p, 0)], store);
  }

  lemma NewLeafAcyclic(g: Graph, t: Hash, parents: set<Hash>)
    requires Acyclic(g) && t !in g && t !in parents && forall x :: x in parents ==> x !in g
    ensures Acyclic(g[t := parents])
  {
    forall p | p in parents
      ensures !Reach(g, p, t)
    {
      if Reach(g, p, t) {
        ReachCases(g, p, t);
      }
    }
    NewNodeAcyclic(g, t, parents);
  }

  /** One transaction without parents, one whose parent is not tracked: the sort leaves it out and reports a cycle. */
  method PhantomCycle() returns (m: Manager, cyclesDetected: nat)
    ensures m.Valid() && Acyclic(m.childToParents) && cyclesDetected == 1
  {
    var store: Store := (o: OutPoint) => Some(false);
    m := RegisterAlone(1, store);
    RegisterOrphan(m, 2, 3, store);
    var sorted, cycleMembers, all;
    sorted, cyclesDetected, cycleMembers, all := GetTopologicalSortKahn(m);
    TwoDepths(m.executionDepth, m.depthIndex, all);
    ReachEdge(m.childToParents, 2, 3);
    AncestorsAre(m.childToParents, 2, 3);
    assert 2 in all && 3 in Ancestors(m.childToParents, 2);
  }
}
