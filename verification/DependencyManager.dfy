/**
 The dependency manager: parents and children of every tracked transaction, cycle prevention by depth-first search,
 execution depths with an index by depth, and the order in which the ancestors of a transaction must run.
 */
module DependencyManager {
  import opened Basics
  import opened Graphs
  import opened Ledger
  import Kahn

  /** What the transaction store answers about an output: on chain, not on chain, or a storage error. */
  type Store = OutPoint -> Option<bool>

  datatype Chain = Chain(parents: set<Hash>, ancestors: set<Hash>, sequence: seq<Hash>, depth: nat)

  datatype Registration = Registered(chain: Chain) | CircularDependency | StorageFailure

  predicate StoreFails(store: Store, inputs: seq<OutPoint>) {
    exists o :: o in inputs && store(o).None?
  }

  /** Transactions whose outputs are spent and not on chain yet. */
  function MempoolParents(store: Store, inputs: seq<OutPoint>): set<Hash> {
    set o | o in inputs && store(o) == Some(false) :: o.0
  }

  lemma OneMempoolParent(store: Store, p: Hash)
    requires store((p, 0)) == Some(false)
    ensures MempoolParents(store, [(p, 0)]) == {p} && !StoreFails(store, [(p, 0)])
  {
    assert (p, 0) in [(p, 0)];
  }

  /** `m` is the largest depth of a tracked parent, or 0. */
  ghost predicate IsMaxDepth(parents: set<Hash>, depths: map<Hash, nat>, m: nat) {
    && (forall p :: p in parents && p in depths ==> depths[p] <= m)
    && (m == 0 || exists p :: p in parents && p in depths && depths[p] == m)
  }

  /** 0 without mempool parents, otherwise one more than the deepest tracked parent. */
  ghost predicate IsDepth(parents: set<Hash>, depths: map<Hash, nat>, d: nat) {
    if parents == {} then d == 0 else d > 0 && IsMaxDepth(parents, depths, d - 1)
  }

  function At(index: map<nat, set<Hash>>, d: nat): set<Hash> {
    if d in index then index[d] else {}
  }

  /** The index files every tracked transaction under its depth, and nothing else. */
  ghost predicate IndexExact(depths: map<Hash, nat>, index: map<nat, set<Hash>>) {
    forall d: nat, t: Hash :: t in At(index, d) <==> t in depths && depths[t] == d
  }

  /** A recorded child that is still tracked names the parent back. */
  ghost predicate LinksBack(children: Graph, parents: Graph) {
    forall p: Hash, c: Hash :: c in Out(children, p) && c in parents ==> p in parents[c]
  }

  ghost predicate ChainRight(parents: Graph, t: Hash, c: Chain) {
    && c.parents == Out(parents, t)
    && (forall x: Hash :: x in c.ancestors <==> ReachPlus(parents, t, x))
    && NoDup(c.sequence) && Elems(c.sequence) == c.ancestors && Kahn.ParentsFirst(parents, c.sequence)
  }

  // ----- depth-first search -----

  /** A visited node off the current path is not the target and all its parents are visited. */
  ghost predicate Black(g: Graph, visited: set<Hash>, path: set<Hash>, target: Hash) {
    forall x :: x in visited - path ==> Out(g, x) <= visited && x != target
  }

  class Manager {
    var parentToChildren: Graph
    var childToParents: Graph
    var executionDepth: map<Hash, nat>
    var depthIndex: map<nat, set<Hash>>

    ghost predicate Valid()
      reads this
    {
      && Acyclic(childToParents)
      && executionDepth.Keys == childToParents.Keys
      && IndexExact(executionDepth, depthIndex)
    }

    constructor ()
      ensures Valid() && childToParents == map[] && parentToChildren == map[]
      ensures ParentsTracked(childToParents, executionDepth)
    {
      parentToChildren, childToParents, executionDepth, depthIndex := map[], map[], map[], map[];
    }

    method HasCycleDfs(current: Hash, target: Hash, visited: set<Hash>, recStack: set<Hash>, ghost universe: set<Hash>)
      returns (found: bool, visited1: set<Hash>, recStack1: set<Hash>)
      requires current in universe && Closed(childToParents, universe) && recStack <= visited <= universe
      requires current !in recStack && Black(childToParents, visited, recStack, target)
      requires forall x :: x in recStack ==> Reach(childToParents, x, current)
      ensures found ==> Reach(childToParents, current, target) || !Acyclic(childToParents)
      ensures !found ==> visited + {current} <= visited1 <= universe && recStack1 == recStack
      ensures !found ==> Black(childToParents, visited1, recStack, target)
      decreases universe - visited
    {
      visited1, recStack1 := visited, recStack;
      if current !in visited1 {
        visited1 := visited1 + {current};
        recStack1 := recStack1 + {current};
        var pending := Out(childToParents, current);
        while pending != {}
          invariant pending <= Out(childToParents, current) <= pending + visited1
          invariant visited + {current} <= visited1 <= universe && recStack1 == recStack + {current}
          invariant Black(childToParents, visited1, recStack1, target)
          decreases pending
        {
          var p :| p in pending;
          ReachEdge(childToParents, current, p);
          if p !in visited1 {
            forall x | x in recStack1
              ensures Reach(childToParents, x, p)
            {
              ReachRefl(childToParents, current);
              ReachTrans(childToParents, x, current, p);
            }
            found, visited1, recStack1 := HasCycleDfs(p, target, visited1, recStack1, universe);
            if found {
              if Acyclic(childToParents) {
                ReachTrans(childToParents, current, p, target);
              }
              return;
            }
          } else if p in recStack1 {
            BackEdge(childToParents, recStack, current, p);
            return true, visited1, recStack1;
          }
          pending := pending - {p};
        }
        if current == target && target in recStack1 {
          ReachRefl(childToParents, current);
          return true, visited1, recStack1;
        }
      }
      recStack1 := recStack1 - {current};
      found := false;
    }

    method DetectCycles(t: Hash, parents: set<Hash>) returns (cycle: bool)
      requires Acyclic(childToParents)
      ensures cycle <==> exists p :: p in parents && Reach(childToParents, p, t)
    {
      ghost var universe := Nodes(childToParents) + parents;
      NodesClosed(childToParents, universe);
      var visited: set<Hash>, recStack: set<Hash> := {}, {};
      var pending := parents;
      while pending != {}
        invariant pending <= parents <= pending + visited && visited <= universe
        invariant recStack == {} && Black(childToParents, visited, {}, t)
        decreases pending
      {
        var p :| p in pending;
        var found;
        found, visited, recStack := HasCycleDfs(p, t, visited, recStack, universe);
        if found {
          return true;
        }
        pending := pending - {p};
      }
      forall p | p in parents
        ensures !Reach(childToParents, p, t)
      {
        if Reach(childToParents, p, t) {
          ClosedReach(childToParents, visited, p, t);
        }
      }
      return false;
    }

    // ----- registration -----

    method RegisterTransaction(t: Hash, inputs: seq<OutPoint>, store: Store) returns (r: Registration)
      requires Valid()
      modifies this
      ensures Valid()
      ensures !r.Registered? || t in old(childToParents) ==> unchanged(this)
      ensures r == StorageFailure <==> t !in old(childToParents) && StoreFails(store, inputs)
      ensures r == CircularDependency <==>
                t !in old(childToParents) && !StoreFails(store, inputs) &&
                !Acyclic(old(childToParents)[t := MempoolParents(store, inputs)])
      ensures r.Registered? ==> ChainRight(childToParents, t, r.chain) && t in executionDepth && r.chain.depth == executionDepth[t]
      ensures r.Registered? && t !in old(childToParents) ==>
                var parents := MempoolParents(store, inputs);
                && childToParents == old(childToParents)[t := parents]
                && executionDepth == old(executionDepth)[t := r.chain.depth]
                && IsDepth(parents, old(executionDepth), r.chain.depth)
                && ChildAdded(old(parentToChildren), parents, t, parentToChildren)
      ensures old(ParentsTracked(childToParents, executionDepth)) && MempoolParents(store, inputs) <= old(childToParents.Keys) ==>
                r != CircularDependency && ParentsTracked(childToParents, executionDepth)
    {
      if t in executionDepth {
        r := DescribeChain(t);
        return;
      }
      var failed, parents, depth := FindParents(inputs, store);
      if failed {
        return StorageFailure;
      }
      NewNodeAcyclic(childToParents, t, parents);
      var cycle := DetectCycles(t, parents);
      ghost var parentsFirst := ParentsTracked(childToParents, executionDepth) && parents <= childToParents.Keys;
      if parentsFirst {
        ParentsFirstAcyclic(childToParents, t, parents);
        ParentsFirstKeeps(childToParents, executionDepth, t, parents, depth);
      }
      if cycle {
        return CircularDependency;
      }
      Insert(t, parents, depth);
      r := DescribeChain(t);
    }

    method Insert(t: Hash, parents: set<Hash>, depth: nat)
      requires Valid() && t !in childToParents && Acyclic(childToParents[t := parents])
      modifies this
      ensures Valid() && childToParents == old(childToParents)[t := parents]
      ensures executionDepth == old(executionDepth)[t := depth]
      ensures ChildAdded(old(parentToChildren), parents, t, parentToChildren)
    {
      IndexAdded(executionDepth, depthIndex, t, depth);
      executionDepth := executionDepth[t := depth];
      childToParents := childToParents[t := parents];
      AddChild(parents, t);
      depthIndex := depthIndex[depth := At(depthIndex, depth) + {t}];
    }

    method FindParents(inputs: seq<OutPoint>, store: Store) returns (failed: bool, parents: set<Hash>, depth: nat)
      ensures failed <==> StoreFails(store, inputs)
      ensures !failed ==> parents == MempoolParents(store, inputs) && IsDepth(parents, executionDepth, depth)
    {
      parents := {};
      var deepest := 0;
      var i := 0;
      while i < |inputs|
        invariant 0 <= i <= |inputs|
        invariant forall o :: o in inputs[..i] ==> store(o).Some?
        invariant parents == MempoolParents(store, inputs[..i]) && IsMaxDepth(parents, executionDepth, deepest)
      {
        var o := inputs[i];
        assert inputs[..i + 1] == inputs[..i] + [o];
        match store(o) {
          case None =>
            return true, {}, 0;
          case Some(onChain) =>
            assert MempoolParents(store, inputs[..i + 1]) == parents + if onChain then {} else {o.0};
            if !onChain {
              ghost var parents0, deepest0 := parents, deepest;
              parents := parents + {o.0};
              if o.0 in executionDepth {
                deepest := if executionDepth[o.0] > deepest then executionDepth[o.0] else deepest;
              }
              MaxWithOne(parents0, executionDepth, deepest0, o.0);
            }
        }
        i := i + 1;
      }
      assert inputs[..i] == inputs;
      return false, parents, if parents == {} then 0 else deepest + 1;
    }

    method AddChild(parents: set<Hash>, t: Hash)
      modifies this`parentToChildren
      ensures ChildAdded(old(parentToChildren), parents, t, parentToChildren)
    {
      var pending := parents;
      while pending != {}
        invariant pending <= parents && ChildAdded(old(parentToChildren), parents - pending, t, parentToChildren)
        decreases pending
      {
        var p :| p in pending;
        parentToChildren := parentToChildren[p := Out(parentToChildren, p) + {t}];
        pending := pending - {p};
      }
    }

    /** The answer about a transaction that is tracked. */
    method DescribeChain(t: Hash) returns (r: Registration)
      requires Acyclic(childToParents) && t in executionDepth
      ensures r.Registered? && ChainRight(childToParents, t, r.chain) && r.chain.depth == executionDepth[t]
    {
      var sequence := GetExecutionSequence(t);
      var ancestors := Collect(childToParents, t);
      assert Elems(sequence) == ancestors;
      r := Registered(Chain(Out(childToParents, t), ancestors, sequence, executionDepth[t]));
    }

    // ----- execution sequence -----

    method GetExecutionSequence(t: Hash) returns (sequence: seq<Hash>)
      requires Acyclic(childToParents)
      ensures NoDup(sequence) && Kahn.ParentsFirst(childToParents, sequence)
      ensures forall x :: x in Elems(sequence) <==> ReachPlus(childToParents, t, x)
    {
      var ancestors := Collect(childToParents, t);
      ghost var par := Within(childToParents, ancestors);
      var inDegree, edges := BuildEdges(ancestors);
      WholeChildren(par, ancestors, inDegree, edges);
      sequence := Kahn.Sort(par, inDegree, edges);
      WholeSequence(childToParents, t, ancestors, sequence);
    }

    method BuildEdges(ancestors: set<Hash>) returns (inDegree: map<Hash, nat>, edges: Graph)
      ensures EdgesFrom(Within(childToParents, ancestors), ancestors, inDegree, edges)
    {
      ghost var par := Within(childToParents, ancestors);
      inDegree := map a | a in ancestors :: 0;
      edges := map a | a in ancestors :: {};
      var pending := ancestors;
      ghost var done: set<Hash> := {};
      while pending != {}
        invariant pending <= ancestors && done == ancestors - pending && EdgesFrom(par, done, inDegree, edges)
        decreases pending
      {
        var a :| a in pending;
        ghost var edges0 := edges;
        var degree;
        degree, edges := AddParents(ancestors, a, edges);
        EdgesFromOneMore(par, done, a, inDegree, edges0, degree, edges);
        inDegree := inDegree[a := degree];
        Remaining(ancestors, pending, a);
        done := done + {a};
        pending := pending - {a};
      }
    }

    method AddParents(ancestors: set<Hash>, a: Hash, edges: Graph) returns (degree: nat, edges1: Graph)
      requires forall p: Hash :: p in ancestors ==> p in edges
      ensures var mine := Among(childToParents, ancestors, a); degree == |mine| && EdgesAdded(edges, mine, a, edges1)
    {
      degree, edges1 := 0, edges;
      var parents := Out(childToParents, a);
      var pending := parents;
      ghost var done: set<Hash> := {};
      while pending != {}
        invariant forall p: Hash :: p in pending ==> p in parents
        invariant forall p: Hash :: p in done <==> p in parents && p in ancestors && p !in pending
        invariant degree == |done| && EdgesAdded(edges, done, a, edges1)
        decreases pending
      {
        var p :| p in pending;
        EdgesAddedMore(edges, done, a, edges1, p);
        if p in ancestors {
          degree := degree + 1;
          edges1 := edges1[p := edges1[p] + {a}];
          done := done + {p};
        }
        pending := pending - {p};
      }
      assert done == Among(childToParents, ancestors, a);
    }

    // ----- removal -----

    /** A removed transaction stays among its children's recorded parents. */
    method RemoveTransaction(t: Hash) returns (evicted: seq<Hash>)
      requires Valid()
      modifies this
      ensures Valid() && evicted != [] && evicted[0] == t
      ensures childToParents == old(childToParents) - Elems(evicted)
      ensures parentToChildren == old(parentToChildren) - Elems(evicted)
      ensures forall i :: 0 < i < |evicted| ==> evicted[i] in Orphans(old(childToParents))
      ensures evicted == [t] <==> Out(old(parentToChildren), t) * Orphans(old(childToParents)) <= {t}
      ensures evicted == [t] ==> DepthsRecalculated(childToParents, executionDepth, Out(old(parentToChildren), t))
      ensures DepthsUntouched(old(parentToChildren), Elems(evicted), old(executionDepth), executionDepth)
      ensures old(LinksBack(parentToChildren, childToParents)) ==>
                evicted == [t] && LinksBack(parentToChildren, childToParents)
    {
      ghost var parents0, children0 := childToParents, parentToChildren;
      LinkedHaveParents(children0, parents0, t);
      evicted := [t];
      var toProcess := [t];
      ghost var gone: set<Hash> := {};
      while toProcess != []
        invariant EvictedSoFar(parents0, children0, t, gone, evicted, toProcess)
        invariant childToParents == parents0 - gone && parentToChildren == children0 - gone && Valid()
        invariant evicted == [t] && toProcess == [] ==> DepthsRecalculated(childToParents, executionDepth, Out(children0, t))
        invariant DepthsUntouched(children0, gone, old(executionDepth), executionDepth)
        decreases parentToChildren.Keys, |toProcess|
      {
        var current, rest := toProcess[|toProcess| - 1], toProcess[..|toProcess| - 1];
        ghost var depths0, left := executionDepth, parentToChildren;
        var orphans := Evict(current);
        MinusOneMore(parents0, gone, current);
        MinusOneMore(children0, gone, current);
        KeysLeft(left, current);
        EvictedMore(parents0, children0, t, gone, evicted, toProcess, orphans);
        UntouchedMore(children0, gone, current, old(executionDepth), depths0, executionDepth);
        gone := gone + {current};
        toProcess := rest + orphans;
        evicted := evicted + orphans;
      }
      LinksBackDropped(children0, parents0, gone);
    }

    /** Takes one transaction out and returns its children that are left without any recorded parent. */
    method Evict(t: Hash) returns (orphans: seq<Hash>)
      requires Valid()
      modifies this
      ensures Valid() && childToParents == old(childToParents) - {t} && parentToChildren == old(parentToChildren) - {t}
      ensures Elems(orphans) == Out(old(parentToChildren), t) * Orphans(old(childToParents) - {t})
      ensures Out(old(parentToChildren), t) == {} ==> orphans == []
      ensures DepthsRecalculated(childToParents, executionDepth, Out(old(parentToChildren), t))
      ensures DepthsUntouched(old(parentToChildren), {t}, old(executionDepth), executionDepth)
    {
      var children := Out(parentToChildren, t);
      AcyclicMonotone(childToParents - {t}, childToParents);
      Forget(t);
      orphans := ProcessChildren(children);
    }

    /** Drops a transaction from every structure. */
    method Forget(t: Hash)
      requires executionDepth.Keys == childToParents.Keys && IndexExact(executionDepth, depthIndex)
      modifies this
      ensures childToParents == old(childToParents) - {t} && parentToChildren == old(parentToChildren) - {t}
      ensures executionDepth == old(executionDepth) - {t} && IndexExact(executionDepth, depthIndex)
    {
      childToParents := childToParents - {t};
      parentToChildren := parentToChildren - {t};
      if t in executionDepth {
        var d := executionDepth[t];
        IndexDropped(executionDepth, depthIndex, t);
        executionDepth := executionDepth - {t};
        if d in depthIndex {
          depthIndex := depthIndex[d := depthIndex[d] - {t}];
        }
      }
    }

    /** Children without any recorded parent go too; the others get a new depth. */
    method ProcessChildren(children: set<Hash>) returns (orphans: seq<Hash>)
      requires Acyclic(childToParents) && executionDepth.Keys == childToParents.Keys && IndexExact(executionDepth, depthIndex)
      modifies this`executionDepth, this`depthIndex
      ensures executionDepth.Keys == childToParents.Keys && IndexExact(executionDepth, depthIndex)
      ensures Elems(orphans) == children * Orphans(childToParents) && (children == {} ==> orphans == [])
      ensures forall x :: x in executionDepth && x !in children ==> executionDepth[x] == old(executionDepth)[x]
      ensures DepthsRecalculated(childToParents, executionDepth, children)
    {
      NoLoops(childToParents);
      orphans := [];
      var pending := children;
      while pending != {}
        invariant pending == children ==> orphans == []
        invariant pending <= children && Elems(orphans) == (children - pending) * Orphans(childToParents)
        invariant executionDepth.Keys == childToParents.Keys && IndexExact(executionDepth, depthIndex)
        invariant forall x :: x in executionDepth && x !in children ==> executionDepth[x] == old(executionDepth)[x]
        invariant forall c :: c in children - pending ==> RecalculatedAt(childToParents, executionDepth, children, c)
        decreases pending
      {
        var c :| c in pending;
        if c in childToParents {
          if childToParents[c] == {} {
            assert Elems(orphans + [c]) == Elems(orphans) + {c};
            orphans := orphans + [c];
          } else {
            ghost var depths0 := executionDepth;
            Recalculate(c);
            forall x | x in children - pending + {c}
              ensures RecalculatedAt(childToParents, executionDepth, children, x)
            {
              assert x != c ==> RecalculatedAt(childToParents, depths0, children, x);
            }
          }
        }
        pending := pending - {c};
      }
    }

    method Recalculate(t: Hash)
      requires t in childToParents && t !in childToParents[t]
      requires executionDepth.Keys == childToParents.Keys && IndexExact(executionDepth, depthIndex)
      modifies this`executionDepth, this`depthIndex
      ensures executionDepth.Keys == childToParents.Keys && IndexExact(executionDepth, depthIndex)
      ensures executionDepth == old(executionDepth)[t := executionDepth[t]]
      ensures IsDepth(childToParents[t], executionDepth, executionDepth[t])
    {
      var deepest := 0;
      var pending := childToParents[t];
      ghost var seen: set<Hash> := {};
      while pending != {}
        invariant pending + seen == childToParents[t] && IsMaxDepth(seen, executionDepth, deepest)
        modifies {}
        decreases pending
      {
        var p :| p in pending;
        MaxWithOne(seen, executionDepth, deepest, p);
        if p in executionDepth && executionDepth[p] > deepest {
          deepest := executionDepth[p];
        }
        seen := seen + {p};
        pending := pending - {p};
      }
      var depth := if childToParents[t] == {} then 0 else deepest + 1;
      var before := executionDepth[t];
      if before != depth {
        IndexDropped(executionDepth, depthIndex, t);
        IndexAdded(executionDepth - {t}, depthIndex[before := At(depthIndex, before) - {t}], t, depth);
        assert (executionDepth - {t})[t := depth] == executionDepth[t := depth];
        executionDepth := executionDepth[t := depth];
        if before in depthIndex {
          depthIndex := depthIndex[before := depthIndex[before] - {t}];
        }
        depthIndex := depthIndex[depth := At(depthIndex, depth) + {t}];
      }
    }
  }

  // ----- helpers -----

  ghost predicate ChildAdded(children: Graph, parents: set<Hash>, t: Hash, children1: Graph) {
    forall p :: Out(children1, p) == if p in parents then Out(children, p) + {t} else Out(children, p)
  }

  ghost predicate EdgesAdded(edges: Graph, parents: set<Hash>, a: Hash, edges1: Graph) {
    && edges1.Keys == edges.Keys
    && forall p :: p in edges ==> edges1[p] == if p in parents then edges[p] + {a} else edges[p]
  }

  /** In-degrees and edges after the transactions in `done` were handled. */
  ghost predicate EdgesFrom(par: Graph, done: set<Hash>, inDegree: map<Hash, nat>, edges: Graph) {
    && inDegree.Keys == edges.Keys == par.Keys
    && (forall a :: a in par ==> inDegree[a] == if a in done then |par[a]| else 0)
    && (forall p :: p in par ==> edges[p] == Kahn.Children(par, p) * done)
  }

  lemma WholeChildren(par: Graph, all: set<Hash>, inDegree: map<Hash, nat>, adjacency: Graph)
    requires par.Keys == all && EdgesFrom(par, all, inDegree, adjacency)
    ensures forall t :: t in par ==> inDegree[t] == |par[t]| && adjacency[t] == Kahn.Children(par, t)
  {
    forall t | t in par
      ensures adjacency[t] == Kahn.Children(par, t)
    {
      assert Kahn.Children(par, t) * all == Kahn.Children(par, t);
    }
  }

  lemma EdgesFromOneMore(par: Graph, done: set<Hash>, a: Hash, inDegree: map<Hash, nat>, edges: Graph, degree: nat, edges1: Graph)
    requires EdgesFrom(par, done, inDegree, edges) && a in par
    requires degree == |par[a]| && EdgesAdded(edges, par[a], a, edges1)
    ensures EdgesFrom(par, done + {a}, inDegree[a := degree], edges1)
  {
    forall p | p in par
      ensures edges1[p] == Kahn.Children(par, p) * (done + {a})
    {
      assert a in Kahn.Children(par, p) <==> p in par[a];
      assert Kahn.Children(par, p) * (done + {a}) == Kahn.Children(par, p) * done + Kahn.Children(par, p) * {a};
    }
  }

  lemma IndexAdded(depths: map<Hash, nat>, index: map<nat, set<Hash>>, t: Hash, d: nat)
    requires IndexExact(depths, index) && t !in depths
    ensures IndexExact(depths[t := d], index[d := At(index, d) + {t}])
  {
    var index1 := index[d := At(index, d) + {t}];
    assert forall e: nat, x: Hash :: x in At(index1, e) <==> x in At(index, e) || (e == d && x == t);
  }

  lemma EdgesAddedMore(edges: Graph, done: set<Hash>, a: Hash, edges1: Graph, p: Hash)
    requires EdgesAdded(edges, done, a, edges1)
    ensures p in edges ==> EdgesAdded(edges, done + {p}, a, edges1[p := edges1[p] + {a}])
  {
  }

  lemma BackEdge(g: Graph, path: set<Hash>, current: Hash, p: Hash)
    requires forall x :: x in path ==> Reach(g, x, current)
    requires p in Out(g, current) && p in path + {current}
    ensures !Acyclic(g)
  {
    ReachRefl(g, current);
    assert Reach(g, p, current);
    assert ReachPlus(g, current, current);
  }

  /** Taking out a key leaves fewer keys; a node without an entry has no children. */
  lemma KeysLeft(g: Graph, t: Hash)
    ensures if t in g then (g - {t}).Keys < g.Keys else g - {t} == g && Out(g, t) == {}
  {
    if t in g {
      assert t !in (g - {t}).Keys;
    }
  }

  lemma NoLoops(g: Graph)
    requires Acyclic(g)
    ensures forall x :: x in g ==> x !in g[x]
  {
    forall x | x in g && x in g[x]
      ensures false
    {
      ReachEdge(g, x, x);
    }
  }

  lemma MaxWithOne(parents: set<Hash>, depths: map<Hash, nat>, m: nat, p: Hash)
    requires IsMaxDepth(parents, depths, m)
    ensures IsMaxDepth(parents + {p}, depths, if p in depths && depths[p] > m then depths[p] else m)
  {
    if m > 0 {
      var q :| q in parents && q in depths && depths[q] == m;
      assert q in parents + {p};
    }
    assert p in parents + {p};
  }

  /** The parents of the listed transactions among themselves. */
  function Within(g: Graph, s: set<Hash>): Graph {
    map a | a in s :: Among(g, s, a)
  }

  function Among(g: Graph, s: set<Hash>, a: Hash): set<Hash> {
    Out(g, a) * s
  }

  /** The ancestors are closed under taking parents, so nothing is lost by restricting to them. */
  lemma WithinFacts(g: Graph, t: Hash, ancestors: set<Hash>)
    requires Acyclic(g) && forall x :: x in ancestors <==> ReachPlus(g, t, x)
    ensures forall a :: a in ancestors ==> Within(g, ancestors)[a] == Out(g, a)
    ensures Acyclic(Within(g, ancestors))
  {
    forall a | a in ancestors
      ensures Out(g, a) <= ancestors
    {
      forall p | p in Out(g, a)
        ensures p in ancestors
      {
        ReachEdge(g, a, p);
        ReachPlusTrans(g, t, a, p);
      }
    }
    AcyclicMonotone(Within(g, ancestors), g);
  }

  /** Sorting the ancestors among themselves gives all of them, parents first. */
  lemma WholeSequence(g: Graph, t: Hash, ancestors: set<Hash>, sequence: seq<Hash>)
    requires Acyclic(g) && forall x :: x in ancestors <==> ReachPlus(g, t, x)
    requires Kahn.Final(Within(g, ancestors), Kahn.NoSurplus(Within(g, ancestors)), sequence)
    ensures Elems(sequence) == ancestors && Kahn.ParentsFirst(g, sequence)
  {
    var par := Within(g, ancestors);
    WithinFacts(g, t, ancestors);
    Kahn.CompleteIff(par, Kahn.NoSurplus(par), sequence);
    forall i, p | 0 <= i < |sequence| && p in Out(g, sequence[i])
      ensures Kahn.Before(sequence, p, i)
    {
      assert sequence[i] in Elems(sequence);
      assert p in Out(par, sequence[i]);
    }
  }

  // ----- removal -----

  /** Tracked transactions without any recorded parent. */
  function Orphans(parents: Graph): set<Hash> {
    set c | c in parents && parents[c] == {}
  }

  /** The depth of a child agrees with its parents' depths, unless one of them was recalculated in the same pass. */
  ghost predicate RecalculatedAt(parents: Graph, depths: map<Hash, nat>, children: set<Hash>, c: Hash) {
    c in parents && parents[c] != {} && parents[c] !! children ==> c in depths && IsDepth(parents[c], depths, depths[c])
  }

  ghost predicate DepthsRecalculated(parents: Graph, depths: map<Hash, nat>, children: set<Hash>) {
    forall c :: c in children ==> RecalculatedAt(parents, depths, children, c)
  }

  /** Only children of removed transactions can change their depth. */
  ghost predicate DepthsUntouched(children: Graph, gone: set<Hash>, depths: map<Hash, nat>, depths1: map<Hash, nat>) {
    && depths1.Keys <= depths.Keys
    && forall x :: x in depths1 && depths1[x] != depths[x] ==> exists e :: e in gone && x in Out(children, e)
  }

  lemma IndexDropped(depths: map<Hash, nat>, index: map<nat, set<Hash>>, t: Hash)
    requires IndexExact(depths, index) && t in depths
    ensures depths[t] in index
    ensures IndexExact(depths - {t}, index[depths[t] := At(index, depths[t]) - {t}])
  {
    var d := depths[t];
    var index1 := index[d := At(index, d) - {t}];
    assert t in At(index, d);
    assert forall e: nat, x: Hash :: x in At(index1, e) <==> x in At(index, e) && (e != d || x != t);
  }

  // ----- theorems about depths and links -----

  ghost predicate DepthsExact(parents: Graph, depths: map<Hash, nat>) {
    parents.Keys == depths.Keys && forall t :: t in parents ==> ExactAt(parents, depths, t)
  }

  ghost predicate ExactAt(parents: Graph, depths: map<Hash, nat>, t: Hash) {
    t in parents && t in depths && IsDepth(parents[t], depths, depths[t])
  }

  /** A registration keeps every depth exact if and only if the new transaction is shallower than its tracked children. */
  lemma DepthsKeptIff(parents: Graph, depths: map<Hash, nat>, t: Hash, mine: set<Hash>, d: nat)
    requires DepthsExact(parents, depths) && t !in parents && t !in mine && IsDepth(mine, depths, d)
    ensures DepthsExact(parents[t := mine], depths[t := d]) <==>
              forall c :: c in parents && t in parents[c] ==> d < depths[c]
  {
    var parents1, depths1 := parents[t := mine], depths[t := d];
    DepthKept(mine, depths, t, d, d);
    assert ExactAt(parents1, depths1, t);
    forall c | c in parents
      ensures ExactAt(parents1, depths1, c) <==> (t in parents[c] ==> d < depths[c])
    {
      ExactAtKept(parents, depths, t, mine, d, c);
    }
    assert DepthsExact(parents1, depths1) <==> forall c :: c in parents ==> ExactAt(parents1, depths1, c);
  }

  lemma ExactAtKept(parents: Graph, depths: map<Hash, nat>, t: Hash, mine: set<Hash>, d: nat, c: Hash)
    requires ExactAt(parents, depths, c) && t !in depths && c != t
    ensures ExactAt(parents[t := mine], depths[t := d], c) <==> (t in parents[c] ==> d < depths[c])
  {
    DepthKept(parents[c], depths, t, d, depths[c]);
  }

  lemma DepthKept(mine: set<Hash>, depths: map<Hash, nat>, t: Hash, d: nat, depth: nat)
    requires IsDepth(mine, depths, depth) && t !in depths
    ensures IsDepth(mine, depths[t := d], depth) <==> (t in mine ==> d < depth)
  {
    var depths1 := depths[t := d];
    if mine != {} && depth > 1 {
      var p :| p in mine && p in depths && depths[p] == depth - 1;
      assert p in depths1 && depths1[p] == depth - 1;
    }
    assert t in depths1 && depths1[t] == d;
  }

  /** Every mempool parent is tracked, and depths are exact. */
  ghost predicate ParentsTracked(parents: Graph, depths: map<Hash, nat>) {
    DepthsExact(parents, depths) && forall t :: t in parents ==> parents[t] <= parents.Keys
  }

  lemma ParentsFirstKeeps(parents: Graph, depths: map<Hash, nat>, t: Hash, mine: set<Hash>, d: nat)
    requires ParentsTracked(parents, depths) && t !in parents && mine <= parents.Keys && IsDepth(mine, depths, d)
    ensures ParentsTracked(parents[t := mine], depths[t := d])
  {
    forall c | c in parents
      ensures t !in parents[c]
    {
      assert parents[c] <= parents.Keys;
    }
    DepthsKeptIff(parents, depths, t, mine, d);
  }

  /** A transaction none of whose parents is new to the graph closes no cycle. */
  lemma ParentsFirstAcyclic(parents: Graph, t: Hash, mine: set<Hash>)
    requires Acyclic(parents) && Closed(parents, parents.Keys) && t !in parents && mine <= parents.Keys
    ensures Acyclic(parents[t := mine])
  {
    forall p | p in mine
      ensures !Reach(parents, p, t)
    {
      if Reach(parents, p, t) {
        ClosedReach(parents, parents.Keys, p, t);
      }
    }
    NewNodeAcyclic(parents, t, mine);
  }

  /** With exact depths every tracked ancestor is shallower. */
  lemma AncestorsShallower(parents: Graph, depths: map<Hash, nat>, t: Hash, a: Hash)
    requires DepthsExact(parents, depths) && ReachPlus(parents, t, a) && a in parents
    ensures t in parents && depths[a] < depths[t]
  {
    var z :| z in Out(parents, t) && Reach(parents, z, a);
    var p :| IsPath(parents, p) && p[0] == z && p[|p| - 1] == a;
    PathDescends(parents, depths, t, p);
  }

  lemma {:induction false} PathDescends(parents: Graph, depths: map<Hash, nat>, t: Hash, p: seq<Hash>)
    requires DepthsExact(parents, depths) && IsPath(parents, p) && p[0] in Out(parents, t) && p[|p| - 1] in parents
    ensures t in parents && depths[p[|p| - 1]] < depths[t]
    decreases |p|
  {
    assert ExactAt(parents, depths, t);
    if |p| > 1 {
      assert EdgeAt(parents, p, 0);
      PathPieces(parents, p, 1);
      PathDescends(parents, depths, p[0], p[1..]);
    }
  }

  /** The evicted transactions are the handled ones and the waiting ones; after the first all had no recorded parent. */
  ghost predicate EvictedSoFar(parents: Graph, children: Graph, t: Hash, gone: set<Hash>, evicted: seq<Hash>, toProcess: seq<Hash>) {
    && evicted != [] && evicted[0] == t && Elems(evicted) == gone + Elems(toProcess)
    && (forall i :: 0 < i < |evicted| ==> evicted[i] in Orphans(parents))
    && (if gone == {} then toProcess == evicted == [t]
        else evicted == [t] <==> Out(children, t) * Orphans(parents) <= {t})
    && (evicted == [t] && gone != {} ==> toProcess == [])
  }

  lemma EvictedMore(parents: Graph, children: Graph, t: Hash, gone: set<Hash>, evicted: seq<Hash>, toProcess: seq<Hash>, orphans: seq<Hash>)
    requires EvictedSoFar(parents, children, t, gone, evicted, toProcess) && toProcess != []
    requires var current := toProcess[|toProcess| - 1];
             && Elems(orphans) == Out(children - gone, current) * Orphans(parents - gone - {current})
             && (Out(children - gone, current) == {} ==> orphans == [])
    ensures EvictedSoFar(parents, children, t, gone + {toProcess[|toProcess| - 1]}, evicted + orphans,
                         toProcess[..|toProcess| - 1] + orphans)
  {
    var current, rest := toProcess[|toProcess| - 1], toProcess[..|toProcess| - 1];
    assert toProcess == rest + [current];
    ElemsConcat(rest, [current]);
    ElemsConcat(rest, orphans);
    ElemsConcat(evicted, orphans);
    EvictedAre(parents, gone, evicted, orphans, Out(children - gone, current), current);
    if gone == {} {
      assert children - gone == children && current == t;
    }
  }

  lemma EvictedAre(parents: Graph, gone: set<Hash>, evicted: seq<Hash>, orphans: seq<Hash>, children: set<Hash>, t: Hash)
    requires Elems(orphans) == children * Orphans(parents - gone - {t})
    requires evicted != [] && forall i :: 0 < i < |evicted| ==> evicted[i] in Orphans(parents)
    ensures forall i :: 0 < i < |evicted + orphans| ==> (evicted + orphans)[i] in Orphans(parents)
    ensures gone == {} ==> (orphans == [] <==> children * Orphans(parents) <= {t})
  {
    forall i | 0 <= i < |orphans|
      ensures orphans[i] in Orphans(parents)
    {
      assert orphans[i] in Elems(orphans);
    }
    if gone == {} {
      assert Orphans(parents - gone - {t}) == Orphans(parents) - {t};
      ElemsConcat([], orphans);
    }
  }

  lemma UntouchedMore(children: Graph, gone: set<Hash>, t: Hash, depths0: map<Hash, nat>, depths1: map<Hash, nat>, depths2: map<Hash, nat>)
    requires DepthsUntouched(children, gone, depths0, depths1) && DepthsUntouched(children - gone, {t}, depths1, depths2)
    ensures DepthsUntouched(children, gone + {t}, depths0, depths2)
  {
    forall x | x in depths2 && depths2[x] != depths0[x]
      ensures exists e :: e in gone + {t} && x in Out(children, e)
    {
      if depths1[x] != depths0[x] {
        var e :| e in gone && x in Out(children, e);
        assert e in gone + {t};
      } else {
        var e :| e in {t} && x in Out(children - gone, e);
        assert e in gone + {t} && x in Out(children, e);
      }
    }
  }

  lemma LinkedHaveParents(children: Graph, parents: Graph, t: Hash)
    ensures LinksBack(children, parents) ==> Out(children, t) * Orphans(parents) == {}
  {
  }

  lemma LinksBackDropped(children: Graph, parents: Graph, gone: set<Hash>)
    ensures LinksBack(children, parents) ==> LinksBack(children - gone, parents - gone)
  {
    if LinksBack(children, parents) {
      forall p: Hash, c: Hash | c in Out(children - gone, p) && c in parents - gone
        ensures p in (parents - gone)[c]
      {
        assert c in Out(children, p);
      }
    }
  }

  /** Re-registering can break the links only through stale child entries of transactions that are no parent any more. */
  lemma LinksBackKeptIff(children: Graph, parents: Graph, t: Hash, mine: set<Hash>, children1: Graph)
    requires LinksBack(children, parents) && t !in parents && ChildAdded(children, mine, t, children1)
    ensures LinksBack(children1, parents[t := mine]) <==> forall p: Hash :: t in Out(children, p) ==> p in mine
  {
    var parents1 := parents[t := mine];
    assert forall p: Hash, c: Hash :: c in Out(children1, p) <==> c in Out(children, p) || (c == t && p in mine);
    if LinksBack(children1, parents1) {
      forall p: Hash | t in Out(children, p)
        ensures p in mine
      {
        assert t in Out(children1, p) && t in parents1;
        assert p in parents1[t];
      }
    }
  }
}
