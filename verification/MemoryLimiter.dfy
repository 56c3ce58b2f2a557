/**
 The memory limiter: a weight counter beside the map of tracked weights, eviction of a transaction with all recorded
 dependents, and making space for a new transaction by evicting in candidate order.
 */
module MemoryLimiter {
  import opened Basics
  import opened Graphs
  import opened ListMap

  type Weights = map<Hash, nat>

  function Same(w: nat): nat {
    w
  }

  /** The weight of everything that is tracked. */
  ghost function Total(weights: Weights): nat {
    Sum(weights, Same)
  }

  lemma TotalSplit(weights: Weights, t: Hash)
    ensures t in weights ==> Total(weights) == weights[t] + Total(weights - {t})
    ensures t !in weights ==> weights - {t} == weights
  {
    if t in weights {
      SumSplit(weights, t, Same);
    }
  }

  lemma TotalInsert(weights: Weights, t: Hash, w: nat)
    ensures Total(weights[t := w]) + (if t in weights then weights[t] else 0) == Total(weights) + w
  {
    SumInsert(weights, t, w, Same);
    TotalSplit(weights, t);
  }

  /** Eviction priority: lower score first, then fewer recorded children, then the smaller hash. */
  predicate EvictedBefore(score: Hash -> int, graph: Lists, a: Hash, b: Hash) {
    || score(a) < score(b)
    || (score(a) == score(b) && (|List(graph, a)| < |List(graph, b)| || (|List(graph, a)| == |List(graph, b)| && a < b)))
  }

  /** Of the two the first is the one to lose: by score, for equal scores by the children listed, then by hash. */
  ghost predicate WorthLess(score: Hash -> int, graph: Lists, a: Hash, b: Hash) {
    && score(a) <= score(b)
    && (score(a) == score(b) ==> |List(graph, a)| <= |List(graph, b)|)
    && (score(a) == score(b) && |List(graph, a)| == |List(graph, b)| ==> a < b)
  }

  ghost predicate InEvictionOrder(score: Hash -> int, graph: Lists, s: seq<Hash>) {
    forall i, j :: 0 <= i < j < |s| ==> WorthLess(score, graph, s[i], s[j])
  }

  datatype Eviction = Eviction(evicted: seq<Hash>, freed: nat, cascaded: nat)

  class Limiter {
    const maxSize: nat
    var currentWeight: nat
    var txWeights: Weights
    var dependencyGraph: Lists
    /** Weight of entries that were overwritten by adding a tracked hash again. */
    ghost var drift: nat

    ghost predicate Valid()
      reads this
    {
      currentWeight == Total(txWeights) + drift
    }

    constructor (maxSize: nat)
      ensures Valid() && drift == 0 && txWeights == map[] && this.maxSize == maxSize
    {
      this.maxSize := maxSize;
      currentWeight, txWeights, dependencyGraph, drift := 0, map[], map[], 0;
    }

    /** The counter goes wrong by exactly the weight that a second addition overwrites. */
    method AddTxWeight(t: Hash, w: nat)
      requires Valid()
      modifies `currentWeight, `txWeights, `drift
      ensures Valid() && txWeights == old(txWeights)[t := w] && currentWeight == old(currentWeight) + w
      ensures drift == old(drift) + if t in old(txWeights) then old(txWeights)[t] else 0
    {
      TotalInsert(txWeights, t, w);
      drift := drift + if t in txWeights then txWeights[t] else 0;
      txWeights := txWeights[t := w];
      currentWeight := currentWeight + w;
    }

    method RemoveTxWeight(t: Hash) returns (freed: nat)
      requires Valid()
      modifies `currentWeight, `txWeights
      ensures Valid() && txWeights == old(txWeights) - {t}
      ensures freed == old(currentWeight) - currentWeight == if t in old(txWeights) then old(txWeights)[t] else 0
    {
      TotalSplit(txWeights, t);
      if t in txWeights {
        freed := txWeights[t];
        txWeights := txWeights - {t};
        currentWeight := currentWeight - freed;
      } else {
        freed := 0;
      }
    }

    method RegisterDependency(parent: Hash, child: Hash)
      modifies `dependencyGraph
      ensures dependencyGraph ==
              old(dependencyGraph)[parent :=
                (if parent in old(dependencyGraph) then old(dependencyGraph)[parent] else []) + [child]]
      ensures forall p: Hash, c: Hash :: Has(dependencyGraph, p, c) <==> Has(old(dependencyGraph), p, c) || (p == parent && c == child)
    {
      PushHas(dependencyGraph, parent, child);
      dependencyGraph := Push(dependencyGraph, parent, child);
    }

    method UnregisterDependency(parent: Hash, child: Hash)
      modifies `dependencyGraph
      ensures forall p: Hash, c: Hash :: Has(dependencyGraph, p, c) <==> Has(old(dependencyGraph), p, c) && !(p == parent && c == child)
      ensures dependencyGraph.Keys <= old(dependencyGraph.Keys)
      ensures forall p: Hash :: p != parent ==> List(dependencyGraph, p) == List(old(dependencyGraph), p)
      ensures parent in dependencyGraph ==> dependencyGraph[parent] != []
    {
      if parent in dependencyGraph {
        var children := Retain(dependencyGraph[parent], {child});
        forall c: Hash
          ensures c in children <==> c in dependencyGraph[parent] && c != child
        {
          RetainMembers(dependencyGraph[parent], {child}, c);
        }
        if children == [] {
          dependencyGraph := dependencyGraph - {parent};
        } else {
          dependencyGraph := dependencyGraph[parent := children];
        }
      }
    }

    // ----- candidates -----

    method GetEvictionCandidates(score: Hash -> int) returns (candidates: seq<Hash>)
      ensures NoDup(candidates) && Elems(candidates) == txWeights.Keys
      ensures InEvictionOrder(score, dependencyGraph, candidates)
    {
      candidates := [];
      var pending := txWeights.Keys;
      while pending != {}
        invariant pending <= txWeights.Keys && NoDup(candidates) && Elems(candidates) == txWeights.Keys - pending
        invariant InEvictionOrder(score, dependencyGraph, candidates)
        decreases pending
      {
        var t :| t in pending;
        var j := 0;
        while j < |candidates| && EvictedBefore(score, dependencyGraph, candidates[j], t)
          invariant 0 <= j <= |candidates|
          invariant forall k :: 0 <= k < j ==> EvictedBefore(score, dependencyGraph, candidates[k], t)
        {
          j := j + 1;
        }
        InsertInOrder(score, dependencyGraph, candidates, t, j);
        candidates := candidates[..j] + [t] + candidates[j..];
        pending := pending - {t};
      }
    }

    // ----- eviction -----

    method CollectDependents(t: Hash) returns (dependents: seq<Hash>)
      ensures forall x :: x in Elems(dependents) <==> ReachPlus(AsGraph(dependencyGraph), t, x)
    {
      ghost var g := AsGraph(dependencyGraph);
      dependents := [];
      var stack := [t];
      var visited: set<Hash> := {};
      while stack != []
        invariant Visiting(g, t, visited, Elems(stack), Elems(dependents))
        decreases Nodes(g) + {t} - visited, |stack|
      {
        var current := stack[|stack| - 1];
        ElemsLast(stack);
        stack := stack[..|stack| - 1];
        VisitStep(g, t, visited, Elems(stack), Elems(dependents), current);
        if current !in visited {
          visited := visited + {current};
          var children := List(dependencyGraph, current);
          assert Elems(children) == Out(g, current);
          ElemsConcat(dependents, children);
          ElemsConcat(stack, children);
          dependents := dependents + children;
          stack := stack + children;
        }
      }
      VisitedAll(g, t, visited, Elems(dependents));
    }

    method EvictTransactionCascade(t: Hash) returns (e: Eviction)
      requires Valid()
      modifies `currentWeight, `txWeights, `dependencyGraph
      ensures Valid() && e.freed == old(currentWeight) - currentWeight == old(Total(txWeights)) - Total(txWeights)
      ensures txWeights == old(txWeights) - Elems(e.evicted)
      ensures forall x :: x in Elems(e.evicted) <==> Reach(AsGraph(old(dependencyGraph)), t, x)
      ensures e.evicted != [] && e.evicted[0] == t && e.cascaded == |e.evicted| - 1
      ensures forall p: Hash, c: Hash :: Has(dependencyGraph, p, c) <==> Has(old(dependencyGraph), p, c) && p != t && c != t
    {
      var evicted := [t];
      var freed := RemoveTxWeight(t);
      var dependents := CollectDependents(t);
      var i := 0;
      while i < |dependents|
        invariant 0 <= i <= |dependents| && evicted == [t] + dependents[..i]
        invariant Valid() && txWeights == old(txWeights) - Elems(evicted)
        invariant freed == old(currentWeight) - currentWeight && dependencyGraph == old(dependencyGraph)
      {
        var more := RemoveTxWeight(dependents[i]);
        freed := freed + more;
        MinusOneMore(old(txWeights), Elems(evicted), dependents[i]);
        ElemsConcat(evicted, [dependents[i]]);
        evicted := evicted + [dependents[i]];
        i := i + 1;
      }
      assert evicted == [t] + dependents;
      ElemsConcat([t], dependents);
      EvictedAreReached(AsGraph(dependencyGraph), t, dependents);
      Detach(t);
      e := Eviction(evicted, freed, |dependents|);
    }

    /** Takes a transaction out of the dependency lists, as a parent and as a child. */
    method Detach(t: Hash)
      modifies `dependencyGraph
      ensures forall p: Hash, c: Hash :: Has(dependencyGraph, p, c) <==> Has(old(dependencyGraph), p, c) && p != t && c != t
    {
      dependencyGraph := dependencyGraph - {t};
      ghost var graph0 := dependencyGraph;
      var parents := set p | p in dependencyGraph && t in dependencyGraph[p];
      var pending := parents;
      while pending != {}
        invariant pending <= parents
        invariant forall p: Hash, c: Hash :: Has(dependencyGraph, p, c) <==> Has(graph0, p, c) && !(p in parents - pending && c == t)
        decreases pending
      {
        var p :| p in pending;
        UnregisterDependency(p, t);
        pending := pending - {p};
      }
      forall p: Hash, c: Hash
        ensures Has(dependencyGraph, p, c) <==> Has(old(dependencyGraph), p, c) && p != t && c != t
      {
        assert Has(graph0, p, c) <==> Has(old(dependencyGraph), p, c) && p != t;
        assert Has(graph0, p, t) ==> p in parents;
      }
    }

    /**
     `rounds` candidates are evicted with their dependents, in eviction order, and no more than it takes: the last
     round, which freed `last`, was still needed.
     */
    method MakeSpaceFor(required: nat, score: Hash -> int)
      returns (e: Eviction, ghost candidates: seq<Hash>, ghost rounds: nat, ghost last: nat)
      requires Valid()
      modifies `currentWeight, `txWeights, `dependencyGraph
      ensures Valid() && e.freed == old(currentWeight) - currentWeight == old(Total(txWeights)) - Total(txWeights)
      ensures txWeights == old(txWeights) - Elems(e.evicted)
      ensures old(currentWeight) + required <= maxSize ==> unchanged(this) && e.evicted == []
      ensures old(currentWeight) + required > maxSize ==>
                && InEvictionOrder(score, old(dependencyGraph), candidates) && Elems(candidates) == old(txWeights.Keys)
                && rounds <= |candidates| && Elems(candidates[..rounds]) <= Elems(e.evicted)
                && (currentWeight + required <= maxSize / 2 || txWeights == map[])
                && (rounds > 0 ==> currentWeight + last + required > maxSize / 2) && e.cascaded + rounds == |e.evicted|
                && (forall x :: x in Elems(e.evicted) ==> EvictedFor(AsGraph(old(dependencyGraph)), candidates[..rounds], x))
    {
      e, candidates, rounds, last := Eviction([], 0, 0), [], 0, 0;
      if currentWeight + required <= maxSize {
        return;
      }
      var order := GetEvictionCandidates(score);
      candidates := order;
      e, rounds, last := EvictInTurn(order, required);
      if rounds == |candidates| {
        assert candidates[..rounds] == candidates;
        assert txWeights.Keys == {};
      }
    }

    /** Candidate after candidate goes, with its dependents, until the rest is down to half the maximum. */
    method EvictInTurn(order: seq<Hash>, required: nat) returns (e: Eviction, rounds: nat, ghost last: nat)
      requires Valid()
      modifies `currentWeight, `txWeights, `dependencyGraph
      ensures Valid() && e.freed == old(currentWeight) - currentWeight == old(Total(txWeights)) - Total(txWeights)
      ensures txWeights == old(txWeights) - Elems(e.evicted)
      ensures rounds <= |order| && Elems(order[..rounds]) <= Elems(e.evicted) && e.cascaded + rounds == |e.evicted|
      ensures rounds < |order| ==> currentWeight + required <= maxSize / 2
      ensures rounds > 0 ==> currentWeight + last + required > maxSize / 2
      ensures forall x :: x in Elems(e.evicted) ==> EvictedFor(AsGraph(old(dependencyGraph)), order[..rounds], x)
    {
      e, rounds, last := Eviction([], 0, 0), 0, 0;
      var current := currentWeight;
      var threshold := maxSize / 2;
      ghost var g := AsGraph(dependencyGraph);
      while rounds < |order| && current + required - e.freed > threshold
        invariant 0 <= rounds <= |order| && Valid()
        invariant e.freed == current - currentWeight && txWeights == old(txWeights) - Elems(e.evicted)
        invariant e.freed == old(Total(txWeights)) - Total(txWeights)
        invariant Elems(order[..rounds]) <= Elems(e.evicted) && e.cascaded + rounds == |e.evicted|
        invariant rounds > 0 ==> currentWeight + last + required > threshold
        invariant forall x :: x in Elems(e.evicted) ==> EvictedFor(g, order[..rounds], x)
        invariant forall p: Hash, c: Hash :: Has(dependencyGraph, p, c) ==> Has(old(dependencyGraph), p, c)
      {
        ghost var graph0 := dependencyGraph;
        var round := EvictTransactionCascade(order[rounds]);
        RoundFacts(old(dependencyGraph), graph0, order, rounds, e.evicted, round.evicted);
        MinusBoth(old(txWeights), Elems(e.evicted), Elems(round.evicted));
        e := Eviction(e.evicted + round.evicted, e.freed + round.freed, e.cascaded + round.cascaded);
        last := round.freed;
        rounds := rounds + 1;
      }
    }
  }

  // ----- helpers -----

  lemma InsertInOrder(score: Hash -> int, graph: Lists, s: seq<Hash>, t: Hash, j: nat)
    requires InEvictionOrder(score, graph, s) && NoDup(s) && t !in Elems(s) && j <= |s|
    requires forall k :: 0 <= k < j ==> EvictedBefore(score, graph, s[k], t)
    requires j < |s| ==> !EvictedBefore(score, graph, s[j], t)
    ensures InEvictionOrder(score, graph, s[..j] + [t] + s[j..]) && NoDup(s[..j] + [t] + s[j..])
    ensures Elems(s[..j] + [t] + s[j..]) == Elems(s) + {t}
  {
    InsertAt(s, j, t);
    var r := s[..j] + [t] + s[j..];
    assert forall k :: 0 <= k < |r| ==> r[k] == if k < j then s[k] else if k == j then t else s[k - 1];
    forall k | j <= k < |s|
      ensures WorthLess(score, graph, t, s[k])
    {
      assert s[j] in Elems(s);
      assert k > j ==> WorthLess(score, graph, s[j], s[k]);
    }
  }

  /** Between two pops: everything found is visited or on the stack, and the children of visited ones are found. */
  ghost predicate Visiting(g: Graph, t: Hash, visited: set<Hash>, onStack: set<Hash>, found: set<Hash>) {
    && visited + onStack == found + {t} && found <= Nodes(g)
    && (forall x :: x in found ==> ReachPlus(g, t, x))
    && (forall x :: x in visited ==> Out(g, x) <= found)
  }

  lemma VisitStep(g: Graph, t: Hash, visited: set<Hash>, rest: set<Hash>, found: set<Hash>, current: Hash)
    requires Visiting(g, t, visited, rest + {current}, found)
    ensures current in Nodes(g) + {t}
    ensures current in visited ==> Visiting(g, t, visited, rest, found)
    ensures Visiting(g, t, visited + {current}, rest + Out(g, current), found + Out(g, current))
  {
    assert current in visited + (rest + {current});
    NewlyFound(g, t, current, found);
    VisitSets(visited, rest, found, t, current, Out(g, current));
  }

  lemma VisitSets(visited: set<Hash>, rest: set<Hash>, found: set<Hash>, t: Hash, current: Hash, children: set<Hash>)
    requires visited + (rest + {current}) == found + {t}
    ensures current in visited ==> visited + rest == found + {t}
    ensures (visited + {current}) + (rest + children) == (found + children) + {t}
  {
  }

  lemma NewlyFound(g: Graph, t: Hash, current: Hash, found: set<Hash>)
    requires current in found + {t} && forall x :: x in found ==> ReachPlus(g, t, x)
    ensures Out(g, current) <= Nodes(g) && forall x :: x in Out(g, current) ==> ReachPlus(g, t, x)
  {
    forall x | x in Out(g, current)
      ensures x in Nodes(g) && ReachPlus(g, t, x)
    {
      ReachEdge(g, current, x);
      if current != t {
        ReachPlusTrans(g, t, current, x);
      }
    }
  }

  lemma VisitedAll(g: Graph, t: Hash, visited: set<Hash>, found: set<Hash>)
    requires Visiting(g, t, visited, {}, found)
    ensures forall x :: x in found <==> ReachPlus(g, t, x)
  {
    assert visited == found + {t};
    forall x | ReachPlus(g, t, x)
      ensures x in found
    {
      var z :| z in Out(g, t) && Reach(g, z, x);
      assert Closed(g, found);
      ClosedReach(g, found, z, x);
    }
  }

  lemma EvictedAreReached(g: Graph, t: Hash, dependents: seq<Hash>)
    requires forall x :: x in Elems(dependents) <==> ReachPlus(g, t, x)
    ensures forall x :: x in {t} + Elems(dependents) <==> Reach(g, t, x)
  {
    forall x
      ensures x in {t} + Elems(dependents) <==> Reach(g, t, x)
    {
      ReachRefl(g, t);
      if Reach(g, t, x) {
        ReachCases(g, t, x);
      }
      if ReachPlus(g, t, x) {
        ReachPlusReach(g, t, x);
      }
    }
  }

  /** `x` is one of the candidates of the rounds so far, or depends on one. */
  ghost predicate EvictedFor(g: Graph, roots: seq<Hash>, x: Hash) {
    exists i :: 0 <= i < |roots| && Reach(g, roots[i], x)
  }

  lemma RoundFacts(graph: Lists, graph0: Lists, order: seq<Hash>, i: nat, evicted: seq<Hash>, round: seq<Hash>)
    requires i < |order| && round != [] && round[0] == order[i]
    requires forall p: Hash, c: Hash :: Has(graph0, p, c) ==> Has(graph, p, c)
    requires forall x :: x in Elems(round) <==> Reach(AsGraph(graph0), order[i], x)
    requires forall x :: x in Elems(evicted) ==> EvictedFor(AsGraph(graph), order[..i], x)
    requires Elems(order[..i]) <= Elems(evicted)
    ensures Elems(evicted + round) == Elems(evicted) + Elems(round)
    ensures Elems(order[..i + 1]) <= Elems(evicted + round)
    ensures forall x :: x in Elems(evicted + round) ==> EvictedFor(AsGraph(graph), order[..i + 1], x)
  {
    ElemsConcat(evicted, round);
    ElemsPrefix(order, i);
    assert round[0] in Elems(round);
    forall x | x in Elems(evicted + round)
      ensures EvictedFor(AsGraph(graph), order[..i + 1], x)
    {
      if x in Elems(evicted) {
        assert EvictedFor(AsGraph(graph), order[..i], x);
        var k :| 0 <= k < |order[..i]| && Reach(AsGraph(graph), order[..i][k], x);
        assert order[..i + 1][k] == order[..i][k];
      } else {
        forall z
          ensures Out(AsGraph(graph0), z) <= Out(AsGraph(graph), z)
        {
          assert forall c: Hash :: c in Out(AsGraph(graph0), z) ==> Has(graph0, z, c);
        }
        ReachMonotone(AsGraph(graph0), AsGraph(graph), order[i], x);
        assert order[..i + 1][i] == order[i];
      }
    }
  }

  lemma MinusBoth(weights: Weights, a: set<Hash>, b: set<Hash>)
    ensures weights - a - b == weights - (a + b)
  {
  }
}
