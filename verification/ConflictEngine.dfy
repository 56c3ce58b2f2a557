/**
 The conflict and ordering engine: which transactions claim the same previous transaction, which depend on which,
 the canonical order, the groups that can run in parallel, and removal with all dependents.
 */
module ConflictEngine {
  import opened Basics
  import opened Graphs
  import opened ListMap
  import Kahn
  import UF = UnionFind

  datatype TxNode = TxNode(fee: nat, size: nat, arrival: nat)

  datatype Ordering = Ordering(ordered: seq<Hash>, layers: nat, groups: seq<seq<Hash>>)

  /** Two transactions that claim one previous transaction are recorded as a conflict of each other. */
  ghost predicate ConflictsRecorded(index: Lists, conflicts: Lists) {
    forall p: Hash, c: Hash, d: Hash :: Has(index, p, c) && Has(index, p, d) && c != d ==> Has(conflicts, c, d)
  }

  /** The index lists exactly the registered claims of the transactions that are still there. */
  ghost predicate IndexExact(nodes: set<Hash>, spends: map<Hash, set<Hash>>, index: Lists) {
    && spends.Keys == nodes
    && forall p: Hash, c: Hash :: Has(index, p, c) <==> c in nodes && p in spends[c]
  }

  /** Only transactions that are there have conflicts; what they name may be gone. */
  ghost predicate OwnersThere(nodes: set<Hash>, conflicts: Lists) {
    forall c: Hash, d: Hash :: Has(conflicts, c, d) ==> c in nodes
  }

  /** Every recorded conflict is mutual and between transactions that are there and claim something in common. */
  ghost predicate NoStale(nodes: set<Hash>, spends: map<Hash, set<Hash>>, conflicts: Lists)
    requires spends.Keys == nodes
  {
    forall c: Hash, d: Hash :: Has(conflicts, c, d) ==>
                     c in nodes && d in nodes && Has(conflicts, d, c) && spends[c] * spends[d] != {}
  }

  function Claimed(spends: map<Hash, set<Hash>>, h: Hash): set<Hash> {
    if h in spends then spends[h] else {}
  }

  function Claiming(spends: map<Hash, set<Hash>>, h: Hash, more: set<Hash>): map<Hash, set<Hash>> {
    spends[h := Claimed(spends, h) + more]
  }

  predicate SharesWith(spends: map<Hash, set<Hash>>, d: Hash, claimed: set<Hash>) {
    d in spends && spends[d] * claimed != {}
  }

  /** Exactly the other transactions that share a claim. */
  ghost predicate Detected(spends: map<Hash, set<Hash>>, h: Hash, claimed: set<Hash>, detected: seq<Hash>) {
    forall d: Hash :: d in detected <==> d != h && SharesWith(spends, d, claimed)
  }

  // ----- dependencies as a graph -----

  /** Parents of every node, for the topological sort. */
  function ParentsOf(nodes: set<Hash>, deps: Lists): Graph {
    map t | t in nodes :: Elems(List(deps, t))
  }

  /** How much each in-degree counter exceeds the number of distinct parents. */
  function Surplus(nodes: set<Hash>, deps: Lists): map<Hash, nat> {
    map t | t in nodes :: Excess(List(deps, t))
  }

  function Excess(s: seq<Hash>): nat {
    ElemsAtMost(s);
    |s| - |Elems(s)|
  }

  lemma {:induction false} ElemsAtMost(s: seq<Hash>)
    ensures |Elems(s)| <= |s|
    ensures |Elems(s)| == |s| ==> NoDup(s)
  {
    if s == [] {
    } else {
      var front, last := s[..|s| - 1], s[|s| - 1];
      ElemsAtMost(front);
      assert Elems(s) == Elems(front) + {last};
      if last in Elems(front) {
        assert Elems(s) == Elems(front);
      } else if |Elems(s)| == |s| {
        NoDupAppend(front, last);
        assert s == front + [last];
      }
    }
  }

  ghost predicate IsCanonical(nodes: set<Hash>, deps: Lists, o: Ordering) {
    && Kahn.Final(ParentsOf(nodes, deps), Surplus(nodes, deps), o.ordered)
    && o.groups == (if o.ordered == [] then [] else [o.ordered]) && o.layers == |o.groups|
  }

  // ----- theorems about the order -----

  /**
   The canonical order is safe for any dependencies (cycles, duplicates and unknown parents included): no transaction
   twice, every parent before its child. It contains every registered transaction exactly when no dependency list
   has duplicates, every parent is registered, and the dependencies have no cycle.
   */
  lemma CanonicalOrderComplete(nodes: set<Hash>, deps: Lists, o: Ordering)
    requires IsCanonical(nodes, deps, o)
    ensures NoDup(o.ordered) && Elems(o.ordered) <= nodes
    ensures forall i, p :: 0 <= i < |o.ordered| && Has(deps, o.ordered[i], p) ==> Kahn.Before(o.ordered, p, i)
    ensures Elems(o.ordered) == nodes <==>
              && (forall t: Hash :: t in nodes ==> NoDup(List(deps, t)) && Elems(List(deps, t)) <= nodes)
              && Acyclic(ParentsOf(nodes, deps))
  {
    var par, surplus := ParentsOf(nodes, deps), Surplus(nodes, deps);
    Kahn.CompleteIff(par, surplus, o.ordered);
    NoSurplusIff(nodes, deps);
    forall i, p | 0 <= i < |o.ordered| && Has(deps, o.ordered[i], p)
      ensures Kahn.Before(o.ordered, p, i)
    {
      assert o.ordered[i] in Elems(o.ordered);
      assert p in Out(par, o.ordered[i]);
    }
  }

  lemma InDegreesCounted(nodes: set<Hash>, deps: Lists, inDegree: map<Hash, nat>)
    requires inDegree.Keys == nodes && forall t: Hash :: t in nodes ==> inDegree[t] == |List(deps, t)|
    ensures Kahn.Counted(ParentsOf(nodes, deps), Surplus(nodes, deps), inDegree, {})
  {
    var par, surplus := ParentsOf(nodes, deps), Surplus(nodes, deps);
    assert surplus.Keys == par.Keys == nodes;
    forall t: Hash | t in nodes
      ensures inDegree[t] == surplus[t] + |par[t] - {}|
    {
      OneCounted(nodes, deps, t);
    }
  }

  lemma OneCounted(nodes: set<Hash>, deps: Lists, t: Hash)
    requires t in nodes
    ensures |List(deps, t)| == Surplus(nodes, deps)[t] + |ParentsOf(nodes, deps)[t] - {}|
  {
    ElemsAtMost(List(deps, t));
    assert Elems(List(deps, t)) - {} == Elems(List(deps, t));
  }

  lemma NoSurplusIff(nodes: set<Hash>, deps: Lists)
    ensures ParentsOf(nodes, deps).Keys == nodes
    ensures forall t: Hash :: t in nodes ==> (Surplus(nodes, deps)[t] == 0 <==> NoDup(List(deps, t)))
    ensures forall t: Hash :: t in nodes ==> ParentsOf(nodes, deps)[t] == Elems(List(deps, t))
  {
    forall t: Hash | t in nodes
      ensures Surplus(nodes, deps)[t] == 0 <==> NoDup(List(deps, t))
    {
      ElemsAtMost(List(deps, t));
      if NoDup(List(deps, t)) {
        NoDupCardinality(List(deps, t));
      }
    }
  }

  /** A transaction with a dependency path to an unregistered transaction or onto a cycle is never ordered. */
  lemma NeverOrdered(nodes: set<Hash>, deps: Lists, o: Ordering, t: Hash, a: Hash)
    requires IsCanonical(nodes, deps, o) && Reach(ParentsOf(nodes, deps), t, a)
    requires a !in nodes || ReachPlus(ParentsOf(nodes, deps), a, a)
    ensures t !in o.ordered
  {
    var par := ParentsOf(nodes, deps);
    if i :| 0 <= i < |o.ordered| && o.ordered[i] == t {
      ReachCases(par, t, a);
      var j := i;
      if t != a {
        Kahn.AncestorsEarlier(par, o.ordered, i, a);
        j :| 0 <= j < i && o.ordered[j] == a;
      }
      assert a in Elems(o.ordered);
      Kahn.AncestorsEarlier(par, o.ordered, j, a);
      assert false;
    }
  }

  /** Higher score first; between equal scores the larger hash. */
  predicate Sooner(score: TxNode -> int, nodes: map<Hash, TxNode>, a: Hash, b: Hash)
    requires a in nodes && b in nodes
  {
    score(nodes[a]) > score(nodes[b]) || (score(nodes[a]) == score(nodes[b]) && a > b)
  }

  /** `a` has the higher score, or an equal one and the larger hash. */
  ghost predicate WorthMore(score: TxNode -> int, nodes: map<Hash, TxNode>, a: Hash, b: Hash)
    requires a in nodes && b in nodes
  {
    score(nodes[a]) >= score(nodes[b]) && (score(nodes[a]) == score(nodes[b]) ==> a > b)
  }

  ghost predicate ByPriority(score: TxNode -> int, nodes: map<Hash, TxNode>, s: seq<Hash>) {
    && (forall i :: 0 <= i < |s| ==> s[i] in nodes)
    && forall i, j :: 0 <= i < j < |s| ==> WorthMore(score, nodes, s[i], s[j])
  }

  lemma InsertByPriority(score: TxNode -> int, nodes: map<Hash, TxNode>, s: seq<Hash>, x: Hash, j: nat)
    requires ByPriority(score, nodes, s) && NoDup(s) && x in nodes && x !in s && j <= |s|
    requires forall k :: 0 <= k < j ==> Sooner(score, nodes, s[k], x)
    requires j < |s| ==> !Sooner(score, nodes, s[j], x)
    ensures ByPriority(score, nodes, s[..j] + [x] + s[j..]) && NoDup(s[..j] + [x] + s[j..])
    ensures Elems(s[..j] + [x] + s[j..]) == Elems(s) + {x}
  {
    InsertAt(s, j, x);
    var r := s[..j] + [x] + s[j..];
    assert forall k :: 0 <= k < |r| ==> r[k] == if k < j then s[k] else if k == j then x else s[k - 1];
    forall k | j <= k < |s|
      ensures WorthMore(score, nodes, x, s[k])
    {
      assert k > j ==> WorthMore(score, nodes, s[j], s[k]);
    }
  }

  /**
   The order does not start with the best transaction but with the worst: among the transactions without dependencies
   the first has the lowest score, and of the lowest the smallest hash, because the sorted queue is emptied from its end.
   */
  ghost predicate LowestReadyFirst(score: TxNode -> int, nodes: map<Hash, TxNode>, deps: Lists, ordered: seq<Hash>) {
    forall t: Hash :: t in nodes && List(deps, t) == [] ==>
                        && ordered != [] && ordered[0] in nodes
                        && score(nodes[ordered[0]]) <= score(nodes[t])
                        && (score(nodes[ordered[0]]) == score(nodes[t]) ==> ordered[0] <= t)
  }

  lemma LastIsLowest(score: TxNode -> int, nodes: map<Hash, TxNode>, deps: Lists, queue: seq<Hash>, ordered: seq<Hash>)
    requires ByPriority(score, nodes, queue)
    requires forall t: Hash :: t in queue <==> t in nodes && List(deps, t) == []
    requires queue != [] ==> ordered != [] && ordered[0] == queue[|queue| - 1]
    ensures LowestReadyFirst(score, nodes, deps, ordered)
  {
    forall t: Hash | t in nodes && List(deps, t) == []
      ensures ordered != [] && ordered[0] in nodes
      ensures score(nodes[ordered[0]]) <= score(nodes[t])
      ensures score(nodes[ordered[0]]) == score(nodes[t]) ==> ordered[0] <= t
    {
      assert t in queue;
      var i :| 0 <= i < |queue| && queue[i] == t;
    }
  }

  ghost predicate IsReady(nodes: map<Hash, TxNode>, deps: Lists, t: Hash) {
    t in nodes && List(deps, t) == []
  }

  ghost predicate Precedes(s: seq<Hash>, x: Hash, y: Hash) {
    exists i, j :: 0 <= i < j < |s| && s[i] == x && s[j] == y
  }

  /**
   The transactions without dependencies come out by exactly ascending score: the lower score first, and of equal scores
   the smaller hash.
   */
  ghost predicate AscendingReady(score: TxNode -> int, nodes: map<Hash, TxNode>, deps: Lists, ordered: seq<Hash>) {
    forall x: Hash, y: Hash :: IsReady(nodes, deps, x) && IsReady(nodes, deps, y) ==>
                                 && (score(nodes[x]) < score(nodes[y]) ==> Precedes(ordered, x, y))
                                 && (score(nodes[x]) == score(nodes[y]) && x < y ==> Precedes(ordered, x, y))
  }

  /** What is promised of them: the higher score first, and of equal scores the larger hash. */
  ghost predicate DescendingReady(score: TxNode -> int, nodes: map<Hash, TxNode>, deps: Lists, ordered: seq<Hash>) {
    forall x: Hash, y: Hash :: IsReady(nodes, deps, x) && IsReady(nodes, deps, y) ==>
                                 && (score(nodes[x]) > score(nodes[y]) ==> Precedes(ordered, x, y))
                                 && (score(nodes[x]) == score(nodes[y]) && x > y ==> Precedes(ordered, x, y))
  }

  /** Best priority first among them, as promised, only when there is at most one. */
  lemma DescendingIff(score: TxNode -> int, nodes: map<Hash, TxNode>, deps: Lists, ordered: seq<Hash>)
    requires AscendingReady(score, nodes, deps, ordered) && NoDup(ordered)
    ensures DescendingReady(score, nodes, deps, ordered) <==>
              forall x: Hash, y: Hash :: IsReady(nodes, deps, x) && IsReady(nodes, deps, y) ==> x == y
  {
    if DescendingReady(score, nodes, deps, ordered) {
      forall x: Hash, y: Hash | IsReady(nodes, deps, x) && IsReady(nodes, deps, y)
        ensures x == y
      {
        NotBothWays(ordered, x, y);
      }
    }
  }

  lemma NotBothWays(s: seq<Hash>, x: Hash, y: Hash)
    requires NoDup(s)
    ensures !(Precedes(s, x, y) && Precedes(s, y, x))
  {
  }

  // ----- the queue at the bottom of the stack -----

  function Flipped(s: seq<Hash>): seq<Hash> {
    if s == [] then [] else Flipped(s[1..]) + [s[0]]
  }

  /** The elements of `s` that `queue` holds. */
  function Among(s: seq<Hash>, queue: seq<Hash>): seq<Hash> {
    if s == [] then []
    else Among(s[..|s| - 1], queue) + if s[|s| - 1] in queue then [s[|s| - 1]] else []
  }

  /** The first `k` of the starting queue are still at the bottom of the stack, the others were emitted last to first. */
  ghost predicate Bottom(queue: seq<Hash>, stack: seq<Hash>, layer: seq<Hash>, k: nat) {
    && k <= |queue| && k <= |stack| && stack[..k] == queue[..k]
    && Among(layer, queue) == Flipped(queue[k..])
    && forall i :: k <= i < |stack| ==> stack[i] !in queue
  }

  lemma StartBottom(queue: seq<Hash>)
    ensures Bottom(queue, queue, [], |queue|)
  {
    assert queue[|queue|..] == [];
  }

  lemma EndBottom(queue: seq<Hash>, layer: seq<Hash>, k: nat)
    requires Bottom(queue, [], layer, k)
    ensures Among(layer, queue) == Flipped(queue)
  {
    assert queue[0..] == queue;
  }

  lemma {:induction false} PopBottom(queue: seq<Hash>, stack: seq<Hash>, layer: seq<Hash>, k: nat) returns (k1: nat)
    requires Bottom(queue, stack, layer, k) && stack != []
    ensures Bottom(queue, stack[..|stack| - 1], layer + [stack[|stack| - 1]], k1)
  {
    if |stack| == k {
      k1 := k - 1;
      PopFromQueue(queue, stack, layer);
    } else {
      k1 := k;
      assert stack[|stack| - 1] !in queue;
      OneMoreAmong(layer, queue, stack[|stack| - 1]);
      assert stack[..|stack| - 1][..k] == stack[..k];
    }
  }

  lemma {:induction false} OneMoreAmong(layer: seq<Hash>, queue: seq<Hash>, x: Hash)
    ensures Among(layer + [x], queue) == Among(layer, queue) + if x in queue then [x] else []
  {
    assert (layer + [x])[..|layer|] == layer;
  }

  lemma {:induction false} PopFromQueue(queue: seq<Hash>, stack: seq<Hash>, layer: seq<Hash>)
    requires Bottom(queue, stack, layer, |stack|) && stack != []
    ensures Bottom(queue, stack[..|stack| - 1], layer + [stack[|stack| - 1]], |stack| - 1)
  {
    var n := |stack| - 1;
    assert stack == queue[..|stack|];
    assert stack[n] == queue[n] && queue[n] in queue;
    OneMoreAmong(layer, queue, stack[n]);
    assert queue[n..][1..] == queue[|stack|..] && queue[n..][0] == stack[n];
    assert stack[..n][..n] == queue[..n];
  }

  lemma {:induction false} PushBottom(queue: seq<Hash>, rest: seq<Hash>, layer: seq<Hash>, k: nat, stack: seq<Hash>)
    requires Bottom(queue, rest, layer, k) && rest <= stack && NoDup(stack) && Elems(layer) !! Elems(stack)
    ensures Bottom(queue, stack, layer, k)
  {
    assert stack[..k] == rest[..k];
    forall i | k <= i < |stack|
      ensures stack[i] !in queue
    {
      assert stack[i] in Elems(stack);
      if i < |rest| {
        assert stack[i] == rest[i];
      } else if j :| 0 <= j < |queue| && queue[j] == stack[i] {
        if j < k {
          assert rest[..k][j] == queue[..k][j];
          assert stack[j] == stack[i];
        } else {
          FlippedMembers(queue[k..], stack[i]);
          assert queue[k..][j - k] == stack[i];
          AmongMembers(layer, queue, stack[i]);
        }
      }
    }
  }

  lemma {:induction false} FlippedMembers(s: seq<Hash>, x: Hash)
    ensures x in Flipped(s) <==> x in s
  {
    if s == [] {
    } else {
      FlippedMembers(s[1..], x);
      assert s == [s[0]] + s[1..];
    }
  }

  lemma {:induction false} AmongMembers(s: seq<Hash>, queue: seq<Hash>, x: Hash)
    ensures x in Among(s, queue) <==> x in s && x in queue
  {
    if s == [] {
    } else {
      AmongMembers(s[..|s| - 1], queue, x);
      assert s == s[..|s| - 1] + [s[|s| - 1]];
    }
  }

  lemma {:induction false} FlippedPrecedes(s: seq<Hash>, a: nat, b: nat)
    requires a < b < |s|
    ensures Precedes(Flipped(s), s[b], s[a])
  {
    var front := Flipped(s[1..]);
    if a == 0 {
      FlippedMembers(s[1..], s[b]);
      assert s[1..][b - 1] == s[b];
      var i :| 0 <= i < |front| && front[i] == s[b];
      assert Flipped(s)[i] == s[b] && Flipped(s)[|front|] == s[0];
    } else {
      FlippedPrecedes(s[1..], a - 1, b - 1);
      PrecedesMore(front, s[b], s[a], [s[0]]);
    }
  }

  lemma PrecedesMore(s: seq<Hash>, x: Hash, y: Hash, more: seq<Hash>)
    requires Precedes(s, x, y)
    ensures Precedes(s + more, x, y)
  {
    var i, j :| 0 <= i < j < |s| && s[i] == x && s[j] == y;
    assert (s + more)[i] == x && (s + more)[j] == y;
  }

  lemma {:induction false} AmongPrecedes(s: seq<Hash>, queue: seq<Hash>, x: Hash, y: Hash)
    requires Precedes(Among(s, queue), x, y)
    ensures Precedes(s, x, y)
  {
    var n := |s| - 1;
    var front := Among(s[..n], queue);
    assert s == s[..n] + [s[n]];
    if Precedes(front, x, y) {
      AmongPrecedes(s[..n], queue, x, y);
      PrecedesMore(s[..n], x, y, [s[n]]);
    } else {
      var i, j :| 0 <= i < j < |Among(s, queue)| && Among(s, queue)[i] == x && Among(s, queue)[j] == y;
      assert j == |front| && y == s[n] && front[i] == x;
      AmongMembers(s[..n], queue, x);
      var k :| 0 <= k < n && s[..n][k] == x;
      assert s[k] == x;
    }
  }

  lemma ReadyAscend(score: TxNode -> int, nodes: map<Hash, TxNode>, deps: Lists, queue: seq<Hash>, ordered: seq<Hash>)
    requires ByPriority(score, nodes, queue) && Among(ordered, queue) == Flipped(queue)
    requires forall t: Hash :: t in queue <==> t in nodes && List(deps, t) == []
    ensures AscendingReady(score, nodes, deps, ordered)
  {
    forall x: Hash, y: Hash | IsReady(nodes, deps, x) && IsReady(nodes, deps, y)
      ensures score(nodes[x]) < score(nodes[y]) ==> Precedes(ordered, x, y)
      ensures score(nodes[x]) == score(nodes[y]) && x < y ==> Precedes(ordered, x, y)
    {
      assert x in queue && y in queue;
      var a :| 0 <= a < |queue| && queue[a] == x;
      var b :| 0 <= b < |queue| && queue[b] == y;
      if b < a {
        FlippedPrecedes(queue, b, a);
        AmongPrecedes(ordered, queue, x, y);
      }
    }
  }

  /** What emptying the queue leaves. */
  ghost predicate Drained(par: Graph, surplus: map<Hash, nat>, queue: seq<Hash>, ordered: seq<Hash>) {
    && Kahn.Final(par, surplus, ordered) && Among(ordered, queue) == Flipped(queue)
    && (queue != [] ==> ordered != [] && ordered[0] == queue[|queue| - 1])
  }

  lemma NothingToDrain(par: Graph, surplus: map<Hash, nat>, inDegree: map<Hash, nat>)
    requires Kahn.Inv(par, surplus, inDegree, [], [])
    ensures Drained(par, surplus, [], [])
  {
    Kahn.Finish(par, surplus, inDegree, []);
  }

  lemma DrainedInOrder(score: TxNode -> int, nodes: map<Hash, TxNode>, deps: Lists, par: Graph, surplus: map<Hash, nat>,
                       queue: seq<Hash>, ordered: seq<Hash>)
    requires Drained(par, surplus, queue, ordered) && ByPriority(score, nodes, queue)
    requires forall t: Hash :: t in queue <==> t in nodes && List(deps, t) == []
    ensures LowestReadyFirst(score, nodes, deps, ordered) && AscendingReady(score, nodes, deps, ordered)
  {
    LastIsLowest(score, nodes, deps, queue, ordered);
    ReadyAscend(score, nodes, deps, queue, ordered);
  }

  class Engine {
    var utxoIndex: Lists
    var nodes: map<Hash, TxNode>
    var conflictMap: Lists
    var dependencyMap: Lists
    var cachedOrdering: Option<Ordering>
    /** The previous transactions each registered transaction claims. */
    ghost var spends: map<Hash, set<Hash>>

    ghost predicate Sound()
      reads this
    {
      && IndexExact(nodes.Keys, spends, utxoIndex)
      && ConflictsRecorded(utxoIndex, conflictMap)
      && OwnersThere(nodes.Keys, conflictMap)
    }

    ghost predicate Valid()
      reads this
    {
      && Sound()
      && (cachedOrdering.Some? ==> IsCanonical(nodes.Keys, dependencyMap, cachedOrdering.value))
    }

    ghost predicate Fresh()
      requires spends.Keys == nodes.Keys
      reads this
    {
      NoStale(nodes.Keys, spends, conflictMap)
    }

    constructor ()
      ensures Valid() && Fresh() && nodes == map[] && dependencyMap == map[]
    {
      utxoIndex, nodes, conflictMap, dependencyMap, cachedOrdering, spends := map[], map[], map[], map[], None, map[];
    }

    /** `prevs` are the previous transactions of the inputs; the output index plays no part in a claim. */
    method RegisterTransaction(h: Hash, prevs: seq<Hash>, node: TxNode) returns (detected: seq<Hash>)
      requires Valid()
      modifies this
      ensures Valid() && cachedOrdering == None && dependencyMap == old(dependencyMap)
      ensures nodes == old(nodes)[h := node]
      ensures spends == Claiming(old(spends), h, Elems(prevs))
      ensures old(Fresh()) ==> Fresh()
      ensures Detected(old(spends), h, Elems(prevs), detected)
      ensures Meets(old(conflictMap), conflictMap, h, detected)
    {
      nodes := nodes[h := node];
      cachedOrdering := None;
      NewNodeKeeps(old(nodes.Keys), spends, utxoIndex, conflictMap, h);
      spends := Claiming(spends, h, {});
      detected := ClaimInputs(h, prevs);
      ClaimingTwice(old(spends), h, {}, Elems(prevs), detected);
    }

    /** Registers every input as a claim, and every earlier claimant of the same transaction as a conflict. */
    method ClaimInputs(h: Hash, prevs: seq<Hash>) returns (detected: seq<Hash>)
      requires h in nodes && Sound()
      modifies this`conflictMap, this`utxoIndex, this`spends
      ensures Sound()
      ensures spends == Claiming(old(spends), h, Elems(prevs))
      ensures old(Fresh()) ==> Fresh()
      ensures Detected(old(spends), h, Elems(prevs), detected)
      ensures Meets(old(conflictMap), conflictMap, h, detected)
    {
      detected := [];
      ghost var seen := {};
      assert Claiming(spends, h, seen) == spends by {
        assert spends[h] + seen == spends[h];
      }
      var i := 0;
      while i < |prevs|
        invariant 0 <= i <= |prevs| && seen == Elems(prevs[..i])
        invariant spends == Claiming(old(spends), h, seen)
        invariant Sound()
        invariant old(Fresh()) ==> Fresh()
        invariant Detected(old(spends), h, seen, detected)
        invariant Meets(old(conflictMap), conflictMap, h, detected)
      {
        var p := prevs[i];
        var claimants := List(utxoIndex, p);
        ghost var detected0, conflicts0 := detected, conflictMap;
        ClaimantsOf(utxoIndex, nodes.Keys, old(spends), spends, h, p);
        detected := Claim(h, p, claimants, detected);
        ElemsPrefix(prevs, i);
        ClaimingTwice(old(spends), h, seen, {p}, detected);
        DetectedSoFar(old(spends), h, seen, p, detected0, claimants, detected);
        MeetsTwice(old(conflictMap), conflicts0, conflictMap, h, detected0, claimants, detected);
        seen := seen + {p};
        i := i + 1;
      }
      assert prevs[..i] == prevs;
    }

    /** The inner loop of a registration, and the entry it adds to the index. */
    method Claim(h: Hash, p: Hash, claimants: seq<Hash>, detected: seq<Hash>) returns (more: seq<Hash>)
      requires h in nodes && claimants == List(utxoIndex, p)
      requires Sound()
      modifies this`conflictMap, this`utxoIndex, this`spends
      ensures spends == Claiming(old(spends), h, {p})
      ensures Sound()
      ensures old(Fresh()) ==> Fresh()
      ensures forall d: Hash :: d in more <==> d in detected || (d in claimants && d != h)
      ensures Meets(old(conflictMap), conflictMap, h, claimants)
    {
      more := detected;
      ghost var conflicts0 := conflictMap;
      var j := 0;
      while j < |claimants|
        invariant 0 <= j <= |claimants|
        invariant forall d: Hash :: d in more <==> d in detected || (d in claimants[..j] && d != h)
        invariant Meets(conflicts0, conflictMap, h, claimants[..j])
        invariant utxoIndex == old(utxoIndex) && spends == old(spends)
      {
        var c := claimants[j];
        assert claimants[..j + 1] == claimants[..j] + [c];
        if c != h {
          more := more + [c];
          MeetsMore(conflicts0, conflictMap, h, claimants[..j], c);
          conflictMap := Push(conflictMap, h, c);
          conflictMap := Push(conflictMap, c, h);
        }
        j := j + 1;
      }
      assert claimants[..j] == claimants;
      ghost var index0 := utxoIndex;
      utxoIndex := Push(utxoIndex, p, h);
      spends := Claiming(spends, h, {p});
      ClaimIndex(index0, old(spends), nodes.Keys, h, p);
      ClaimRecorded(index0, conflicts0, conflictMap, h, p);
      ClaimOwners(index0, old(spends), conflicts0, conflictMap, nodes.Keys, h, p);
      if old(Fresh()) {
        ClaimNoStale(index0, conflicts0, conflictMap, old(spends), nodes.Keys, h, p);
      }
    }

    method AddDependency(parent: Hash, child: Hash)
      requires Valid()
      modifies this`dependencyMap, this`cachedOrdering
      ensures Valid() && cachedOrdering == None
      ensures dependencyMap ==
              old(dependencyMap)[child := (if child in old(dependencyMap) then old(dependencyMap)[child] else []) + [parent]]
    {
      dependencyMap := Push(dependencyMap, child, parent);
      cachedOrdering := None;
    }

    // ----- canonical order -----

    /** `score` stands for the floating-point priority at one moment; only its order matters. */
    method SortByPriority(score: TxNode -> int, queue: seq<Hash>) returns (sorted: seq<Hash>)
      requires NoDup(queue) && forall h :: h in queue ==> h in nodes
      ensures NoDup(sorted) && Elems(sorted) == Elems(queue) && |sorted| == |queue|
      ensures ByPriority(score, nodes, sorted)
    {
      sorted := [];
      var i := 0;
      while i < |queue|
        invariant |sorted| == i <= |queue| && NoDup(sorted) && Elems(sorted) == Elems(queue[..i])
        invariant ByPriority(score, nodes, sorted)
      {
        var x := queue[i];
        assert x !in Elems(queue[..i]) && x !in sorted;
        var j := 0;
        while j < |sorted| && Sooner(score, nodes, sorted[j], x)
          invariant 0 <= j <= |sorted| && forall k :: 0 <= k < j ==> Sooner(score, nodes, sorted[k], x)
        {
          j := j + 1;
        }
        ElemsPrefix(queue, i);
        InsertByPriority(score, nodes, sorted, x, j);
        sorted := sorted[..j] + [x] + sorted[j..];
        i := i + 1;
      }
      assert queue[..i] == queue;
    }

    method ComputeCanonicalOrder(score: TxNode -> int) returns (o: Ordering)
      requires Valid()
      modifies this`cachedOrdering
      ensures Valid() && IsCanonical(nodes.Keys, dependencyMap, o)
      ensures old(cachedOrdering).None? ==>
                && LowestReadyFirst(score, nodes, dependencyMap, o.ordered)
                && AscendingReady(score, nodes, dependencyMap, o.ordered)
      ensures old(cachedOrdering).Some? ==> Some(o) == old(cachedOrdering)
      ensures cachedOrdering == old(cachedOrdering) || cachedOrdering == Some(o)
    {
      if cachedOrdering.Some? {
        return cachedOrdering.value;
      }
      if nodes.Keys == {} {
        return Ordering([], 0, []);
      }
      var ordered, groups := LayeredSort(score);
      o := Ordering(ordered, |groups|, groups);
      cachedOrdering := Some(o);
    }

    method LayeredSort(score: TxNode -> int) returns (ordered: seq<Hash>, groups: seq<seq<Hash>>)
      ensures LowestReadyFirst(score, nodes, dependencyMap, ordered) && AscendingReady(score, nodes, dependencyMap, ordered)
      ensures Kahn.Final(ParentsOf(nodes.Keys, dependencyMap), Surplus(nodes.Keys, dependencyMap), ordered)
      ensures groups == if ordered == [] then [] else [ordered]
    {
      ghost var par, surplus := ParentsOf(nodes.Keys, dependencyMap), Surplus(nodes.Keys, dependencyMap);
      var inDegree, queue := StartingQueue(score, par, surplus);
      ghost var queue0, inDegree0 := queue, inDegree;
      if queue == [] {
        NothingToDrain(par, surplus, inDegree);
      }
      ordered, groups := [], [];
      var visited: set<Hash> := {};
      while queue != []
        invariant queue != [] ==> ordered == [] && groups == [] && visited == {} && queue == queue0 && inDegree == inDegree0
        invariant queue == [] ==> Drained(par, surplus, queue0, ordered)
        invariant groups == if ordered == [] then [] else [ordered]
        decreases |queue|
      {
        var layer;
        layer, ordered, visited, inDegree := DrainQueue(par, surplus, ordered, visited, inDegree, queue);
        if layer != [] {
          groups := groups + [layer];
        }
        queue := SortByPriority(score, []);
      }
      DrainedInOrder(score, nodes, dependencyMap, par, surplus, queue0, ordered);
    }

    /** In-degree counters, and the transactions with none, best priority first. */
    method StartingQueue(score: TxNode -> int, ghost par: Graph, ghost surplus: map<Hash, nat>)
      returns (inDegree: map<Hash, nat>, queue: seq<Hash>)
      requires par == ParentsOf(nodes.Keys, dependencyMap) && surplus == Surplus(nodes.Keys, dependencyMap)
      ensures Kahn.Inv(par, surplus, inDegree, [], queue)
      ensures ByPriority(score, nodes, queue)
      ensures forall t: Hash :: t in queue <==> t in nodes && List(dependencyMap, t) == []
    {
      inDegree := map t | t in nodes.Keys :: |List(dependencyMap, t)|;
      queue := Kahn.ZeroDegrees(inDegree);
      assert forall t: Hash :: t in Elems(queue) <==> t in queue;
      queue := SortByPriority(score, queue);
      assert forall t: Hash :: t in Elems(queue) <==> t in queue;
      InDegreesCounted(nodes.Keys, dependencyMap, inDegree);
      Kahn.Start(par, surplus, inDegree, queue);
    }

    /** The inner loop empties the queue, newly released transactions included, before a layer is closed. */
    method DrainQueue(ghost par: Graph, ghost surplus: map<Hash, nat>, ordered: seq<Hash>, visited: set<Hash>,
                      inDegree: map<Hash, nat>, queue: seq<Hash>)
      returns (layer: seq<Hash>, ordered1: seq<Hash>, visited1: set<Hash>, inDegree1: map<Hash, nat>)
      requires par == ParentsOf(nodes.Keys, dependencyMap) && ordered == [] && visited == {} && queue != []
      requires Kahn.Inv(par, surplus, inDegree, [], queue)
      ensures Drained(par, surplus, queue, ordered1) && layer == ordered1 != []
    {
      layer, ordered1, visited1, inDegree1 := [], ordered, visited, inDegree;
      var stack := queue;
      ghost var k: nat, first := |queue|, queue[|queue| - 1];
      StartBottom(queue);
      while stack != []
        invariant Kahn.Inv(par, surplus, inDegree1, layer, stack) && visited1 == Elems(layer) && ordered1 == layer
        invariant layer == [] ==> stack != []
        invariant if layer == [] then stack[|stack| - 1] == first else layer[0] == first
        invariant Bottom(queue, stack, layer, k)
        decreases nodes.Keys - visited1
      {
        ghost var visited0 := visited1;
        layer, ordered1, visited1, inDegree1, stack, k :=
          EmitNext(par, surplus, layer, ordered1, visited1, inDegree1, stack, queue, k);
        assert nodes.Keys - visited1 < nodes.Keys - visited0;
      }
      EndBottom(queue, layer, k);
      Kahn.Finish(par, surplus, inDegree1, layer);
    }

    method EmitNext(ghost par: Graph, ghost surplus: map<Hash, nat>, layer: seq<Hash>, ordered: seq<Hash>, visited: set<Hash>,
                    inDegree: map<Hash, nat>, stack: seq<Hash>, ghost queue: seq<Hash>, ghost k: nat)
      returns (layer1: seq<Hash>, ordered1: seq<Hash>, visited1: set<Hash>, inDegree1: map<Hash, nat>, stack1: seq<Hash>,
               ghost k1: nat)
      requires par == ParentsOf(nodes.Keys, dependencyMap) && stack != []
      requires Kahn.Inv(par, surplus, inDegree, layer, stack) && visited == Elems(layer) && ordered == layer
      requires Bottom(queue, stack, layer, k)
      ensures Bottom(queue, stack1, layer1, k1)
      ensures Kahn.Inv(par, surplus, inDegree1, layer1, stack1) && visited1 == Elems(layer1) && ordered1 == layer1 != []
      ensures visited < visited1 && visited1 - visited <= nodes.Keys
      ensures layer1[0] == if layer == [] then stack[|stack| - 1] else layer[0]
    {
      var current := stack[|stack| - 1];
      stack1 := stack[..|stack| - 1];
      layer1, ordered1, visited1, inDegree1 := layer, ordered, visited, inDegree;
      PopLast(stack);
      Kahn.PoppedIsNew(par, surplus, inDegree, layer, stack, current);
      if current !in visited1 {
        visited1 := visited1 + {current};
        layer1 := layer1 + [current];
        ordered1 := ordered1 + [current];
        k1 := PopBottom(queue, stack, layer, k);
        inDegree1, stack1 := ReleaseDependents(par, surplus, layer, stack, inDegree1, stack1, current);
        PushBottom(queue, stack[..|stack| - 1], layer1, k1, stack1);
      } else {
        assert false;
      }
    }

    /** One transaction leaves the queue: its children count one parent less. */
    method ReleaseDependents(ghost par: Graph, ghost surplus: map<Hash, nat>, ghost layer: seq<Hash>, ghost stack: seq<Hash>,
                             inDegree: map<Hash, nat>, rest: seq<Hash>, current: Hash)
      returns (inDegree1: map<Hash, nat>, queue: seq<Hash>)
      requires par == ParentsOf(nodes.Keys, dependencyMap) && Kahn.Inv(par, surplus, inDegree, layer, stack)
      requires current in stack && current !in rest && NoDup(rest) && Elems(stack) == Elems(rest) + {current}
      ensures Kahn.Inv(par, surplus, inDegree1, layer + [current], queue) && rest <= queue
      ensures Elems(layer + [current]) == Elems(layer) + {current}
    {
      Kahn.PopLowerable(par, surplus, inDegree, layer, stack, current, rest);
      inDegree1, queue := ScanDependents(par, inDegree, rest, current);
      Kahn.Step(par, surplus, inDegree, layer, stack, current, rest, inDegree1, queue);
    }

    /** The scan over the whole dependency map after one transaction was emitted. */
    method ScanDependents(ghost par: Graph, inDegree: map<Hash, nat>, rest: seq<Hash>, current: Hash)
      returns (inDegree1: map<Hash, nat>, queue: seq<Hash>)
      requires par == ParentsOf(nodes.Keys, dependencyMap) && Kahn.Lowerable(par, inDegree, rest, current)
      ensures Kahn.Released(inDegree, rest, inDegree1, queue, Kahn.Children(par, current)) && rest <= queue
    {
      inDegree1, queue := inDegree, rest;
      var pending := dependencyMap.Keys;
      assert Kahn.Children(par, current) - pending == {};
      while pending != {}
        invariant pending <= dependencyMap.Keys && rest <= queue
        invariant Kahn.Released(inDegree, rest, inDegree1, queue, Kahn.Children(par, current) - pending)
        decreases pending
      {
        var d :| d in pending;
        if current in dependencyMap[d] && d in inDegree1 {
          ghost var done := Kahn.Children(par, current) - pending;
          ghost var inDegree0, queue0 := inDegree1, queue;
          inDegree1 := inDegree1[d := inDegree1[d] - 1];
          if inDegree1[d] == 0 {
            queue := queue + [d];
          }
          Kahn.ReleaseOne(inDegree, rest, inDegree0, queue0, done, d, inDegree1, queue);
        }
        Remaining(Kahn.Children(par, current), pending, d);
        pending := pending - {d};
      }
      assert Kahn.Children(par, current) - {} == Kahn.Children(par, current);
    }

    // ----- parallel groups -----

    /** The recorded conflicts as pairs. */
    ghost function ConflictPairs(): set<(Hash, Hash)>
      reads this
    {
      PairsOf(conflictMap)
    }

    method GetParallelExecutionGroups() returns (groups: seq<seq<Hash>>)
      requires Valid()
      ensures IsGrouping(groups, nodes.Keys + Named(conflictMap), ConflictPairs())
    {
      if nodes.Keys == {} {
        NothingNamed(conflictMap);
        return [];
      }
      var dsu := new UF.DisjointSetUnion();
      var rest := nodes.Keys;
      while rest != {}
        invariant fresh(dsu) && dsu.Valid() && dsu.edges == {} && UF.KeysClosed(dsu.F())
        invariant rest <= nodes.Keys && dsu.parent.Keys == nodes.Keys - rest
        decreases rest
      {
        var t :| t in rest;
        dsu.MakeSet(t);
        rest := rest - {t};
      }
      UniteConflicts(dsu);
      ghost var keys := dsu.parent.Keys;
      var components := dsu.GetComponents();
      groups := CollectValues(components);
      GroupsAreClasses(dsu.F(), ConflictPairs(), keys, components, groups);
    }

    method UniteConflicts(dsu: UF.DisjointSetUnion)
      requires dsu.Valid() && dsu.edges == {} && UF.KeysClosed(dsu.F()) && dsu.parent.Keys == nodes.Keys
      requires OwnersThere(nodes.Keys, conflictMap)
      modifies dsu
      ensures dsu.Valid() && dsu.edges == ConflictPairs() && dsu.parent.Keys == nodes.Keys + Named(conflictMap)
    {
      var pending := conflictMap.Keys;
      while pending != {}
        invariant dsu.Valid() && UF.KeysClosed(dsu.F()) && pending <= conflictMap.Keys
        invariant dsu.edges == PairsOf(conflictMap - pending)
        invariant dsu.parent.Keys == nodes.Keys + Named(conflictMap - pending)
        decreases pending
      {
        var c :| c in pending;
        NamedMore(conflictMap, pending, c);
        PairsOfMore(conflictMap, pending, c);
        UniteWith(dsu, c);
        pending := pending - {c};
      }
      assert conflictMap - {} == conflictMap;
    }

    method UniteWith(dsu: UF.DisjointSetUnion, c: Hash)
      requires dsu.Valid() && UF.KeysClosed(dsu.F()) && c in conflictMap
      requires OwnersThere(nodes.Keys, conflictMap) && nodes.Keys <= dsu.parent.Keys
      modifies dsu
      ensures dsu.Valid() && UF.KeysClosed(dsu.F())
      ensures dsu.edges == old(dsu.edges) + PairsFrom(c, Elems(conflictMap[c]))
      ensures dsu.parent.Keys == old(dsu.parent.Keys) + Elems(conflictMap[c])
    {
      var list := conflictMap[c];
      var i := 0;
      while i < |list|
        invariant 0 <= i <= |list| && dsu.Valid() && UF.KeysClosed(dsu.F())
        invariant dsu.edges == old(dsu.edges) + PairsFrom(c, Elems(list[..i]))
        invariant dsu.parent.Keys == old(dsu.parent.Keys) + Elems(list[..i])
      {
        assert Has(conflictMap, c, list[i]);
        dsu.Union(c, list[i]);
        ElemsPrefix(list, i);
        PairsMore(c, Elems(list[..i]), list[i]);
        i := i + 1;
      }
      assert list[..i] == list;
    }

    // ----- removal -----

    /** The transaction and everything that depends on it, directly or not. */
    method CollectRemovals(h: Hash) returns (removed: seq<Hash>)
      ensures NoDup(removed) && |removed| > 0 && removed[0] == h
      ensures forall y: Hash :: y in removed <==> Reach(AsGraph(dependencyMap), y, h)
    {
      ghost var g := AsGraph(dependencyMap);
      removed := [h];
      var queue := [h];
      ReachRefl(g, h);
      while queue != []
        invariant NoDup(removed) && |removed| > 0 && removed[0] == h
        invariant Elems(queue) <= Elems(removed) <= {h} + dependencyMap.Keys
        invariant forall y: Hash :: y in removed ==> Reach(g, y, h)
        invariant Swept(g, Elems(removed), Elems(removed) - Elems(queue))
        invariant |removed| <= |{h} + dependencyMap.Keys|
        decreases 2 * (|{h} + dependencyMap.Keys| - |removed|) + |queue|
      {
        var current := queue[|queue| - 1];
        ghost var queue0 := queue;
        assert current in Elems(queue);
        assert current in removed;
        queue := queue[..|queue| - 1];
        assert Elems(queue0) == Elems(queue) + {current};
        removed, queue := SweepDependents(h, current, removed, queue);
        NoDupCardinality(removed);
        SubsetCardinality(Elems(removed), {h} + dependencyMap.Keys);
      }
      assert h in Elems(removed);
      forall y: Hash | Reach(g, y, h)
        ensures y in removed
      {
        assert forall z: Hash, w: Hash :: w in Out(g, z) && w in Elems(removed) ==> z in Elems(removed) by {
          assert Elems(removed) - Elems([]) == Elems(removed);
        }
        BackClosedReach(g, Elems(removed), y, h);
      }
    }

    /** One scan of the dependency map for the children of one removed transaction. */
    method SweepDependents(ghost h: Hash, current: Hash, removed: seq<Hash>, queue: seq<Hash>)
      returns (removed1: seq<Hash>, queue1: seq<Hash>)
      requires NoDup(removed) && |removed| > 0 && removed[0] == h
      requires Elems(queue) + {current} <= Elems(removed) <= {h} + dependencyMap.Keys
      requires forall y: Hash :: y in removed ==> Reach(AsGraph(dependencyMap), y, h)
      requires Swept(AsGraph(dependencyMap), Elems(removed), Elems(removed) - (Elems(queue) + {current}))
      ensures NoDup(removed1) && removed <= removed1 && |queue1| - |queue| == |removed1| - |removed|
      ensures Elems(queue1) <= Elems(removed1) <= {h} + dependencyMap.Keys
      ensures forall y: Hash :: y in removed1 ==> Reach(AsGraph(dependencyMap), y, h)
      ensures Swept(AsGraph(dependencyMap), Elems(removed1), Elems(removed1) - Elems(queue1))
    {
      ghost var g := AsGraph(dependencyMap);
      removed1, queue1 := removed, queue;
      var pending := dependencyMap.Keys;
      while pending != {}
        invariant pending <= dependencyMap.Keys && NoDup(removed1) && removed <= removed1
        invariant |queue1| - |queue| == |removed1| - |removed|
        invariant Elems(queue1) == Elems(queue) + (Elems(removed1) - Elems(removed))
        invariant Elems(removed) <= Elems(removed1) <= {h} + dependencyMap.Keys
        invariant forall y: Hash :: y in removed1 ==> Reach(g, y, h)
        invariant forall z: Hash :: current in Out(g, z) ==> z in pending || z in Elems(removed1)
        decreases pending
      {
        var d :| d in pending;
        if current in dependencyMap[d] && d !in removed1 {
          NoDupAppend(removed1, d);
          assert current in Elems(removed) && current in removed1;
          ReachEdge(g, d, current);
          ReachTrans(g, d, current, h);
          assert Elems(queue1 + [d]) == Elems(queue1) + {d};
          removed1, queue1 := removed1 + [d], queue1 + [d];
        }
        pending := pending - {d};
      }
      assert Elems(removed1) - Elems(queue1) <= (Elems(removed) - (Elems(queue) + {current})) + {current};
    }

    method RemoveTransactionCascade(h: Hash) returns (removed: seq<Hash>)
      requires Valid()
      modifies this
      ensures Valid() && cachedOrdering == None
      ensures NoDup(removed) && |removed| > 0 && removed[0] == h
      ensures forall y: Hash :: y in removed <==> Reach(AsGraph(old(dependencyMap)), y, h)
      ensures nodes == old(nodes) - Elems(removed) && dependencyMap == old(dependencyMap) - Elems(removed)
      ensures spends == old(spends) - Elems(removed) && conflictMap == old(conflictMap) - Elems(removed)
      ensures forall t: Hash, p: Hash :: Has(dependencyMap, t, p) ==> p !in Elems(removed)
      ensures IndexWithout(old(utxoIndex), Elems(removed), utxoIndex)
    {
      removed := CollectRemovals(h);
      ghost var gone := Elems(removed);
      ghost var index0, conflicts0 := utxoIndex, conflictMap;
      var i := 0;
      while i < |removed|
        invariant 0 <= i <= |removed|
        invariant nodes == old(nodes) - Elems(removed[..i]) && dependencyMap == old(dependencyMap) - Elems(removed[..i])
        invariant conflictMap == conflicts0 - Elems(removed[..i])
        invariant i > 0 ==> IndexWithout(index0, gone, utxoIndex)
        invariant i == 0 ==> utxoIndex == index0
        invariant spends == old(spends) && cachedOrdering == old(cachedOrdering)
      {
        var tx := removed[i];
        ElemsPrefix(removed, i);
        MinusOneMore(old(nodes), Elems(removed[..i]), tx);
        MinusOneMore(old(dependencyMap), Elems(removed[..i]), tx);
        MinusOneMore(conflicts0, Elems(removed[..i]), tx);
        nodes := nodes - {tx};
        dependencyMap := dependencyMap - {tx};
        conflictMap := conflictMap - {tx};
        ghost var index1 := utxoIndex;
        utxoIndex := RetainAll(utxoIndex, {tx});
        utxoIndex := RetainAll(utxoIndex, Elems(removed));
        assert tx in gone;
        RetainTwice(index0, gone, index1, tx, utxoIndex);
        i := i + 1;
      }
      assert removed[..i] == removed;
      spends := spends - gone;
      cachedOrdering := None;
      RemovalKeeps(old(nodes.Keys), old(spends), index0, conflicts0, gone, utxoIndex);
      NoRemovedParents(old(dependencyMap), gone, h);
    }
  }

  // ----- bookkeeping of registrations -----

  /** `more` is `base` plus conflicts between `h` and the members of `claimants` other than `h`. */
  ghost predicate Meets(base: Lists, more: Lists, h: Hash, claimants: seq<Hash>) {
    forall c: Hash, d: Hash :: Has(more, c, d) <==>
                     Has(base, c, d) || (c != d && ((c == h && d in claimants) || (d == h && c in claimants)))
  }

  lemma MeetsMore(base: Lists, more: Lists, h: Hash, claimants: seq<Hash>, x: Hash)
    requires Meets(base, more, h, claimants) && x != h
    ensures Meets(base, Push(Push(more, h, x), x, h), h, claimants + [x])
  {
    var more1 := Push(more, h, x);
    PushHas(more, h, x);
    PushHas(more1, x, h);
    assert forall d: Hash :: d in claimants + [x] <==> d in claimants || d == x;
  }

  lemma MeetsTwice(base: Lists, mid: Lists, more: Lists, h: Hash, first: seq<Hash>, second: seq<Hash>, both: seq<Hash>)
    requires Meets(base, mid, h, first) && Meets(mid, more, h, second)
    requires forall d: Hash :: d in both <==> d in first || (d in second && d != h)
    ensures Meets(base, more, h, both)
  {
  }

  lemma ClaimIndex(index: Lists, spends: map<Hash, set<Hash>>, nodes: set<Hash>, h: Hash, p: Hash)
    requires IndexExact(nodes, spends, index) && h in nodes
    ensures IndexExact(nodes, Claiming(spends, h, {p}), Push(index, p, h))
  {
    PushHas(index, p, h);
  }

  lemma ClaimRecorded(index: Lists, conflicts: Lists, conflicts1: Lists, h: Hash, p: Hash)
    requires ConflictsRecorded(index, conflicts) && Meets(conflicts, conflicts1, h, List(index, p))
    ensures ConflictsRecorded(Push(index, p, h), conflicts1)
  {
    PushHas(index, p, h);
  }

  lemma ClaimOwners(index: Lists, spends: map<Hash, set<Hash>>, conflicts: Lists, conflicts1: Lists, nodes: set<Hash>, h: Hash, p: Hash)
    requires IndexExact(nodes, spends, index) && OwnersThere(nodes, conflicts) && h in nodes
    requires Meets(conflicts, conflicts1, h, List(index, p))
    ensures OwnersThere(nodes, conflicts1)
  {
    assert forall c: Hash :: c in List(index, p) ==> Has(index, p, c);
  }

  lemma ClaimNoStale(index: Lists, conflicts: Lists, conflicts1: Lists, spends: map<Hash, set<Hash>>, nodes: set<Hash>, h: Hash, p: Hash)
    requires IndexExact(nodes, spends, index) && NoStale(nodes, spends, conflicts)
    requires h in nodes && Meets(conflicts, conflicts1, h, List(index, p))
    ensures NoStale(nodes, Claiming(spends, h, {p}), conflicts1)
  {
    var spends1: map<Hash, set<Hash>> := Claiming(spends, h, {p});
    forall c: Hash, d: Hash | Has(conflicts1, c, d)
      ensures c in nodes && d in nodes && Has(conflicts1, d, c) && spends1[c] * spends1[d] != {}
    {
      if Has(conflicts, c, d) {
        assert Has(conflicts, d, c);
        var q: Hash :| q in spends[c] * spends[d];
        assert q in spends1[c] * spends1[d];
      } else {
        assert (c == h && Has(index, p, d)) || (d == h && Has(index, p, c));
        assert p in spends1[c] * spends1[d];
      }
    }
  }

  lemma NewNodeKeeps(nodes: set<Hash>, spends: map<Hash, set<Hash>>, index: Lists, conflicts: Lists, h: Hash)
    requires IndexExact(nodes, spends, index)
    ensures IndexExact(nodes + {h}, Claiming(spends, h, {}), index)
    ensures NoStale(nodes, spends, conflicts) ==> NoStale(nodes + {h}, Claiming(spends, h, {}), conflicts)
  {
  }

  lemma ClaimingTwice(spends: map<Hash, set<Hash>>, h: Hash, a: set<Hash>, b: set<Hash>, detected: seq<Hash>)
    ensures Claiming(Claiming(spends, h, a), h, b) == Claiming(spends, h, a + b)
    ensures a == {} ==> a + b == b
    ensures Detected(Claiming(spends, h, a), h, b, detected) ==> Detected(spends, h, b, detected)
  {
    assert Claimed(spends, h) + a + b == Claimed(spends, h) + (a + b);
    forall d: Hash | d != h
      ensures SharesWith(Claiming(spends, h, a), d, b) == SharesWith(spends, d, b)
    {
    }
  }

  lemma ClaimantsOf(index: Lists, nodes: set<Hash>, spends0: map<Hash, set<Hash>>, spends: map<Hash, set<Hash>>, h: Hash, p: Hash)
    requires IndexExact(nodes, spends, index) && spends.Keys == spends0.Keys + {h}
    requires forall d: Hash :: d in spends && d != h ==> spends[d] == spends0[d]
    ensures forall d: Hash :: d != h ==> (d in List(index, p) <==> d in spends0 && p in spends0[d])
  {
    forall d: Hash | d != h
      ensures d in List(index, p) <==> d in spends0 && p in spends0[d]
    {
      assert d in List(index, p) <==> Has(index, p, d);
    }
  }

  lemma DetectedSoFar(spends: map<Hash, set<Hash>>, h: Hash, seen: set<Hash>, p: Hash,
                      detected: seq<Hash>, claimants: seq<Hash>, more: seq<Hash>)
    requires Detected(spends, h, seen, detected)
    requires forall d: Hash :: d != h ==> (d in claimants <==> d in spends && p in spends[d])
    requires forall d: Hash :: d in more <==> d in detected || (d in claimants && d != h)
    ensures Detected(spends, h, seen + {p}, more)
  {
    forall d: Hash
      ensures d in more <==> d != h && SharesWith(spends, d, seen + {p})
    {
      assert d in detected <==> d != h && SharesWith(spends, d, seen);
      if d in spends {
        assert spends[d] * (seen + {p}) == spends[d] * seen + spends[d] * {p};
        assert p in spends[d] <==> spends[d] * {p} != {} by {
          assert p in spends[d] ==> p in spends[d] * {p};
        }
      }
    }
  }

  // ----- sequences -----

  lemma PopLast(s: seq<Hash>)
    requires s != [] && NoDup(s)
    ensures var last := s[|s| - 1];
            last in s && last !in s[..|s| - 1] && NoDup(s[..|s| - 1]) && Elems(s) == Elems(s[..|s| - 1]) + {last}
  {
    var n := |s| - 1;
    assert s == s[..n] + [s[n]];
  }

  // ----- parallel groups -----

  ghost predicate InGroup(groups: seq<seq<Hash>>, i: nat, x: Hash) {
    i < |groups| && x in groups[i]
  }

  /** Every key stands once in exactly one group; two keys share a group exactly when conflicts connect them. */
  ghost predicate IsGrouping(groups: seq<seq<Hash>>, keys: set<Hash>, pairs: set<(Hash, Hash)>) {
    && (forall i :: 0 <= i < |groups| ==> NoDup(groups[i]) && Elems(groups[i]) <= keys)
    && (forall x: Hash :: x in keys ==> exists i :: InGroup(groups, i, x))
    && (forall i: nat, j: nat, x: Hash, y: Hash :: InGroup(groups, i, x) && InGroup(groups, j, y) ==> (i == j <==> UF.Connected(pairs, x, y)))
  }

  method CollectValues(m: map<Hash, seq<Hash>>) returns (values: seq<seq<Hash>>)
    ensures exists order: seq<Hash> :: NoDup(order) && Elems(order) == m.Keys && ListsValues(m, order, values)
  {
    values := [];
    ghost var order: seq<Hash> := [];
    var rest := m.Keys;
    while rest != {}
      invariant rest <= m.Keys && NoDup(order) && Elems(order) == m.Keys - rest
      invariant ListsValues(m, order, values)
      decreases rest
    {
      var k :| k in rest;
      NoDupAppend(order, k);
      values := values + [m[k]];
      order := order + [k];
      rest := rest - {k};
    }
  }

  ghost predicate ListsValues(m: map<Hash, seq<Hash>>, order: seq<Hash>, values: seq<seq<Hash>>) {
    |values| == |order| && forall i :: 0 <= i < |order| ==> order[i] in m && values[i] == m[order[i]]
  }

  lemma GroupsAreClasses(f: UF.Forest, pairs: set<(Hash, Hash)>, keys: set<Hash>, components: map<Hash, seq<Hash>>, groups: seq<seq<Hash>>)
    requires UF.Represents(f, pairs) && UF.Groups(f, keys, components)
    requires exists order: seq<Hash> :: NoDup(order) && Elems(order) == components.Keys && ListsValues(components, order, groups)
    ensures IsGrouping(groups, keys, pairs)
  {
    var order: seq<Hash> :| NoDup(order) && Elems(order) == components.Keys && ListsValues(components, order, groups);
    forall i | 0 <= i < |groups|
      ensures UF.GroupAt(f, keys, components, order[i])
      ensures NoDup(groups[i]) && Elems(groups[i]) <= keys
    {
      assert UF.GroupAt(f, keys, components, order[i]);
    }
    forall x: Hash | x in keys
      ensures exists i :: InGroup(groups, i, x)
    {
      var r := UF.Root(f, x);
      assert r in Elems(order);
      var i :| 0 <= i < |order| && order[i] == r;
      assert UF.GroupAt(f, keys, components, r);
      assert InGroup(groups, i, x);
    }
    forall i: nat, j: nat, x: Hash, y: Hash | InGroup(groups, i, x) && InGroup(groups, j, y)
      ensures i == j <==> UF.Connected(pairs, x, y)
    {
      assert UF.GroupAt(f, keys, components, order[i]) && UF.GroupAt(f, keys, components, order[j]);
      UF.ClassesAreClosure(f, pairs, x, y);
    }
  }

  ghost function PairsFrom(c: Hash, s: set<Hash>): set<(Hash, Hash)> {
    set d | d in s :: (c, d)
  }

  ghost function PairsOf(conflicts: Lists): set<(Hash, Hash)> {
    set c, d | c in conflicts && d in conflicts[c] :: (c, d)
  }

  lemma PairsMore(c: Hash, s: set<Hash>, d: Hash)
    ensures PairsFrom(c, s + {d}) == PairsFrom(c, s) + {(c, d)}
  {
  }

  lemma PairsOfMore(conflicts: Lists, pending: set<Hash>, c: Hash)
    requires c in pending && pending <= conflicts.Keys
    ensures PairsOf(conflicts - (pending - {c})) == PairsOf(conflicts - pending) + PairsFrom(c, Elems(conflicts[c]))
  {
  }

  /** Everything the conflict lists name. */
  ghost function Named(conflicts: Lists): set<Hash> {
    set c, d | c in conflicts && d in conflicts[c] :: d
  }

  lemma NamedMore(conflicts: Lists, pending: set<Hash>, c: Hash)
    requires c in pending && pending <= conflicts.Keys
    ensures Named(conflicts - (pending - {c})) == Named(conflicts - pending) + Elems(conflicts[c])
  {
    var before, after := conflicts - pending, conflicts - (pending - {c});
    forall d: Hash
      ensures d in Named(after) <==> d in Named(before) + Elems(conflicts[c])
    {
      NamedBy(before, d);
      NamedBy(after, d);
      assert forall b: Hash :: Has(after, b, d) <==> Has(before, b, d) || (b == c && d in conflicts[c]);
      assert Has(after, c, d) <==> d in conflicts[c];
    }
  }

  lemma NamedBy(conflicts: Lists, d: Hash)
    ensures d in Named(conflicts) <==> exists c: Hash :: Has(conflicts, c, d)
  {
    if d in Named(conflicts) {
      var c: Hash :| c in conflicts && d in conflicts[c];
      assert Has(conflicts, c, d);
    }
    if c: Hash :| Has(conflicts, c, d) {
      assert c in conflicts && d in conflicts[c];
    }
  }

  lemma NothingNamed(conflicts: Lists)
    requires OwnersThere({}, conflicts)
    ensures Named(conflicts) == {}
  {
    forall d: Hash {
      NamedBy(conflicts, d);
    }
  }

  /** The groups hold registered transactions only exactly when every listed conflict is registered. */
  lemma GroupsRegisteredIff(nodes: set<Hash>, conflicts: Lists, pairs: set<(Hash, Hash)>, groups: seq<seq<Hash>>)
    requires IsGrouping(groups, nodes + Named(conflicts), pairs)
    ensures (forall i: nat, x: Hash :: InGroup(groups, i, x) ==> x in nodes) <==>
            (forall c: Hash, d: Hash :: Has(conflicts, c, d) ==> d in nodes)
  {
    if forall c: Hash, d: Hash :: Has(conflicts, c, d) ==> d in nodes {
      forall i: nat, x: Hash | InGroup(groups, i, x)
        ensures x in nodes
      {
        assert x in Elems(groups[i]);
        NamedBy(conflicts, x);
      }
    } else {
      var c: Hash, d: Hash :| Has(conflicts, c, d) && d !in nodes;
      assert d in Named(conflicts);
    }
  }

  /**
   After a cascade from a state without stale conflicts a group holds a removed transaction exactly when a survivor
   conflicted with it.
   */
  lemma RemovedInGroupIff(nodes: set<Hash>, spends: map<Hash, set<Hash>>, conflicts: Lists, gone: set<Hash>,
                          pairs: set<(Hash, Hash)>, groups: seq<seq<Hash>>, d: Hash)
    requires spends.Keys == nodes && NoStale(nodes, spends, conflicts) && d in gone
    requires IsGrouping(groups, (nodes - gone) + Named(conflicts - gone), pairs)
    ensures (exists i: nat :: InGroup(groups, i, d)) <==> exists c: Hash :: c !in gone && Has(conflicts, c, d)
  {
    NamedBy(conflicts - gone, d);
    if i: nat :| InGroup(groups, i, d) {
      assert d in Elems(groups[i]);
      var c: Hash :| Has(conflicts - gone, c, d);
      assert c !in gone && Has(conflicts, c, d);
    }
    if c: Hash :| c !in gone && Has(conflicts, c, d) {
      assert Has(conflicts - gone, c, d);
    }
  }

  /** Two claimants of one transaction; the first is removed, and still stands in a group beside the other. */
  method RemovedInGroup() returns (engine: Engine, groups: seq<seq<Hash>>)
    ensures engine.nodes.Keys == {2} && exists i: nat :: InGroup(groups, i, 1)
  {
    engine := TwoClaimants();
    ghost var nodes, spends, conflicts := engine.nodes.Keys, engine.spends, engine.conflictMap;
    var removed := engine.RemoveTransactionCascade(1);
    OnlyOneReaches(1, removed);
    groups := engine.GetParallelExecutionGroups();
    RemovedInGroupIff(nodes, spends, conflicts, Elems(removed), engine.ConflictPairs(), groups, 1);
  }

  method TwoClaimants() returns (engine: Engine)
    ensures fresh(engine) && engine.Valid() && engine.Fresh() && engine.dependencyMap == map[]
    ensures engine.nodes.Keys == {1, 2} && Has(engine.conflictMap, 2, 1)
  {
    engine := new Engine();
    var detected := engine.RegisterTransaction(1, [9], TxNode(0, 1, 0));
    assert 9 in engine.spends[1] * {9};
    assert SharesWith(engine.spends, 1, Elems([9]));
    detected := engine.RegisterTransaction(2, [9], TxNode(0, 1, 1));
    assert 1 in detected;
  }

  /** Without dependencies a transaction is removed alone. */
  lemma OnlyOneReaches(h: Hash, removed: seq<Hash>)
    requires forall y: Hash :: y in removed <==> Reach(AsGraph(map[]), y, h)
    ensures Elems(removed) == {h}
  {
    forall y: Hash
      ensures y in removed <==> y == h
    {
      ReachRefl(AsGraph(map[]), h);
      if Reach(AsGraph(map[]), y, h) && y != h {
        BackClosedReach(AsGraph(map[]), {h}, y, h);
      }
    }
  }

  /** Registered transactions of different groups never claim the same previous transaction. */
  lemma GroupsShareNothing(nodes: set<Hash>, spends: map<Hash, set<Hash>>, index: Lists, conflicts: Lists, keys: set<Hash>,
                           pairs: set<(Hash, Hash)>, groups: seq<seq<Hash>>, i: nat, j: nat, x: Hash, y: Hash)
    requires IndexExact(nodes, spends, index) && ConflictsRecorded(index, conflicts)
    requires pairs == PairsOf(conflicts)
    requires IsGrouping(groups, keys, pairs) && x in nodes && y in nodes
    requires InGroup(groups, i, x) && InGroup(groups, j, y) && i != j
    ensures spends[x] * spends[y] == {}
  {
    if p: Hash :| p in spends[x] * spends[y] {
      SharedOneGroup(nodes, spends, index, conflicts, keys, groups, i, j, x, y, p);
    }
  }

  /** Two transactions that claim the same previous transaction stand in one group. */
  lemma SharedOneGroup(nodes: set<Hash>, spends: map<Hash, set<Hash>>, index: Lists, conflicts: Lists, keys: set<Hash>,
                       groups: seq<seq<Hash>>, i: nat, j: nat, x: Hash, y: Hash, p: Hash)
    requires IndexExact(nodes, spends, index) && ConflictsRecorded(index, conflicts)
    requires IsGrouping(groups, keys, PairsOf(conflicts)) && x in nodes && y in nodes
    requires InGroup(groups, i, x) && InGroup(groups, j, y) && p in spends[x] && p in spends[y]
    ensures i == j
  {
    var pairs := PairsOf(conflicts);
    assert Has(index, p, x) && Has(index, p, y);
    if x == y {
      ReachRefl(UF.Undirected(pairs), x);
    } else {
      assert Has(conflicts, x, y);
      assert (x, y) in pairs;
      UF.UndirectedEdge(pairs, x, y);
      ReachEdge(UF.Undirected(pairs), x, y);
    }
    assert UF.Connected(pairs, x, y);
  }

  // ----- removal -----

  /** Every dependent of a swept transaction has been collected. */
  ghost predicate Swept(g: Graph, collected: set<Hash>, swept: set<Hash>) {
    forall z: Hash, w: Hash :: w in Out(g, z) && w in swept ==> z in collected
  }

  ghost predicate IndexWithout(index: Lists, gone: set<Hash>, index1: Lists) {
    forall k: Hash, c: Hash :: Has(index1, k, c) <==> Has(index, k, c) && c !in gone
  }

  lemma RetainTwice(index: Lists, gone: set<Hash>, index1: Lists, tx: Hash, index2: Lists)
    requires index1 == index || IndexWithout(index, gone, index1)
    requires tx in gone
    requires index2 == RetainAll(RetainAll(index1, {tx}), gone)
    ensures IndexWithout(index, gone, index2)
  {
    forall k: Hash, c: Hash
      ensures Has(index2, k, c) <==> Has(index, k, c) && c !in gone
    {
      if k in index1 {
        RetainMembers(index1[k], {tx}, c);
        RetainMembers(Retain(index1[k], {tx}), gone, c);
      }
      assert index1 != index ==> (Has(index1, k, c) <==> Has(index, k, c) && c !in gone);
    }
  }

  lemma NoRemovedParents(deps: Lists, gone: set<Hash>, h: Hash)
    requires forall y: Hash :: y in gone <==> Reach(AsGraph(deps), y, h)
    ensures forall t: Hash, p: Hash :: Has(deps - gone, t, p) ==> p !in gone
  {
    var g := AsGraph(deps);
    forall t: Hash, p: Hash | Has(deps - gone, t, p)
      ensures p !in gone
    {
      assert p in Out(g, t);
      if p in gone {
        ReachEdge(g, t, p);
        ReachTrans(g, t, p, h);
      }
    }
  }

  /** Only a survivor's own conflict list is left alone, so it may go on naming removed transactions. */
  lemma RemovalFreshIff(nodes: set<Hash>, spends: map<Hash, set<Hash>>, conflicts: Lists, gone: set<Hash>)
    requires spends.Keys == nodes && NoStale(nodes, spends, conflicts)
    ensures NoStale(nodes - gone, spends - gone, conflicts - gone) <==>
              forall c: Hash, d: Hash :: Has(conflicts, c, d) && c !in gone ==> d !in gone
  {
    var left := conflicts - gone;
    assert forall c: Hash, d: Hash :: Has(left, c, d) <==> Has(conflicts, c, d) && c !in gone;
  }

  lemma RemovalKeeps(nodes: set<Hash>, spends: map<Hash, set<Hash>>, index: Lists, conflicts: Lists, gone: set<Hash>, index1: Lists)
    requires IndexExact(nodes, spends, index) && ConflictsRecorded(index, conflicts) && OwnersThere(nodes, conflicts)
    requires IndexWithout(index, gone, index1)
    ensures IndexExact(nodes - gone, spends - gone, index1)
    ensures ConflictsRecorded(index1, conflicts - gone) && OwnersThere(nodes - gone, conflicts - gone)
  {
    assert forall c: Hash, d: Hash :: Has(conflicts - gone, c, d) ==> Has(conflicts, c, d) && c !in gone;
    forall p: Hash, c: Hash, d: Hash | Has(index1, p, c) && Has(index1, p, d) && c != d
      ensures Has(conflicts - gone, c, d)
    {
      assert Has(conflicts, c, d);
    }
  }
}
