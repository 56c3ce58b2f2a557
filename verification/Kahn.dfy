/**
 The invariant behind the program's three in-degree worklists.

 `par` maps each node to the parents it waits for; `need` is the in-degree counter. The counter may start
 above the number of distinct parents (`surplus`), because one of the callers counts a duplicated parent
 twice but lowers the counter once per emitted parent.
 */
module Kahn {
  import opened Basics
  import opened Graphs

  ghost predicate Counted(par: Graph, surplus: map<Hash, nat>, need: map<Hash, nat>, emitted: set<Hash>) {
    && need.Keys == surplus.Keys == par.Keys
    && forall t :: t in par ==> need[t] == surplus[t] + |par[t] - emitted|
  }

  ghost predicate ParentsFirst(par: Graph, order: seq<Hash>) {
    forall i, p :: 0 <= i < |order| && p in Out(par, order[i]) ==> Before(order, p, i)
  }

  ghost predicate Before(order: seq<Hash>, p: Hash, i: nat)
    requires i <= |order|
  {
    exists j :: 0 <= j < i && order[j] == p
  }

  /** Between two pops: the emitted and the queued nodes are exactly those whose counter is zero. */
  ghost predicate Inv(par: Graph, surplus: map<Hash, nat>, need: map<Hash, nat>, emitted: seq<Hash>, queue: seq<Hash>) {
    && Counted(par, surplus, need, Elems(emitted))
    && NoDup(emitted) && NoDup(queue)
    && Zeroes(par, need, Elems(emitted), Elems(queue))
    && ParentsFirst(par, emitted)
  }

  ghost predicate Zeroes(par: Graph, need: map<Hash, nat>, emitted: set<Hash>, queued: set<Hash>)
    requires need.Keys == par.Keys
  {
    && emitted !! queued
    && forall t :: t in emitted + queued <==> t in par && need[t] == 0
  }

  /** The nodes that wait for `p`. */
  ghost function Children(par: Graph, p: Hash): set<Hash> {
    set t | t in par && p in par[t]
  }

  /** `need1` and `queue1` after the counters of the nodes in `done` were lowered for one emitted parent. */
  ghost predicate Released(need: map<Hash, nat>, rest: seq<Hash>, need1: map<Hash, nat>, queue1: seq<Hash>, done: set<Hash>) {
    && need1.Keys == need.Keys && done <= need.Keys
    && (forall t :: t in done ==> need[t] > 0)
    && (forall t :: t in need ==> need1[t] == if t in done then need[t] - 1 else need[t])
    && NoDup(queue1)
    && Elems(queue1) == Elems(rest) + set t | t in done && need1[t] == 0
  }

  /** What every run ends with. */
  ghost predicate Final(par: Graph, surplus: map<Hash, nat>, order: seq<Hash>) {
    && NoDup(order) && Elems(order) <= par.Keys && surplus.Keys == par.Keys
    && ParentsFirst(par, order)
    && forall t :: t in par ==> (t in order <==> surplus[t] == 0 && par[t] <= Elems(order))
  }

  lemma Start(par: Graph, surplus: map<Hash, nat>, need: map<Hash, nat>, queue: seq<Hash>)
    requires Counted(par, surplus, need, {})
    requires NoDup(queue) && forall t :: t in queue <==> t in par && need[t] == 0
    ensures Inv(par, surplus, need, [], queue)
  {
    assert Elems<Hash>([]) == {};
    forall t
      ensures t in {} + Elems(queue) <==> t in par && need[t] == 0
    {
      assert t in Elems(queue) <==> t in queue;
    }
  }

  lemma PoppedIsNew(par: Graph, surplus: map<Hash, nat>, need: map<Hash, nat>, emitted: seq<Hash>, queue: seq<Hash>, current: Hash)
    requires Inv(par, surplus, need, emitted, queue) && current in queue
    ensures current !in Elems(emitted) && current in par
  {
    assert current in Elems(queue);
    assert current in Elems(emitted) + Elems(queue);
  }

  /** Every child of a queued node still counts it, so lowering the counter cannot underflow. */
  lemma NoUnderflow(par: Graph, surplus: map<Hash, nat>, need: map<Hash, nat>, emitted: seq<Hash>, queue: seq<Hash>,
                    current: Hash, child: Hash)
    requires Inv(par, surplus, need, emitted, queue) && current in queue
    requires child in par && current in par[child]
    ensures need[child] > 0 && child !in queue && child !in emitted
  {
    assert current in par[child] - Elems(emitted);
    assert child in Elems(emitted) + Elems(queue) <==> child in par && need[child] == 0;
  }

  /** All that lowering the counters of the children of `current` needs. */
  ghost predicate Lowerable(par: Graph, need: map<Hash, nat>, rest: seq<Hash>, current: Hash) {
    && need.Keys == par.Keys && NoDup(rest)
    && forall c :: c in Children(par, current) ==> need[c] > 0 && c !in rest
  }

  lemma PopLowerable(par: Graph, surplus: map<Hash, nat>, need: map<Hash, nat>, emitted: seq<Hash>, queue: seq<Hash>,
                     current: Hash, rest: seq<Hash>)
    requires Inv(par, surplus, need, emitted, queue) && current in queue
    requires NoDup(rest) && Elems(rest) <= Elems(queue)
    ensures Lowerable(par, need, rest, current)
  {
    forall c | c in Children(par, current)
      ensures need[c] > 0 && c !in rest
    {
      NoUnderflow(par, surplus, need, emitted, queue, current, c);
      assert c !in Elems(queue);
    }
  }

  /** One more child released. */
  lemma ReleaseOne(need: map<Hash, nat>, rest: seq<Hash>, need0: map<Hash, nat>, queue0: seq<Hash>, done: set<Hash>,
                   child: Hash, need1: map<Hash, nat>, queue1: seq<Hash>)
    requires Released(need, rest, need0, queue0, done)
    requires child in need && need[child] > 0 && child !in done && child !in rest
    requires need1 == need0[child := need0[child] - 1]
    requires if need1[child] == 0 then queue1 == queue0 + [child] else queue1 == queue0
    ensures Released(need, rest, need1, queue1, done + {child})
  {
    assert child !in queue0 by {
      assert child !in Elems(queue0);
    }
    assert Elems(queue0 + [child]) == Elems(queue0) + {child};
  }

  /** One whole iteration of the outer loop: pop `current`, emit it, release its children. */
  lemma Step(par: Graph, surplus: map<Hash, nat>, need: map<Hash, nat>, emitted: seq<Hash>, queue: seq<Hash>,
             current: Hash, rest: seq<Hash>, need1: map<Hash, nat>, queue1: seq<Hash>)
    requires Inv(par, surplus, need, emitted, queue)
    requires current in queue && current !in rest && Elems(queue) == Elems(rest) + {current}
    requires Released(need, rest, need1, queue1, Children(par, current))
    ensures Inv(par, surplus, need1, emitted + [current], queue1)
    ensures Elems(emitted + [current]) == Elems(emitted) + {current}
  {
    StepEmit(par, surplus, need, emitted, queue, current);
    StepCounted(par, surplus, need, Elems(emitted), current, rest, need1, queue1);
    StepZeroes(par, need, Elems(emitted), Elems(queue), current, rest, need1, queue1);
  }

  lemma StepEmit(par: Graph, surplus: map<Hash, nat>, need: map<Hash, nat>, emitted: seq<Hash>, queue: seq<Hash>, current: Hash)
    requires Inv(par, surplus, need, emitted, queue) && current in queue
    ensures current in Elems(queue) && current !in Elems(emitted)
    ensures Elems(emitted + [current]) == Elems(emitted) + {current} && NoDup(emitted + [current])
    ensures ParentsFirst(par, emitted + [current])
  {
    assert current in Elems(queue);
    assert current in Elems(emitted) + Elems(queue);
    NoDupAppend(emitted, current);
    ReadyParents(par, surplus, need, Elems(emitted), current);
    StepParentsFirst(par, emitted, current);
  }

  lemma ReadyParents(par: Graph, surplus: map<Hash, nat>, need: map<Hash, nat>, emitted: set<Hash>, t: Hash)
    requires Counted(par, surplus, need, emitted) && t in par && need[t] == 0
    ensures surplus[t] == 0 && par[t] <= emitted
  {
    assert par[t] - emitted == {};
    forall p | p in par[t]
      ensures p in emitted
    {
      assert p !in par[t] - emitted;
    }
  }

  lemma StepCounted(par: Graph, surplus: map<Hash, nat>, need: map<Hash, nat>, emitted: set<Hash>,
                    current: Hash, rest: seq<Hash>, need1: map<Hash, nat>, queue1: seq<Hash>)
    requires Counted(par, surplus, need, emitted) && current !in emitted
    requires Released(need, rest, need1, queue1, Children(par, current))
    ensures Counted(par, surplus, need1, emitted + {current})
  {
    var after := emitted + {current};
    forall t | t in par
      ensures need1[t] == surplus[t] + |par[t] - after|
    {
      if current in par[t] {
        assert par[t] - after == (par[t] - emitted) - {current};
      } else {
        assert par[t] - after == par[t] - emitted;
      }
    }
  }

  lemma StepParentsFirst(par: Graph, emitted: seq<Hash>, current: Hash)
    requires ParentsFirst(par, emitted) && Out(par, current) <= Elems(emitted)
    ensures ParentsFirst(par, emitted + [current])
  {
    var emitted1 := emitted + [current];
    forall i, p | 0 <= i < |emitted1| && p in Out(par, emitted1[i])
      ensures Before(emitted1, p, i)
    {
      if i == |emitted| {
        assert p in Elems(emitted);
        var j :| 0 <= j < |emitted| && emitted[j] == p;
        assert emitted1[j] == p;
      } else {
        assert Before(emitted, p, i);
        var j :| 0 <= j < i && emitted[j] == p;
        assert emitted1[j] == p;
      }
    }
  }

  lemma StepZeroes(par: Graph, need: map<Hash, nat>, emitted: set<Hash>, queued: set<Hash>,
                   current: Hash, rest: seq<Hash>, need1: map<Hash, nat>, queue1: seq<Hash>)
    requires need.Keys == par.Keys && Zeroes(par, need, emitted, queued)
    requires current in queued && current !in rest && queued == Elems(rest) + {current}
    requires Released(need, rest, need1, queue1, Children(par, current))
    ensures Zeroes(par, need1, emitted + {current}, Elems(queue1))
  {
    assert current !in Elems(rest);
    forall t
      ensures t in (emitted + {current}) + Elems(queue1) <==> t in par && need1[t] == 0
      ensures !(t in emitted + {current} && t in Elems(queue1))
    {
      assert t in emitted + queued <==> t in par && need[t] == 0;
    }
  }

  lemma Finish(par: Graph, surplus: map<Hash, nat>, need: map<Hash, nat>, order: seq<Hash>)
    requires Inv(par, surplus, need, order, [])
    ensures Final(par, surplus, order)
  {
    forall t | t in par
      ensures t in order <==> surplus[t] == 0 && par[t] <= Elems(order)
    {
      assert t in Elems(order) + Elems([]) <==> need[t] == 0;
    }
    forall t | t in Elems(order)
      ensures t in par
    {
      assert t in Elems(order) + Elems([]);
    }
  }

  /**
   Exactly when a run emits every node: no counter starts too high, no node waits for an unknown parent,
   and the parent relation has no cycle.
   */
  lemma CompleteIff(par: Graph, surplus: map<Hash, nat>, order: seq<Hash>)
    requires Final(par, surplus, order)
    ensures Elems(order) == par.Keys <==>
              (forall t :: t in par ==> surplus[t] == 0 && par[t] <= par.Keys) && Acyclic(par)
  {
    if Elems(order) == par.Keys {
      forall t | t in par
        ensures surplus[t] == 0 && par[t] <= par.Keys
      {
        assert t in Elems(order);
        assert t in order;
      }
      ParentsFirstAcyclic(par, order);
    }
    if (forall t :: t in par ==> surplus[t] == 0 && par[t] <= par.Keys) && Acyclic(par) {
      var missing := par.Keys - Elems(order);
      if missing != {} {
        var m := MinimalMember(par, missing);
        assert m in par && m !in order;
        forall p | p in par[m]
          ensures p in Elems(order)
        {
          assert p !in Out(par, m) * missing;
        }
        assert false;
      }
      forall t | t in par
        ensures t in Elems(order)
      {
        assert t !in missing;
      }
    }
  }

  lemma ParentsFirstAcyclic(par: Graph, order: seq<Hash>)
    requires NoDup(order) && ParentsFirst(par, order) && par.Keys <= Elems(order)
    ensures Acyclic(par)
  {
    forall x
      ensures !ReachPlus(par, x, x)
    {
      if ReachPlus(par, x, x) {
        assert x in par && x in Elems(order);
        var i :| 0 <= i < |order| && order[i] == x;
        AncestorsEarlier(par, order, i, x);
        assert false;
      }
    }
  }

  /** In a parents-first order every ancestor of an element stands before it. */
  lemma AncestorsEarlier(par: Graph, order: seq<Hash>, i: nat, a: Hash)
    requires ParentsFirst(par, order) && i < |order| && ReachPlus(par, order[i], a)
    ensures Before(order, a, i)
  {
    var before := set j | 0 <= j < i :: order[j];
    forall x, y | x in before && y in Out(par, x)
      ensures y in before
    {
      var j :| 0 <= j < i && order[j] == x;
      assert Before(order, y, j);
    }
    var z :| z in Out(par, order[i]) && Reach(par, z, a);
    assert Before(order, z, i);
    ClosedReach(par, before, z, a);
  }

  // ----- the runs with a first-in first-out queue and an edge map -----

  method ZeroDegrees(inDegree: map<Hash, nat>) returns (queue: seq<Hash>)
    ensures NoDup(queue) && forall t: Hash :: t in queue <==> t in inDegree && inDegree[t] == 0
  {
    queue := [];
    var rest := inDegree.Keys;
    while rest != {}
      invariant rest <= inDegree.Keys && NoDup(queue)
      invariant forall t: Hash :: t in queue <==> t in inDegree && t !in rest && inDegree[t] == 0
      decreases rest
    {
      var t :| t in rest;
      if inDegree[t] == 0 {
        NoDupAppend(queue, t);
        queue := queue + [t];
      }
      rest := rest - {t};
    }
  }

  function NoSurplus(par: Graph): map<Hash, nat> {
    map t | t in par :: 0
  }

  method Sort(ghost par: Graph, inDegree: map<Hash, nat>, edges: Graph) returns (order: seq<Hash>)
    requires inDegree.Keys == par.Keys == edges.Keys
    requires forall t :: t in par ==> inDegree[t] == |par[t]| && edges[t] == Children(par, t)
    ensures Final(par, NoSurplus(par), order)
  {
    var need := inDegree;
    var queue := ZeroDegrees(inDegree);
    order := [];
    CountedAtStart(par, need);
    Start(par, NoSurplus(par), need, queue);
    while queue != []
      invariant Inv(par, NoSurplus(par), need, order, queue)
      decreases par.Keys - Elems(order)
    {
      var current := queue[0];
      PoppedIsNew(par, NoSurplus(par), need, order, queue, current);
      need, queue := Emit(par, need, edges, order, queue, current);
      order := order + [current];
    }
    Finish(par, NoSurplus(par), need, order);
  }

  lemma CountedAtStart(par: Graph, need: map<Hash, nat>)
    requires need.Keys == par.Keys && forall t: Hash :: t in par ==> need[t] == |par[t]|
    ensures Counted(par, NoSurplus(par), need, {})
  {
    forall t: Hash | t in par
      ensures NoSurplus(par)[t] == 0 && |par[t] - {}| == need[t]
    {
      MinusNothing(par[t]);
    }
  }

  lemma MinusNothing(s: set<Hash>)
    ensures s - {} == s
  {
  }

  method Emit(ghost par: Graph, need: map<Hash, nat>, edges: Graph, ghost order: seq<Hash>, queue: seq<Hash>, current: Hash)
    returns (need1: map<Hash, nat>, queue1: seq<Hash>)
    requires Inv(par, NoSurplus(par), need, order, queue) && queue != [] && current == queue[0]
    requires edges.Keys == par.Keys && forall t :: t in par ==> edges[t] == Children(par, t)
    ensures Inv(par, NoSurplus(par), need1, order + [current], queue1)
    ensures Elems(order + [current]) == Elems(order) + {current}
  {
    PopFirst(queue);
    PoppedIsNew(par, NoSurplus(par), need, order, queue, current);
    PopLowerable(par, NoSurplus(par), need, order, queue, current, queue[1..]);
    need1, queue1 := LowerAll(par, need, queue[1..], current, edges[current]);
    Step(par, NoSurplus(par), need, order, queue, current, queue[1..], need1, queue1);
  }

  method LowerAll(ghost par: Graph, need: map<Hash, nat>, rest: seq<Hash>, current: Hash, children: set<Hash>)
    returns (need1: map<Hash, nat>, queue1: seq<Hash>)
    requires Lowerable(par, need, rest, current) && children == Children(par, current)
    ensures Released(need, rest, need1, queue1, children)
  {
    need1, queue1 := need, rest;
    var pending := children;
    assert children - pending == {};
    while pending != {}
      invariant pending <= children && Released(need, rest, need1, queue1, children - pending)
      decreases pending
    {
      var child :| child in pending;
      ghost var need0, queue0 := need1, queue1;
      need1 := need1[child := need1[child] - 1];
      if need1[child] == 0 {
        queue1 := queue1 + [child];
      }
      ReleaseOne(need, rest, need0, queue0, children - pending, child, need1, queue1);
      Remaining(children, pending, child);
      pending := pending - {child};
    }
    assert children - {} == children;
  }

  lemma PopFirst(s: seq<Hash>)
    requires s != [] && NoDup(s)
    ensures s[0] in s && s[0] !in s[1..] && NoDup(s[1..]) && Elems(s) == Elems(s[1..]) + {s[0]}
  {
    assert s == [s[0]] + s[1..];
  }
}
