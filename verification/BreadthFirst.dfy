/** Breadth-first search with a queue of nodes and depths: every node is first met at its distance from the start. */
module BreadthFirst {
  import opened Basics
  import opened Graphs

  type Item = (Hash, nat)

  /** The nodes within `k` edges of `t`. */
  ghost function Ball(g: Graph, t: Hash, k: nat): set<Hash> {
    if k == 0 then {t} else Ball(g, t, k - 1) + Spread(g, Ball(g, t, k - 1))
  }

  ghost function Spread(g: Graph, s: set<Hash>): set<Hash> {
    set x, y | x in s && y in Out(g, x) :: y
  }

  ghost predicate ShortPath(g: Graph, p: seq<Hash>, t: Hash, x: Hash, k: nat) {
    IsPath(g, p) && p[0] == t && p[|p| - 1] == x && |p| <= k + 1
  }

  lemma {:induction false} BallGrows(g: Graph, t: Hash, j: nat, k: nat)
    requires j <= k
    ensures Ball(g, t, j) <= Ball(g, t, k) && t in Ball(g, t, k)
    decreases k
  {
    if k == 0 {
    } else {
      BallGrows(g, t, if j < k then j else 0, k - 1);
    }
  }

  /** Being within `k` edges is having a path of at most `k` edges. */
  lemma {:induction false} BallIff(g: Graph, t: Hash, x: Hash, k: nat)
    ensures x in Ball(g, t, k) <==> exists p :: ShortPath(g, p, t, x, k)
    decreases k
  {
    if x in Ball(g, t, k) {
      var p := PathInBall(g, t, x, k);
    }
    if p :| ShortPath(g, p, t, x, k) {
      PathEndsInBall(g, p, k);
    }
  }

  lemma {:induction false} PathInBall(g: Graph, t: Hash, x: Hash, k: nat) returns (p: seq<Hash>)
    requires x in Ball(g, t, k)
    ensures ShortPath(g, p, t, x, k)
    decreases k
  {
    if x == t {
      p := [t];
    } else if x in Ball(g, t, k - 1) {
      p := PathInBall(g, t, x, k - 1);
    } else {
      var z :| z in Ball(g, t, k - 1) && x in Out(g, z);
      var q := PathInBall(g, t, z, k - 1);
      PathJoin(g, q, [x]);
      p := q + [x];
    }
  }

  lemma {:induction false} PathEndsInBall(g: Graph, p: seq<Hash>, k: nat)
    requires IsPath(g, p) && |p| <= k + 1
    ensures p[|p| - 1] in Ball(g, p[0], k)
    decreases k
  {
    if |p| == 1 {
      BallGrows(g, p[0], 0, k);
    } else {
      var n := |p| - 1;
      PathPieces(g, p, n - 1);
      PathEndsInBall(g, p[..n], k - 1);
      assert EdgeAt(g, p, n - 1);
    }
  }

  lemma BallReaches(g: Graph, t: Hash, x: Hash, k: nat)
    requires x in Ball(g, t, k)
    ensures Reach(g, t, x)
  {
    var p := PathInBall(g, t, x, k);
  }

  // ----- the search -----

  /** One of the first `k` entries of the queue is `x`. */
  ghost predicate WaitingFor(queue: seq<Item>, k: nat, x: Hash) {
    exists i :: 0 <= i < k && i < |queue| && queue[i].0 == x
  }

  lemma WaitingMore(queue: seq<Item>, item: Item)
    ensures WaitingFor(queue + [item], |queue| + 1, item.0)
    ensures forall y :: WaitingFor(queue, |queue|, y) ==> WaitingFor(queue + [item], |queue| + 1, y)
  {
    assert (queue + [item])[|queue|].0 == item.0;
    assert forall i :: 0 <= i < |queue| ==> (queue + [item])[i] == queue[i];
  }

  /** The first `k` entries are at depth `e`, the others one deeper, each within its depth. */
  ghost predicate QueueInOrder(g: Graph, t: Hash, queue: seq<Item>, e: nat, k: nat) {
    && k <= |queue|
    && forall i :: 0 <= i < |queue| ==> queue[i].1 == (if i < k then e else e + 1) && queue[i].0 in Ball(g, t, queue[i].1)
  }

  /** What has been met: everything nearer than `e`, and what is at `e` has been met or waits in front. */
  ghost predicate Met(g: Graph, t: Hash, visited: set<Hash>, queue: seq<Item>, e: nat, k: nat) {
    && (e > 0 ==> Ball(g, t, e - 1) <= visited)
    && (forall x :: x in Ball(g, t, e) ==> x in visited || WaitingFor(queue, k, x))
    && (forall x :: x in visited ==> Handled(g, visited, queue, x))
  }

  ghost predicate Handled(g: Graph, visited: set<Hash>, queue: seq<Item>, x: Hash) {
    forall y :: y in Out(g, x) ==> y in visited || WaitingFor(queue, |queue|, y)
  }

  /** `depth` is the largest distance of a visited node. */
  ghost predicate IsReachDepth(g: Graph, t: Hash, visited: set<Hash>, depth: nat) {
    visited <= Ball(g, t, depth) && (depth > 0 ==> LeavesOut(Ball(g, t, depth - 1), visited))
  }

  ghost predicate LeavesOut(near: set<Hash>, visited: set<Hash>) {
    exists x :: x in visited && x !in near
  }

  lemma LeavesOutMore(near: set<Hash>, visited: set<Hash>, x: Hash)
    ensures LeavesOut(near, visited) ==> LeavesOut(near, visited + {x})
    ensures near <= visited && x !in visited ==> LeavesOut(near, visited + {x})
  {
    if y :| y in visited && y !in near {
      assert y in visited + {x};
    }
    assert x in visited + {x};
  }

  ghost predicate Searching(g: Graph, t: Hash, visited: set<Hash>, queue: seq<Item>, e: nat, k: nat, depth: nat) {
    && QueueInOrder(g, t, queue, e, k) && Met(g, t, visited, queue, e, k)
    && IsReachDepth(g, t, visited, depth) && depth <= e
  }

  lemma SearchStarts(g: Graph, t: Hash)
    ensures Searching(g, t, {}, [(t, 0)], 0, 1, 0)
  {
    assert [(t, 0)][0].0 == t;
  }

  /** When the front is used up the queue is one level deeper. */
  lemma NextLevel(g: Graph, t: Hash, visited: set<Hash>, queue: seq<Item>, e: nat, depth: nat)
    requires Searching(g, t, visited, queue, e, 0, depth)
    ensures Searching(g, t, visited, queue, e + 1, |queue|, depth)
  {
    forall x | x in Ball(g, t, e)
      ensures x in visited
    {
      assert !WaitingFor(queue, 0, x);
    }
    forall x | x in Ball(g, t, e + 1)
      ensures x in visited || WaitingFor(queue, |queue|, x)
    {
      if x !in Ball(g, t, e) {
        var z :| z in Ball(g, t, e) && x in Out(g, z);
        assert Handled(g, visited, queue, z);
      }
    }
  }

  lemma WaitingBehind(queue: seq<Item>, more: seq<Item>, k: nat, x: Hash)
    requires queue != []
    ensures WaitingFor(queue, k, x) && x != queue[0].0 && k > 0 ==> WaitingFor(queue[1..] + more, k - 1, x)
    ensures WaitingFor(queue, |queue|, x) && x != queue[0].0 ==>
              WaitingFor(queue[1..] + more, |queue[1..] + more|, x)
  {
    if i :| 0 <= i < k && i < |queue| && queue[i].0 == x {
      assert i > 0 ==> (queue[1..] + more)[i - 1].0 == x;
    }
    if i :| 0 <= i < |queue| && queue[i].0 == x {
      assert i > 0 ==> (queue[1..] + more)[i - 1].0 == x;
    }
  }

  /** An entry that was met before is passed over. */
  lemma PassOver(g: Graph, t: Hash, visited: set<Hash>, queue: seq<Item>, e: nat, k: nat, depth: nat)
    requires Searching(g, t, visited, queue, e, k, depth) && k > 0 && queue[0].0 in visited
    ensures Searching(g, t, visited, queue[1..], e, k - 1, depth)
  {
    var rest := queue[1..];
    assert rest + [] == rest;
    forall x | x in Ball(g, t, e)
      ensures x in visited || WaitingFor(rest, k - 1, x)
    {
      WaitingBehind(queue, [], k, x);
    }
    forall x | x in visited
      ensures Handled(g, visited, rest, x)
    {
      assert Handled(g, visited, queue, x);
      forall y | y in Out(g, x)
        ensures y in visited || WaitingFor(rest, |rest|, y)
      {
        WaitingBehind(queue, [], k, y);
      }
    }
  }

  /** The new entries are the successors of `x` that were not met yet, one level deeper. */
  ghost predicate Successors(g: Graph, visited: set<Hash>, x: Hash, e: nat, more: seq<Item>) {
    && (forall i :: 0 <= i < |more| ==> more[i].0 in Out(g, x) && more[i].1 == e + 1)
    && (forall y :: y in Out(g, x) ==> y in visited || WaitingFor(more, |more|, y))
  }

  lemma Visit(g: Graph, t: Hash, visited: set<Hash>, queue: seq<Item>, e: nat, k: nat, depth: nat, more: seq<Item>)
    requires Searching(g, t, visited, queue, e, k, depth) && k > 0 && queue[0].0 !in visited
    requires Successors(g, visited + {queue[0].0}, queue[0].0, e, more)
    ensures Searching(g, t, visited + {queue[0].0}, queue[1..] + more, e, k - 1, if e > depth then e else depth)
  {
    var current := queue[0].0;
    assert queue[0].1 == e && current in Ball(g, t, e);
    VisitQueue(g, t, queue, e, k, more);
    VisitMet(g, t, visited, queue, e, k, more);
    if e > depth {
      MoreDepth(g, t, visited, current, e, depth);
    } else {
      SameDepth(g, t, visited, current, depth);
    }
  }

  lemma SameDepth(g: Graph, t: Hash, visited: set<Hash>, current: Hash, depth: nat)
    requires IsReachDepth(g, t, visited, depth) && current in Ball(g, t, depth)
    ensures IsReachDepth(g, t, visited + {current}, depth)
  {
    if depth > 0 {
      LeavesOutMore(Ball(g, t, depth - 1), visited, current);
    }
  }

  lemma MoreDepth(g: Graph, t: Hash, visited: set<Hash>, current: Hash, e: nat, depth: nat)
    requires visited <= Ball(g, t, depth) && depth < e && current in Ball(g, t, e) && current !in visited
    requires Ball(g, t, e - 1) <= visited
    ensures IsReachDepth(g, t, visited + {current}, e)
  {
    BallGrows(g, t, depth, e);
    LeavesOutMore(Ball(g, t, e - 1), visited, current);
  }

  lemma VisitQueue(g: Graph, t: Hash, queue: seq<Item>, e: nat, k: nat, more: seq<Item>)
    requires QueueInOrder(g, t, queue, e, k) && k > 0
    requires forall i :: 0 <= i < |more| ==> more[i].0 in Out(g, queue[0].0) && more[i].1 == e + 1
    ensures QueueInOrder(g, t, queue[1..] + more, e, k - 1)
  {
    var rest := queue[1..] + more;
    forall i | 0 <= i < |rest|
      ensures rest[i].1 == (if i < k - 1 then e else e + 1) && rest[i].0 in Ball(g, t, rest[i].1)
    {
      if i < |queue| - 1 {
        assert rest[i] == queue[i + 1];
      } else {
        assert rest[i] == more[i - (|queue| - 1)];
        assert queue[0].0 in Ball(g, t, e);
      }
    }
  }

  lemma VisitMet(g: Graph, t: Hash, visited: set<Hash>, queue: seq<Item>, e: nat, k: nat, more: seq<Item>)
    requires QueueInOrder(g, t, queue, e, k) && Met(g, t, visited, queue, e, k) && k > 0
    requires Successors(g, visited + {queue[0].0}, queue[0].0, e, more)
    ensures Met(g, t, visited + {queue[0].0}, queue[1..] + more, e, k - 1)
  {
    var current, rest := queue[0].0, queue[1..] + more;
    forall x | x in Ball(g, t, e)
      ensures x in visited + {current} || WaitingFor(rest, k - 1, x)
    {
      WaitingBehind(queue, more, k, x);
    }
    forall x | x in visited + {current}
      ensures Handled(g, visited + {current}, rest, x)
    {
      if x in visited {
        HandledStays(g, visited, queue, more, x);
      } else {
        HandledNow(g, visited + {current}, queue, e, more);
      }
    }
  }

  lemma HandledStays(g: Graph, visited: set<Hash>, queue: seq<Item>, more: seq<Item>, x: Hash)
    requires queue != [] && Handled(g, visited, queue, x)
    ensures Handled(g, visited + {queue[0].0}, queue[1..] + more, x)
  {
    forall y | y in Out(g, x)
      ensures y in visited + {queue[0].0} || WaitingFor(queue[1..] + more, |queue[1..] + more|, y)
    {
      WaitingBehind(queue, more, 0, y);
    }
  }

  lemma HandledNow(g: Graph, visited: set<Hash>, queue: seq<Item>, e: nat, more: seq<Item>)
    requires queue != [] && Successors(g, visited, queue[0].0, e, more)
    ensures Handled(g, visited, queue[1..] + more, queue[0].0)
  {
    var rest := queue[1..] + more;
    forall y | y in Out(g, queue[0].0)
      ensures y in visited || WaitingFor(rest, |rest|, y)
    {
      if i :| 0 <= i < |more| && more[i].0 == y {
        assert rest[|queue| - 1 + i].0 == y;
      }
    }
  }

  /** With an empty queue exactly what is reachable was met. */
  lemma SearchEnds(g: Graph, t: Hash, visited: set<Hash>, e: nat, k: nat, depth: nat)
    requires Searching(g, t, visited, [], e, k, depth)
    ensures forall x :: x in visited <==> Reach(g, t, x)
  {
    BallGrows(g, t, 0, e);
    assert forall x :: !WaitingFor([], k, x) && !WaitingFor([], 0, x);
    assert Closed(g, visited) by {
      forall x | x in visited
        ensures Out(g, x) <= visited
      {
        assert Handled(g, visited, [], x);
      }
    }
    forall x
      ensures x in visited <==> Reach(g, t, x)
    {
      if x in visited {
        BallReaches(g, t, x, depth);
      }
      if Reach(g, t, x) {
        ClosedReach(g, visited, t, x);
      }
    }
  }

  lemma SearchStaysIn(g: Graph, t: Hash, visited: set<Hash>, queue: seq<Item>, e: nat, k: nat, depth: nat, universe: set<Hash>)
    requires Searching(g, t, visited, queue, e, k, depth) && Closed(g, universe) && t in universe
    ensures visited <= universe && (queue != [] ==> queue[0].0 in universe)
  {
    forall x | x in visited
      ensures x in universe
    {
      BallReaches(g, t, x, depth);
      ClosedReach(g, universe, t, x);
    }
    if queue != [] {
      BallReaches(g, t, queue[0].0, queue[0].1);
      ClosedReach(g, universe, t, queue[0].0);
    }
  }

  /** Before an entry is taken: the front is not empty, and nothing left the universe. */
  lemma ToFront(g: Graph, t: Hash, visited: set<Hash>, queue: seq<Item>, e: nat, k: nat, depth: nat, universe: set<Hash>)
    returns (e1: nat, k1: nat)
    requires Searching(g, t, visited, queue, e, k, depth) && queue != [] && Closed(g, universe) && t in universe
    ensures Searching(g, t, visited, queue, e1, k1, depth) && k1 > 0 && queue[0].0 in universe
  {
    SearchStaysIn(g, t, visited, queue, e, k, depth, universe);
    e1, k1 := e, k;
    if k == 0 {
      NextLevel(g, t, visited, queue, e, depth);
      e1, k1 := e + 1, |queue|;
    }
  }

  /** Where everything reachable is one edge away the depth is at most one. */
  lemma ShallowDepth(g: Graph, t: Hash, visited: set<Hash>, depth: nat)
    requires IsReachDepth(g, t, visited, depth) && visited <= {t} + Out(g, t)
    ensures depth <= 1
  {
    if depth > 1 {
      BallGrows(g, t, 1, depth - 1);
      forall x | x in visited
        ensures x in Ball(g, t, 1)
      {
        assert t in Ball(g, t, 0);
      }
    }
  }
}
