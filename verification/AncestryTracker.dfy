/**
 The ancestry tracker: ancestors and descendants of every registered transaction kept up to date incrementally, the
 cascade that invalidates a transaction with all descendants, and the list of ready transactions.
 */
module AncestryTracker {
  import opened Basics
  import opened Graphs
  import opened Ledger
  import opened DependencyManager
  import opened BreadthFirst
  import Kahn

  datatype Status = Ready | Unresolved | Invalid

  /** `allAncestors` is the ancestry found at registration; nothing updates it later. */
  datatype Validation = Validation(status: Status, directParents: set<Hash>, allAncestors: set<Hash>, depth: nat,
                                   missing: nat, invalid: nat)

  datatype Outcome = Tracked(v: Validation) | StorageFailed | TooDeep | CycleDetected | TooLarge

  type Validations = map<Hash, Validation>

  function Depths(vs: Validations): map<Hash, nat> {
    map t | t in vs :: vs[t].depth
  }

  function InvalidAmong(vs: Validations, s: set<Hash>): set<Hash> {
    set a | a in s && a in vs && vs[a].status == Invalid
  }

  /** The verdict on a new transaction from the verdicts on its ancestors. */
  ghost predicate Assessed(vs: Validations, ancestors: set<Hash>, v: Validation) {
    && v.missing == |ancestors - vs.Keys| && v.invalid == |InvalidAmong(vs, ancestors)|
    && v.depth > 0 && IsMaxDepth(ancestors, Depths(vs), v.depth - 1)
    && v.status == (if v.invalid > 0 then Invalid else if v.missing > 0 then Unresolved else Ready)
  }

  ghost predicate NewValidation(vs: Validations, parents: set<Hash>, ancestors: set<Hash>, v: Validation) {
    v.directParents == parents && v.allAncestors == ancestors && Assessed(vs, ancestors, v)
  }

  /** `descendants` is the inverse of `ancestors`. */
  ghost predicate Inverse(ancestors: Graph, descendants: Graph) {
    forall a: Hash, d: Hash :: d in Out(descendants, a) <==> a in Out(ancestors, d)
  }

  // ----- what the recursive construction finds -----

  /** Recorded parents of transactions whose registration did not succeed. */
  function Unregistered(immediate: Graph, vs: Validations): Graph {
    map p | p in immediate && p !in vs :: immediate[p]
  }

  ghost predicate FromParents(h: Graph, parents: set<Hash>, v: Hash) {
    exists p :: p in parents && Reach(h, p, v)
  }

  ghost predicate IsFound(h: Graph, parents: set<Hash>, found: set<Hash>) {
    forall v :: v in found <==> FromParents(h, parents, v)
  }

  /** The nodes themselves and the recorded ancestries of the registered ones among them. */
  ghost function Contribution(vs: Validations, s: set<Hash>): set<Hash> {
    s + set v, x | v in s && x in Recorded(vs, v) :: x
  }

  function Recorded(vs: Validations, v: Hash): set<Hash> {
    if v in vs then vs[v].allAncestors else {}
  }

  ghost predicate IsBuilt(vs: Validations, h: Graph, parents: set<Hash>, built: set<Hash>) {
    exists found: set<Hash> :: IsFound(h, parents, found) && built == Contribution(vs, found)
  }

  /** The recursion limit is only hit on a chain of that many unregistered transactions. */
  ghost predicate LongTrail(h: Graph, parents: set<Hash>, limit: nat) {
    exists trail :: IsPath(h, trail) && trail[0] in parents && trail[|trail| - 1] in h && |trail| > limit
  }

  /** What an outcome says about the ancestry that was built. */
  ghost predicate Judged(r: Outcome, t: Hash, built: set<Hash>, vs: Validations, immediate: Graph, parents: set<Hash>,
                         maxDepth: nat, maxSize: nat) {
    if r == TooDeep then
      LongTrail(Unregistered(immediate, vs), parents, maxDepth)
    else
      && IsBuilt(vs, Unregistered(immediate, vs), parents, built)
      && (r == CycleDetected <==> t in built)
      && (r == TooLarge <==> t !in built && |built| > maxSize)
      && (r.Tracked? <==> t !in built && |built| <= maxSize)
  }

  class Tracker {
    const maxRecursionDepth: nat
    const maxAncestrySize: nat
    var ancestors: Graph
    var descendants: Graph
    var immediateParents: Graph
    var immediateChildren: Graph
    var validations: Validations
    var invalidTransactions: set<Hash>

    ghost predicate Valid()
      reads this
    {
      && Inverse(ancestors, descendants)
      && ancestors.Keys == validations.Keys
      && forall t :: t in ancestors ==> t !in Out(ancestors, t) && Out(ancestors, t) <= validations[t].allAncestors
    }

    constructor (maxRecursionDepth: nat, maxAncestrySize: nat)
      ensures Valid() && validations == map[] && immediateParents == map[]
      ensures ParentsCameFirst(validations) && NothingRemoved(validations, ancestors)
      ensures this.maxRecursionDepth == maxRecursionDepth && this.maxAncestrySize == maxAncestrySize
    {
      this.maxRecursionDepth, this.maxAncestrySize := maxRecursionDepth, maxAncestrySize;
      ancestors, descendants, immediateParents, immediateChildren := map[], map[], map[], map[];
      validations, invalidTransactions := map[], {};
    }

    // ----- registration -----

    method RegisterTransaction(t: Hash, inputs: seq<OutPoint>, store: Store) returns (r: Outcome, ghost built: set<Hash>)
      requires Valid()
      modifies this
      ensures Valid()
      ensures t in old(validations) ==> unchanged(this) && r == Tracked(validations[t])
      ensures r == StorageFailed <==> t !in old(validations) && StoreFails(store, inputs)
      ensures r == StorageFailed ==> unchanged(this)
      ensures !r.Tracked? ==> unchanged(`ancestors, `descendants, `immediateChildren, `validations, `invalidTransactions)
      ensures t !in old(validations) && r != StorageFailed ==>
                && immediateParents == old(immediateParents)[t := MempoolParents(store, inputs)]
                && Judged(r, t, built, old(validations), immediateParents, MempoolParents(store, inputs), maxRecursionDepth, maxAncestrySize)
      ensures t !in old(validations) && r.Tracked? ==>
                && NewValidation(old(validations), MempoolParents(store, inputs), built, r.v)
                && validations == old(validations)[t := r.v] && ancestors == old(ancestors)[t := built]
                && ChildAdded(old(immediateChildren), MempoolParents(store, inputs), t, immediateChildren)
                && invalidTransactions == old(invalidTransactions)
      ensures old(ParentsCameFirst(validations)) && MempoolParents(store, inputs) <= old(validations.Keys) ==>
                r != TooDeep && r != CycleDetected && ParentsCameFirst(validations)
      ensures old(NothingRemoved(validations, ancestors)) ==> NothingRemoved(validations, ancestors)
    {
      built := {};
      if t in validations {
        r := Tracked(validations[t]);
      } else {
        var failed, parents := FindParents(inputs, store);
        if failed {
          r := StorageFailed;
        } else {
          r, built := RegisterNew(t, parents);
        }
      }
    }

    method RegisterNew(t: Hash, parents: set<Hash>) returns (r: Outcome, ghost built: set<Hash>)
      requires Valid() && t !in validations
      modifies `ancestors, `descendants, `immediateParents, `immediateChildren, `validations
      ensures Valid() && immediateParents == old(immediateParents)[t := parents]
      ensures Judged(r, t, built, old(validations), immediateParents, parents, maxRecursionDepth, maxAncestrySize)
      ensures !r.Tracked? ==> unchanged(`ancestors, `descendants, `immediateChildren, `validations) && r != StorageFailed
      ensures r.Tracked? ==>
                && NewValidation(old(validations), parents, built, r.v)
                && validations == old(validations)[t := r.v] && ancestors == old(ancestors)[t := built]
                && ChildAdded(old(immediateChildren), parents, t, immediateChildren)
      ensures old(ParentsCameFirst(validations)) && parents <= old(validations.Keys) ==>
                r != TooDeep && r != CycleDetected && ParentsCameFirst(validations)
      ensures old(NothingRemoved(validations, ancestors)) ==> NothingRemoved(validations, ancestors)
    {
      ghost var vs := validations;
      immediateParents := immediateParents[t := parents];
      var tooDeep, all := FindAncestors(parents);
      built := all;
      if tooDeep {
        r := TooDeep;
      } else if t in all {
        r := CycleDetected;
      } else {
        r := Accept(t, parents, all);
      }
      RegisteredParentsFirst(vs, immediateParents, t, parents, r, built, maxRecursionDepth, maxAncestrySize);
    }

    method Accept(t: Hash, parents: set<Hash>, all: set<Hash>) returns (r: Outcome)
      requires Valid() && t !in validations && t !in all
      modifies `ancestors, `descendants, `immediateChildren, `validations
      ensures Valid()
      ensures if |all| > maxAncestrySize then r == TooLarge && unchanged(this) else
                && r.Tracked? && NewValidation(old(validations), parents, all, r.v)
                && validations == old(validations)[t := r.v] && ancestors == old(ancestors)[t := all]
                && ChildAdded(old(immediateChildren), parents, t, immediateChildren)
      ensures old(NothingRemoved(validations, ancestors)) ==> NothingRemoved(validations, ancestors)
    {
      var v := Validate(parents, all);
      if |all| > maxAncestrySize {
        r := TooLarge;
      } else {
        Store(t, parents, all, v);
        r := Tracked(v);
      }
    }

    method Store(t: Hash, parents: set<Hash>, all: set<Hash>, v: Validation)
      requires Valid() && t !in validations && t !in all && v.allAncestors == all
      modifies `ancestors, `descendants, `immediateChildren, `validations
      ensures Valid() && validations == old(validations)[t := v] && ancestors == old(ancestors)[t := all]
      ensures ChildAdded(old(descendants), all, t, descendants)
      ensures ChildAdded(old(immediateChildren), parents, t, immediateChildren)
      ensures old(NothingRemoved(validations, ancestors)) ==> NothingRemoved(validations, ancestors)
    {
      ancestors := ancestors[t := all];
      ghost var descendants0 := descendants;
      descendants := AddUnder(descendants, all, t);
      immediateChildren := AddUnder(immediateChildren, parents, t);
      validations := validations[t := v];
      InverseAdded(old(ancestors), descendants0, t, all, descendants);
    }

    static method FindParents(inputs: seq<OutPoint>, store: Store) returns (failed: bool, parents: set<Hash>)
      ensures failed <==> StoreFails(store, inputs)
      ensures !failed ==> parents == MempoolParents(store, inputs)
    {
      parents := {};
      var i := 0;
      while i < |inputs|
        invariant 0 <= i <= |inputs| && forall o :: o in inputs[..i] ==> store(o).Some?
        invariant parents == MempoolParents(store, inputs[..i])
      {
        var o := inputs[i];
        assert inputs[..i + 1] == inputs[..i] + [o];
        match store(o) {
          case None =>
            return true, {};
          case Some(onChain) =>
            assert MempoolParents(store, inputs[..i + 1]) == parents + if onChain then {} else {o.0};
            if !onChain {
              parents := parents + {o.0};
            }
        }
        i := i + 1;
      }
      assert inputs[..i] == inputs;
      return false, parents;
    }

    method FindAncestors(parents: set<Hash>) returns (tooDeep: bool, all: set<Hash>)
      ensures tooDeep ==> LongTrail(Unregistered(immediateParents, validations), parents, maxRecursionDepth)
      ensures !tooDeep ==> IsBuilt(validations, Unregistered(immediateParents, validations), parents, all)
    {
      ghost var h := Unregistered(immediateParents, validations);
      ghost var universe := Nodes(h) + parents;
      NodesClosed(h, universe);
      var visited;
      tooDeep, all, visited := BuildAncestors(parents, 0, {}, [], parents, universe);
      if !tooDeep {
        assert visited - {} == visited;
        forall v
          ensures v in visited <==> FromParents(h, parents, v)
        {
          if p :| p in parents && Reach(h, p, v) {
            ClosedReach(h, visited, p, v);
          }
        }
        assert IsFound(h, parents, visited);
      }
    }

    /** The recursive walk; `trail` is the chain of transactions it went through. */
    method BuildAncestors(immediate: set<Hash>, depth: nat, visited: set<Hash>,
                          ghost trail: seq<Hash>, ghost root: set<Hash>, ghost universe: set<Hash>)
      returns (tooDeep: bool, all: set<Hash>, visited1: set<Hash>)
      requires var h := Unregistered(immediateParents, validations); Closed(h, universe) && OnTrail(h, root, trail, immediate)
      requires |trail| == depth && immediate <= universe && visited <= universe
      ensures tooDeep ==> LongTrail(Unregistered(immediateParents, validations), root, maxRecursionDepth)
      ensures !tooDeep ==> Walked(Unregistered(immediateParents, validations), validations, immediate, visited, visited1, all)
      ensures !tooDeep ==> immediate <= visited1 <= universe
      decreases universe - visited
    {
      ghost var h := Unregistered(immediateParents, validations);
      if depth > maxRecursionDepth {
        return true, {}, visited;
      }
      tooDeep, all, visited1 := false, {}, visited;
      var pending := immediate;
      while pending != {}
        invariant !tooDeep && pending <= immediate <= pending + visited1 && visited1 <= universe
        invariant Walked(h, validations, immediate, visited, visited1, all)
        decreases pending
      {
        var p :| p in pending;
        if p !in visited1 {
          ghost var visited0, all0 := visited1, all;
          visited1 := visited1 + {p};
          all := all + {p};
          if p in validations {
            all := all + validations[p].allAncestors;
            WalkedRegistered(h, validations, immediate, visited, visited0, all0, p);
          } else if p in immediateParents {
            var sub;
            ghost var entered := visited1;
            ExtendTrail(h, root, trail, immediate, p);
            tooDeep, sub, visited1 := BuildAncestors(immediateParents[p], depth + 1, visited1, trail + [p], root, universe);
            if tooDeep {
              return;
            }
            WalkedDeeper(h, validations, immediate, visited, visited0, all0, p, visited1, sub);
            all := all + sub;
          } else {
            WalkedLeaf(h, validations, immediate, visited, visited0, all0, p);
          }
        }
        pending := pending - {p};
      }
    }

    method Validate(parents: set<Hash>, all: set<Hash>) returns (v: Validation)
      ensures NewValidation(validations, parents, all, v)
    {
      var missing, invalid, deepest := 0, 0, 0;
      var pending := all;
      ghost var done: set<Hash> := {};
      while pending != {}
        invariant pending <= all && done == all - pending
        invariant missing == |done - validations.Keys| && invalid == |InvalidAmong(validations, done)|
        invariant IsMaxDepth(done, Depths(validations), deepest)
        decreases pending
      {
        var a :| a in pending;
        MaxWithOne(done, Depths(validations), deepest, a);
        CountOneMore(validations, done, a);
        if a in validations {
          if validations[a].status == Invalid {
            invalid := invalid + 1;
          }
          if validations[a].depth > deepest {
            deepest := validations[a].depth;
          }
        } else {
          missing := missing + 1;
        }
        Remaining(all, pending, a);
        done := done + {a};
        pending := pending - {a};
      }
      var status := if invalid > 0 then Invalid else if missing > 0 then Unresolved else Ready;
      v := Validation(status, parents, all, deepest + 1, missing, invalid);
    }

    // ----- cascade -----

    method CascadeInvalidate(t: Hash) returns (invalidated: seq<Hash>, depth: nat)
      requires Valid()
      modifies `validations, `invalidTransactions
      ensures Valid()
      ensures NoDup(invalidated) && forall x :: x in Elems(invalidated) <==> Reach(descendants, t, x)
      ensures IsReachDepth(descendants, t, Elems(invalidated), depth)
      ensures invalidTransactions == old(invalidTransactions) + Elems(invalidated)
      ensures validations == Marked(old(validations), Elems(invalidated))
      ensures forall x :: x in validations ==>
                            validations[x].status == if x in invalidated then Invalid else old(validations)[x].status
      ensures old(Complete(validations) && NothingRemoved(validations, ancestors)) ==>
                && (forall x :: x in Elems(invalidated) <==>
                                  x == t || (x in validations && ReachPlus(old(DirectGraph(validations)), x, t)))
                && depth <= 1
      ensures old(ParentsCameFirst(validations)) ==> ParentsCameFirst(validations)
      ensures old(NothingRemoved(validations, ancestors)) ==> NothingRemoved(validations, ancestors)
    {
      invalidated, depth := Affected(t);
      MarkInvalid(invalidated);
      MarkedKeeps(old(validations), ancestors, Elems(invalidated));
      if old(Complete(validations) && NothingRemoved(validations, ancestors)) {
        CascadeReaches(old(validations), ancestors, descendants, t, Elems(invalidated));
        ShallowDepth(descendants, t, Elems(invalidated), depth);
      }
    }

    method MarkInvalid(invalidated: seq<Hash>)
      modifies `validations, `invalidTransactions
      ensures invalidTransactions == old(invalidTransactions) + Elems(invalidated)
      ensures validations == Marked(old(validations), Elems(invalidated))
    {
      var i := 0;
      assert Marked(validations, Elems(invalidated[..0])) == validations;
      while i < |invalidated|
        invariant 0 <= i <= |invalidated|
        invariant invalidTransactions == old(invalidTransactions) + Elems(invalidated[..i])
        invariant validations == Marked(old(validations), Elems(invalidated[..i]))
      {
        var x := invalidated[i];
        ElemsPrefix(invalidated, i);
        invalidTransactions := invalidTransactions + {x};
        if x in validations {
          validations := validations[x := validations[x].(status := Invalid)];
        }
        i := i + 1;
      }
      assert invalidated[..i] == invalidated;
    }

    /** Breadth first; `depth` is the largest distance from the start. */
    method Affected(t: Hash) returns (affected: seq<Hash>, depth: nat)
      ensures NoDup(affected) && forall x :: x in Elems(affected) <==> Reach(descendants, t, x)
      ensures IsReachDepth(descendants, t, Elems(affected), depth)
    {
      ghost var universe := Nodes(descendants) + {t};
      NodesClosed(descendants, universe);
      affected, depth := [], 0;
      var visited: set<Hash> := {};
      var queue := [(t, 0)];
      ghost var e: nat, k: nat := 0, 1;
      SearchStarts(descendants, t);
      while queue != []
        invariant NoDup(affected) && visited == Elems(affected) && visited <= universe
        invariant Searching(descendants, t, visited, queue, e, k, depth)
        decreases universe - visited, |queue|
      {
        e, k := ToFront(descendants, t, visited, queue, e, k, depth, universe);
        affected, visited, queue, depth := MeetNext(t, affected, visited, queue, depth, e, k);
        k := k - 1;
      }
      SearchEnds(descendants, t, visited, e, k, depth);
    }

    method MeetNext(ghost t: Hash, affected: seq<Hash>, visited: set<Hash>, queue: seq<Item>, depth: nat, ghost e: nat, ghost k: nat)
      returns (affected1: seq<Hash>, visited1: set<Hash>, queue1: seq<Item>, depth1: nat)
      requires Searching(descendants, t, visited, queue, e, k, depth) && k > 0
      requires NoDup(affected) && visited == Elems(affected)
      ensures Searching(descendants, t, visited1, queue1, e, k - 1, depth1)
      ensures NoDup(affected1) && visited1 == Elems(affected1) && visited1 == visited + {queue[0].0}
      ensures queue[0].0 in visited ==> |queue1| < |queue|
    {
      var (current, currentDepth) := queue[0];
      affected1, visited1, depth1 := affected, visited, depth;
      if current in visited {
        PassOver(descendants, t, visited, queue, e, k, depth);
        queue1 := queue[1..];
      } else {
        NoDupAppend(affected, current);
        var more := Unmet(current, currentDepth, visited + {current});
        Visit(descendants, t, visited, queue, e, k, depth, more);
        visited1 := visited + {current};
        affected1 := affected + [current];
        depth1 := if currentDepth > depth then currentDepth else depth;
        queue1 := queue[1..] + more;
      }
    }

    method Unmet(current: Hash, depth: nat, visited: set<Hash>) returns (more: seq<Item>)
      ensures Successors(descendants, visited, current, depth, more)
    {
      more := [];
      var pending := Out(descendants, current);
      while pending != {}
        invariant forall i :: 0 <= i < |more| ==> more[i].0 in Out(descendants, current) && more[i].1 == depth + 1
        invariant pending <= Out(descendants, current)
        invariant forall y :: y in Out(descendants, current) ==> y in pending || y in visited || WaitingFor(more, |more|, y)
        decreases pending
      {
        var d :| d in pending;
        if d !in visited {
          WaitingMore(more, (d, depth + 1));
          more := more + [(d, depth + 1)];
        }
        pending := pending - {d};
      }
    }

    // ----- removal -----

    /** The child sets of the immediate parents keep the removed transaction: its own parent entry is gone by then. */
    method RemoveTransaction(t: Hash)
      requires Valid()
      modifies this
      ensures Valid()
      ensures validations == old(validations) - {t} && invalidTransactions == old(invalidTransactions) - {t}
      ensures immediateParents == old(immediateParents) - {t} && immediateChildren == old(immediateChildren) - {t}
      ensures ancestors.Keys == old(ancestors.Keys) - {t}
      ensures forall x :: x != t ==> Out(ancestors, x) == Out(old(ancestors), x) - {t}
      ensures forall x :: x != t ==> Out(descendants, x) == Out(old(descendants), x) - {t}
      ensures Out(ancestors, t) == {} && Out(descendants, t) == {}
    {
      Unlink(t);
      immediateParents := immediateParents - {t};
      immediateChildren := immediateChildren - {t};
      validations := validations - {t};
      invalidTransactions := invalidTransactions - {t};
    }

    method Unlink(t: Hash)
      requires Inverse(ancestors, descendants)
      modifies `ancestors, `descendants
      ensures Inverse(ancestors, descendants) && ancestors.Keys == old(ancestors.Keys) - {t}
      ensures forall x :: x != t ==> Out(ancestors, x) == Out(old(ancestors), x) - {t}
      ensures forall x :: x != t ==> Out(descendants, x) == Out(old(descendants), x) - {t}
      ensures Out(ancestors, t) == {} && Out(descendants, t) == {}
    {
      var above := Out(ancestors, t);
      var below := Out(descendants, t);
      ghost var ancestors0, descendants0 := ancestors, descendants;
      ancestors := ancestors - {t};
      descendants := descendants - {t};
      descendants := DropUnder(descendants, above, t);
      ancestors := DropUnder(ancestors, below, t);
      DroppedEverywhere(ancestors0, descendants0, t, ancestors, descendants);
    }

    // ----- ready transactions -----

    /** `validated` is the set of transactions the manager's cache holds as validated. */
    method GetReadyTransactions(validated: set<Hash>) returns (ready: seq<Hash>)
      ensures NoDup(ready)
      ensures forall t :: t in Elems(ready) <==> t in validated && t in validations && validations[t].status == Ready
      ensures SortedByDepth(validations, ready)
      ensures DepthAbove(validations) ==> AncestorsBefore(validations, ready)
    {
      ready := [];
      var pending := validated;
      while pending != {}
        invariant pending <= validated && NoDup(ready) && SortedByDepth(validations, ready)
        invariant forall t :: t in Elems(ready) <==> t in validated - pending && t in validations && validations[t].status == Ready
        decreases pending
      {
        var t :| t in pending;
        if t in validations && validations[t].status == Ready {
          var j := |ready|;
          while j > 0 && validations[ready[j - 1]].depth > validations[t].depth
            invariant 0 <= j <= |ready|
            invariant forall k :: j <= k < |ready| ==> validations[ready[k]].depth > validations[t].depth
          {
            j := j - 1;
          }
          InsertByDepth(validations, ready, t, j);
          ready := ready[..j] + [t] + ready[j..];
        }
        pending := pending - {t};
      }
      if DepthAbove(validations) {
        ReadyIsTopological(validations, ready);
      }
    }
  }

  // ----- index updates -----

  method AddUnder(index: Graph, keys: set<Hash>, t: Hash) returns (index1: Graph)
    ensures ChildAdded(index, keys, t, index1)
  {
    index1 := index;
    var pending := keys;
    while pending != {}
      invariant pending <= keys && ChildAdded(index, keys - pending, t, index1)
      decreases pending
    {
      var k :| k in pending;
      index1 := index1[k := Out(index1, k) + {t}];
      pending := pending - {k};
    }
  }

  method DropUnder(index: Graph, keys: set<Hash>, t: Hash) returns (index1: Graph)
    ensures index1.Keys == index.Keys
    ensures forall x :: Out(index1, x) == if x in keys then Out(index, x) - {t} else Out(index, x)
  {
    index1 := index;
    var pending := keys;
    while pending != {}
      invariant pending <= keys && index1.Keys == index.Keys
      invariant forall x :: Out(index1, x) == if x in keys - pending then Out(index, x) - {t} else Out(index, x)
      decreases pending
    {
      var k :| k in pending;
      if k in index1 {
        index1 := index1[k := index1[k] - {t}];
      }
      pending := pending - {k};
    }
  }

  lemma InverseAdded(ancestors: Graph, descendants: Graph, t: Hash, all: set<Hash>, descendants1: Graph)
    requires Inverse(ancestors, descendants) && t !in ancestors && ChildAdded(descendants, all, t, descendants1)
    ensures Inverse(ancestors[t := all], descendants1)
  {
    forall a: Hash, d: Hash
      ensures d in Out(descendants1, a) <==> a in Out(ancestors[t := all], d)
    {
      assert d in Out(descendants, a) <==> a in Out(ancestors, d);
    }
  }

  lemma DroppedEverywhere(ancestors: Graph, descendants: Graph, t: Hash, ancestors1: Graph, descendants1: Graph)
    requires Inverse(ancestors, descendants)
    requires forall x :: Out(descendants1, x) ==
                         if x in Out(ancestors, t) then Out(descendants - {t}, x) - {t} else Out(descendants - {t}, x)
    requires forall x :: Out(ancestors1, x) ==
                         if x in Out(descendants, t) then Out(ancestors - {t}, x) - {t} else Out(ancestors - {t}, x)
    ensures Inverse(ancestors1, descendants1)
    ensures forall x :: x != t ==> Out(ancestors1, x) == Out(ancestors, x) - {t}
    ensures forall x :: x != t ==> Out(descendants1, x) == Out(descendants, x) - {t}
    ensures Out(ancestors1, t) == {} && Out(descendants1, t) == {}
  {
    forall x | x != t
      ensures Out(ancestors1, x) == Out(ancestors, x) - {t}
      ensures Out(descendants1, x) == Out(descendants, x) - {t}
    {
      DroppedAt(ancestors, descendants, t, x);
    }
  }

  lemma DroppedAt(ancestors: Graph, descendants: Graph, t: Hash, x: Hash)
    requires Inverse(ancestors, descendants) && x != t
    ensures Out(ancestors - {t}, x) == Out(ancestors, x) && Out(descendants - {t}, x) == Out(descendants, x)
    ensures x !in Out(descendants, t) ==> Out(ancestors, x) - {t} == Out(ancestors, x)
    ensures x !in Out(ancestors, t) ==> Out(descendants, x) - {t} == Out(descendants, x)
  {
    assert x in Out(descendants, t) <==> t in Out(ancestors, x);
    assert t in Out(descendants, x) <==> x in Out(ancestors, t);
  }

  function Marked(vs: Validations, s: set<Hash>): Validations {
    map t | t in vs :: if t in s then vs[t].(status := Invalid) else vs[t]
  }

  // ----- the walk -----

  ghost predicate OnTrail(h: Graph, root: set<Hash>, trail: seq<Hash>, immediate: set<Hash>) {
    if trail == [] then immediate == root
    else IsPath(h, trail) && trail[0] in root && trail[|trail| - 1] in h && immediate == h[trail[|trail| - 1]]
  }

  lemma ExtendTrail(h: Graph, root: set<Hash>, trail: seq<Hash>, immediate: set<Hash>, p: Hash)
    requires OnTrail(h, root, trail, immediate) && p in immediate && p in h
    ensures OnTrail(h, root, trail + [p], h[p])
  {
    if trail != [] {
      PathJoin(h, trail, [p]);
    }
  }

  /** What a call added to the visited set, and what it returns. */
  ghost predicate Walked(h: Graph, vs: Validations, immediate: set<Hash>, visited: set<Hash>, visited1: set<Hash>, all: set<Hash>) {
    && visited <= visited1 && all == Contribution(vs, visited1 - visited)
    && forall x :: x in visited1 - visited ==> Out(h, x) <= visited1 && FromParents(h, immediate, x)
  }

  lemma ContributionUnion(vs: Validations, a: set<Hash>, b: set<Hash>)
    ensures Contribution(vs, a + b) == Contribution(vs, a) + Contribution(vs, b)
  {
  }

  lemma ContributionOne(vs: Validations, p: Hash)
    ensures Contribution(vs, {p}) == {p} + Recorded(vs, p)
  {
    forall x | x in Recorded(vs, p)
      ensures x in Contribution(vs, {p})
    {
      assert p in {p} && x in Recorded(vs, p);
    }
  }

  lemma WalkedLeaf(h: Graph, vs: Validations, immediate: set<Hash>, visited: set<Hash>, visited1: set<Hash>, all: set<Hash>, p: Hash)
    requires Walked(h, vs, immediate, visited, visited1, all) && p in immediate && p !in visited1 && p !in vs && p !in h
    ensures Walked(h, vs, immediate, visited, visited1 + {p}, all + {p})
  {
    assert visited1 + {p} - visited == (visited1 - visited) + {p};
    ContributionUnion(vs, visited1 - visited, {p});
    ContributionOne(vs, p);
    ReachRefl(h, p);
  }

  lemma WalkedRegistered(h: Graph, vs: Validations, immediate: set<Hash>, visited: set<Hash>, visited1: set<Hash>, all: set<Hash>, p: Hash)
    requires Walked(h, vs, immediate, visited, visited1, all) && p in immediate && p !in visited1 && p in vs && p !in h
    ensures Walked(h, vs, immediate, visited, visited1 + {p}, all + {p} + vs[p].allAncestors)
  {
    assert visited1 + {p} - visited == (visited1 - visited) + {p};
    ContributionUnion(vs, visited1 - visited, {p});
    ContributionOne(vs, p);
    ReachRefl(h, p);
  }

  lemma WalkedDeeper(h: Graph, vs: Validations, immediate: set<Hash>, visited: set<Hash>, visited1: set<Hash>, all: set<Hash>, p: Hash,
                     visited2: set<Hash>, sub: set<Hash>)
    requires Walked(h, vs, immediate, visited, visited1, all) && p in immediate && p !in visited1 && p !in vs && p in h
    requires Walked(h, vs, h[p], visited1 + {p}, visited2, sub) && h[p] <= visited2
    ensures Walked(h, vs, immediate, visited, visited2, all + {p} + sub)
  {
    var more := visited2 - (visited1 + {p});
    assert visited2 - visited == (visited1 - visited) + {p} + more;
    ContributionUnion(vs, (visited1 - visited) + {p}, more);
    ContributionUnion(vs, visited1 - visited, {p});
    ContributionOne(vs, p);
    ReachRefl(h, p);
    forall x | x in more
      ensures FromParents(h, immediate, x)
    {
      var q :| q in h[p] && Reach(h, q, x);
      ReachEdge(h, p, q);
      ReachTrans(h, p, q, x);
    }
  }

  lemma CountOneMore(vs: Validations, done: set<Hash>, a: Hash)
    requires a !in done
    ensures |(done + {a}) - vs.Keys| == |done - vs.Keys| + (if a in vs then 0 else 1)
    ensures |InvalidAmong(vs, done + {a})| == |InvalidAmong(vs, done)| + (if a in vs && vs[a].status == Invalid then 1 else 0)
  {
    if a in vs {
      assert (done + {a}) - vs.Keys == done - vs.Keys;
    } else {
      assert (done + {a}) - vs.Keys == (done - vs.Keys) + {a};
    }
    if a in vs && vs[a].status == Invalid {
      assert InvalidAmong(vs, done + {a}) == InvalidAmong(vs, done) + {a};
    } else {
      assert InvalidAmong(vs, done + {a}) == InvalidAmong(vs, done);
    }
  }

  // ----- ready list -----

  ghost predicate SortedByDepth(vs: Validations, s: seq<Hash>) {
    (forall t :: t in s ==> t in vs) && forall i, j :: 0 <= i < j < |s| ==> vs[s[i]].depth <= vs[s[j]].depth
  }

  lemma InsertByDepth(vs: Validations, s: seq<Hash>, t: Hash, j: nat)
    requires SortedByDepth(vs, s) && NoDup(s) && t in vs && t !in Elems(s) && j <= |s|
    requires j > 0 ==> vs[s[j - 1]].depth <= vs[t].depth
    requires forall k :: j <= k < |s| ==> vs[s[k]].depth > vs[t].depth
    ensures SortedByDepth(vs, s[..j] + [t] + s[j..]) && NoDup(s[..j] + [t] + s[j..])
    ensures Elems(s[..j] + [t] + s[j..]) == Elems(s) + {t}
  {
    InsertAt(s, j, t);
    var r := s[..j] + [t] + s[j..];
    assert forall k :: 0 <= k < |r| ==> r[k] == if k < j then s[k] else if k == j then t else s[k - 1];
    forall x | x in r
      ensures x in vs
    {
      assert x in Elems(r);
    }
    SortedInsert(vs, s, t, j, r);
  }

  lemma SortedInsert(vs: Validations, s: seq<Hash>, t: Hash, j: nat, r: seq<Hash>)
    requires SortedByDepth(vs, s) && t in vs && j <= |s| && |r| == |s| + 1 && forall x :: x in r ==> x in vs
    requires forall k :: 0 <= k < |r| ==> r[k] == if k < j then s[k] else if k == j then t else s[k - 1]
    requires j > 0 ==> vs[s[j - 1]].depth <= vs[t].depth
    requires forall k :: j <= k < |s| ==> vs[s[k]].depth > vs[t].depth
    ensures SortedByDepth(vs, r)
  {
    forall a, b | 0 <= a < b < |r|
      ensures vs[r[a]].depth <= vs[r[b]].depth
    {
      if b < j {
        assert r[a] == s[a] && r[b] == s[b];
      } else if b == j {
        assert r[a] == s[a] && (a < j - 1 ==> vs[s[a]].depth <= vs[s[j - 1]].depth);
      } else if a < j {
        assert r[a] == s[a] && r[b] == s[b - 1];
      } else if a == j {
        assert r[b] == s[b - 1];
      } else {
        assert r[a] == s[a - 1] && r[b] == s[b - 1];
      }
    }
  }

  /** Every registered transaction is deeper than the registered ancestors found at its registration. */
  ghost predicate DepthAbove(vs: Validations) {
    forall t: Hash, a: Hash :: t in vs && a in vs && a in vs[t].allAncestors ==> vs[a].depth < vs[t].depth
  }

  ghost predicate AncestorsBefore(vs: Validations, s: seq<Hash>) {
    forall i, a :: 0 <= i < |s| && a in s && s[i] in vs && a in vs[s[i]].allAncestors ==> Kahn.Before(s, a, i)
  }

  /** A list by depth is a valid execution order when depths exceed those of ancestors. */
  lemma ReadyIsTopological(vs: Validations, ready: seq<Hash>)
    requires DepthAbove(vs) && SortedByDepth(vs, ready)
    ensures AncestorsBefore(vs, ready)
  {
    forall i, a | 0 <= i < |ready| && a in ready && a in vs[ready[i]].allAncestors
      ensures Kahn.Before(ready, a, i)
    {
      assert ready[i] in ready;
      var j :| 0 <= j < |ready| && ready[j] == a;
    }
  }

  ghost predicate DeeperThan(vs: Validations, s: set<Hash>, depth: nat) {
    forall a: Hash :: a in s && a in vs ==> vs[a].depth < depth
  }

  lemma AssessedDeeper(vs: Validations, s: set<Hash>, v: Validation)
    requires Assessed(vs, s, v)
    ensures DeeperThan(vs, s, v.depth)
  {
    forall a: Hash | a in s && a in vs
      ensures vs[a].depth < v.depth
    {
      assert a in Depths(vs) && Depths(vs)[a] <= v.depth - 1;
    }
  }

  /** A registration keeps the depth order exactly when the newcomer is shallower than everything that knew it before. */
  lemma DepthAboveKeptIff(vs: Validations, t: Hash, v: Validation)
    requires DepthAbove(vs) && t !in vs && t !in v.allAncestors && DeeperThan(vs, v.allAncestors, v.depth)
    ensures DepthAbove(vs[t := v]) <==> forall c: Hash :: c in vs && t in vs[c].allAncestors ==> v.depth < vs[c].depth
  {
    var vs1 := vs[t := v];
    if DepthAbove(vs1) {
      forall c: Hash | c in vs && t in vs[c].allAncestors
        ensures v.depth < vs[c].depth
      {
        assert c in vs1 && t in vs1 && t in vs1[c].allAncestors;
      }
    }
    if forall c: Hash :: c in vs && t in vs[c].allAncestors ==> v.depth < vs[c].depth {
      forall c: Hash, a: Hash | c in vs1 && a in vs1 && a in vs1[c].allAncestors
        ensures vs1[a].depth < vs1[c].depth
      {
      }
    }
  }

  // ----- the closure -----

  function DirectGraph(vs: Validations): Graph {
    map t | t in vs :: vs[t].directParents
  }

  /** The recorded ancestry is the full transitive closure of the direct parents. */
  ghost predicate ClosedAt(vs: Validations, t: Hash) {
    t in vs ==> forall x: Hash :: x in vs[t].allAncestors <==> ReachPlus(DirectGraph(vs), t, x)
  }

  ghost predicate Complete(vs: Validations) {
    forall t: Hash :: ClosedAt(vs, t)
  }

  /** With registered parents only, and complete ancestries, the construction finds exactly what the parents reach. */
  lemma BuiltIsClosure(vs: Validations, h: Graph, parents: set<Hash>, built: set<Hash>, x: Hash)
    requires Complete(vs) && parents <= vs.Keys && h.Keys !! vs.Keys && IsBuilt(vs, h, parents, built)
    ensures x in built <==> exists p :: p in parents && Reach(DirectGraph(vs), p, x)
  {
    var d := DirectGraph(vs);
    OnlyParentsFound(vs, h, parents, built);
    if x in built {
      if x in parents {
        ReachRefl(d, x);
      } else {
        var v :| v in parents && x in Recorded(vs, v);
        assert ClosedAt(vs, v);
        ReachPlusReach(d, v, x);
      }
    }
    if p :| p in parents && Reach(d, p, x) {
      ReachCases(d, p, x);
      assert ClosedAt(vs, p);
      assert x in {p} + Recorded(vs, p);
    }
  }

  lemma NoTrail(h: Graph, parents: set<Hash>, limit: nat)
    requires parents !! h.Keys
    ensures !LongTrail(h, parents, limit)
  {
    forall trail | IsPath(h, trail) && trail[|trail| - 1] in h
      ensures trail[0] in h
    {
      TrailStartsInside(h, trail);
    }
  }

  lemma TrailStartsInside(h: Graph, trail: seq<Hash>)
    requires IsPath(h, trail) && trail[|trail| - 1] in h
    ensures trail[0] in h
  {
    if |trail| > 1 {
      assert EdgeAt(h, trail, 0);
    }
  }

  lemma OnlyParentsFound(vs: Validations, h: Graph, parents: set<Hash>, built: set<Hash>)
    requires parents !! h.Keys && IsBuilt(vs, h, parents, built)
    ensures built == Contribution(vs, parents)
  {
    var found: set<Hash> :| IsFound(h, parents, found) && built == Contribution(vs, found);
    forall v
      ensures v in found <==> v in parents
    {
      if v in found {
        assert FromParents(h, parents, v);
        var p :| p in parents && Reach(h, p, v);
        ReachCases(h, p, v);
      }
      ReachRefl(h, v);
      assert v in parents ==> FromParents(h, parents, v);
    }
    assert found == parents;
  }

  /** The cycle check is exact when all parents are registered and ancestries are complete. */
  lemma CycleCheckExact(vs: Validations, h: Graph, t: Hash, parents: set<Hash>, built: set<Hash>)
    requires Complete(vs) && Acyclic(DirectGraph(vs)) && t !in vs
    requires parents <= vs.Keys && h.Keys !! vs.Keys && IsBuilt(vs, h, parents, built)
    ensures t in built <==> !Acyclic(DirectGraph(vs)[t := parents])
  {
    BuiltIsClosure(vs, h, parents, built, t);
    NewNodeAcyclic(DirectGraph(vs), t, parents);
  }

  /**
   In any state, exactly when the check is right: what it finds is that the newcomer is a parent or in the recorded
   ancestry of a parent, what makes a cycle is that a parent reaches the newcomer. Where ancestries are incomplete the
   second can hold without the first, and the cycle is missed.
   */
  lemma CycleCheckIff(vs: Validations, h: Graph, t: Hash, parents: set<Hash>, built: set<Hash>)
    requires Acyclic(DirectGraph(vs)) && t !in vs
    requires parents <= vs.Keys && h.Keys !! vs.Keys && IsBuilt(vs, h, parents, built)
    ensures (t in built <==> !Acyclic(DirectGraph(vs)[t := parents])) <==>
              ((exists p :: p in parents && t in vs[p].allAncestors) <==>
               (exists p :: p in parents && Reach(DirectGraph(vs), p, t)))
  {
    OnlyParentsFound(vs, h, parents, built);
    NewNodeAcyclic(DirectGraph(vs), t, parents);
    if p :| p in parents && t in vs[p].allAncestors {
      assert t in Recorded(vs, p);
    }
  }

  /**
   Registering a transaction with registered parents keeps all recorded ancestries complete if and only if every
   transaction that already counts the newcomer among its ancestors knows the newcomer's ancestors too.
   */
  lemma CompleteKeptIff(vs: Validations, h: Graph, t: Hash, v: Validation)
    requires Complete(vs) && t !in vs && t !in v.allAncestors
    requires v.directParents <= vs.Keys && h.Keys !! vs.Keys && IsBuilt(vs, h, v.directParents, v.allAncestors)
    ensures Complete(vs[t := v]) <==> forall c :: c in vs && t in vs[c].allAncestors ==> v.allAncestors <= vs[c].allAncestors
  {
    var vs1 := vs[t := v];
    var d, d1 := DirectGraph(vs), DirectGraph(vs1);
    assert d1 == d[t := v.directParents];
    forall x: Hash
      ensures x in v.allAncestors <==> ReachPlus(d1, t, x)
    {
      NewcomerReaches(vs, h, t, v, x);
    }
    assert ClosedAt(vs1, t);
    forall c | c in vs
      ensures ClosedAt(vs1, c) <==> (t in vs[c].allAncestors ==> v.allAncestors <= vs[c].allAncestors)
    {
      OlderReaches(vs, t, v, c);
    }
    assert Complete(vs1) <==> forall c :: c in vs ==> ClosedAt(vs1, c);
  }

  lemma {:induction false} PathThroughNewcomer(d: Graph, t: Hash, parents: set<Hash>, p: seq<Hash>)
    requires t !in d && IsPath(d[t := parents], p) && p[0] != t
    ensures Reach(d, p[0], p[|p| - 1]) || (Reach(d, p[0], t) && Reach(d[t := parents], t, p[|p| - 1]))
    decreases |p|
  {
    if |p| == 1 {
      ReachRefl(d, p[0]);
    } else {
      assert EdgeAt(d[t := parents], p, 0);
      PathPieces(d[t := parents], p, 1);
      ReachEdge(d, p[0], p[1]);
      if p[1] != t {
        PathThroughNewcomer(d, t, parents, p[1..]);
        if Reach(d, p[1], p[|p| - 1]) {
          ReachTrans(d, p[0], p[1], p[|p| - 1]);
        } else {
          ReachTrans(d, p[0], p[1], t);
        }
      }
    }
  }

  lemma NewcomerReaches(vs: Validations, h: Graph, t: Hash, v: Validation, x: Hash)
    requires Complete(vs) && t !in vs && t !in v.allAncestors
    requires v.directParents <= vs.Keys && h.Keys !! vs.Keys && IsBuilt(vs, h, v.directParents, v.allAncestors)
    ensures x in v.allAncestors <==> ReachPlus(DirectGraph(vs)[t := v.directParents], t, x)
  {
    var d, d1 := DirectGraph(vs), DirectGraph(vs)[t := v.directParents];
    BuiltIsClosure(vs, h, v.directParents, v.allAncestors, x);
    BuiltIsClosure(vs, h, v.directParents, v.allAncestors, t);
    if p :| p in v.directParents && Reach(d, p, x) {
      ReachMonotone(d, d1, p, x);
      assert p in Out(d1, t);
    }
    if ReachPlus(d1, t, x) {
      var p :| p in Out(d1, t) && Reach(d1, p, x);
      var path :| IsPath(d1, path) && path[0] == p && path[|path| - 1] == x;
      PathThroughNewcomer(d, t, v.directParents, path);
    }
  }

  lemma OlderReaches(vs: Validations, t: Hash, v: Validation, c: Hash)
    requires Complete(vs) && t !in vs && c in vs
    requires forall x: Hash :: x in v.allAncestors <==> ReachPlus(DirectGraph(vs[t := v]), t, x)
    ensures ClosedAt(vs[t := v], c) <==> (t in vs[c].allAncestors ==> v.allAncestors <= vs[c].allAncestors)
  {
    var d, d1 := DirectGraph(vs), DirectGraph(vs[t := v]);
    assert d1 == d[t := v.directParents];
    assert ClosedAt(vs, c);
    forall x: Hash
      ensures ReachPlus(d1, c, x) <==> x in vs[c].allAncestors || (t in vs[c].allAncestors && x in v.allAncestors)
    {
      OlderReachesOne(vs, t, v, c, x);
    }
  }

  lemma OlderReachesOne(vs: Validations, t: Hash, v: Validation, c: Hash, x: Hash)
    requires Complete(vs) && t !in vs && c in vs
    requires forall x: Hash :: x in v.allAncestors <==> ReachPlus(DirectGraph(vs[t := v]), t, x)
    ensures ReachPlus(DirectGraph(vs[t := v]), c, x) <==>
              x in vs[c].allAncestors || (t in vs[c].allAncestors && x in v.allAncestors)
  {
    var d, d1 := DirectGraph(vs), DirectGraph(vs[t := v]);
    assert d1 == d[t := v.directParents];
    assert ClosedAt(vs, c);
    if ReachPlus(d, c, x) {
      var z :| z in Out(d, c) && Reach(d, z, x);
      ReachMonotone(d, d1, z, x);
      assert z in Out(d1, c);
    }
    if ReachPlus(d, c, t) && ReachPlus(d1, t, x) {
      var z :| z in Out(d, c) && Reach(d, z, t);
      ReachMonotone(d, d1, z, t);
      assert z in Out(d1, c) && ReachPlus(d1, c, t);
      ReachPlusReach(d1, t, x);
      ReachPlusTrans(d1, c, t, x);
    }
    if ReachPlus(d1, c, x) {
      var z :| z in Out(d1, c) && Reach(d1, z, x);
      ReachEdge(d, c, z);
      if z == t {
        ReachCases(d1, t, x);
      } else {
        var path :| IsPath(d1, path) && path[0] == z && path[|path| - 1] == x;
        PathThroughNewcomer(d, t, v.directParents, path);
        if Reach(d, z, x) {
          ReachPlusTrans(d, c, z, x);
        } else {
          ReachPlusTrans(d, c, z, t);
          ReachCases(d1, t, x);
        }
      }
    }
  }

  /** What registrations that come after those of their parents build up. */
  ghost predicate ParentsCameFirst(vs: Validations) {
    Complete(vs) && DepthAbove(vs) && Closed(DirectGraph(vs), vs.Keys)
  }

  /** Such a registration is never refused for a cycle, and ancestries and depths stay exact. */
  lemma ParentsFirstKeeps(vs: Validations, h: Graph, t: Hash, v: Validation)
    requires ParentsCameFirst(vs) && t !in vs && v.directParents <= vs.Keys && h.Keys !! vs.Keys
    requires IsBuilt(vs, h, v.directParents, v.allAncestors) && DeeperThan(vs, v.allAncestors, v.depth)
    ensures t !in v.allAncestors && ParentsCameFirst(vs[t := v])
  {
    var d := DirectGraph(vs);
    BuiltRegistered(vs, h, v.directParents, v.allAncestors);
    forall c: Hash | c in vs
      ensures t !in vs[c].allAncestors
    {
      assert ClosedAt(vs, c);
      if ReachPlus(d, c, t) {
        ReachPlusReach(d, c, t);
        ClosedReach(d, vs.Keys, c, t);
      }
    }
    CompleteKeptIff(vs, h, t, v);
    DepthAboveKeptIff(vs, t, v);
    forall c: Hash | c in vs.Keys + {t}
      ensures Out(DirectGraph(vs[t := v]), c) <= vs.Keys + {t}
    {
      assert c in vs ==> Out(d, c) <= vs.Keys;
    }
  }

  /** The ancestry that was built for registered parents names registered transactions only. */
  lemma BuiltRegistered(vs: Validations, h: Graph, parents: set<Hash>, built: set<Hash>)
    requires ParentsCameFirst(vs) && parents <= vs.Keys && h.Keys !! vs.Keys && IsBuilt(vs, h, parents, built)
    ensures built <= vs.Keys
  {
    var d := DirectGraph(vs);
    forall x | x in built
      ensures x in vs
    {
      BuiltIsClosure(vs, h, parents, built, x);
      var p :| p in parents && Reach(d, p, x);
      ClosedReach(d, vs.Keys, p, x);
    }
  }

  /** What registering after the parents comes to, from what the registration method says about its outcome. */
  lemma RegisteredParentsFirst(vs: Validations, immediate: Graph, t: Hash, parents: set<Hash>, r: Outcome, built: set<Hash>,
                               maxDepth: nat, maxSize: nat)
    requires t !in vs && Judged(r, t, built, vs, immediate, parents, maxDepth, maxSize)
    requires r.Tracked? ==> NewValidation(vs, parents, built, r.v)
    ensures ParentsCameFirst(vs) && parents <= vs.Keys ==>
              r != TooDeep && r != CycleDetected && (r.Tracked? ==> ParentsCameFirst(vs[t := r.v]))
  {
    var h := Unregistered(immediate, vs);
    if ParentsCameFirst(vs) && parents <= vs.Keys {
      NoTrail(h, parents, maxDepth);
      BuiltRegistered(vs, h, parents, built);
      if r.Tracked? {
        AssessedDeeper(vs, built, r.v);
        ParentsFirstKeeps(vs, h, t, r.v);
      }
    }
  }

  /** The ancestor sets still are the recorded ancestries, as long as nothing was removed. */
  ghost predicate NothingRemoved(vs: Validations, ancestors: Graph) {
    forall c :: c in vs ==> Out(ancestors, c) == vs[c].allAncestors
  }

  /** Marking transactions invalid changes neither parents nor ancestries nor depths. */
  lemma MarkedKeeps(vs: Validations, ancestors: Graph, s: set<Hash>)
    ensures ParentsCameFirst(vs) ==> ParentsCameFirst(Marked(vs, s))
    ensures NothingRemoved(vs, ancestors) ==> NothingRemoved(Marked(vs, s), ancestors)
  {
    var vs1 := Marked(vs, s);
    assert DirectGraph(vs1) == DirectGraph(vs);
    if ParentsCameFirst(vs) {
      forall c: Hash
        ensures ClosedAt(vs1, c)
      {
        assert ClosedAt(vs, c);
      }
    }
  }

  lemma CascadeReaches(vs: Validations, ancestors: Graph, descendants: Graph, t: Hash, affected: set<Hash>)
    requires Complete(vs) && ancestors.Keys == vs.Keys && Inverse(ancestors, descendants) && NothingRemoved(vs, ancestors)
    requires forall x :: x in affected <==> Reach(descendants, t, x)
    ensures forall x :: x in affected <==> x == t || (x in vs && ReachPlus(DirectGraph(vs), x, t))
    ensures affected <= {t} + Out(descendants, t)
  {
    forall x
      ensures x in affected <==> x == t || (x in vs && ReachPlus(DirectGraph(vs), x, t))
      ensures x in affected ==> x in {t} + Out(descendants, t)
    {
      CascadeExact(vs, ancestors, descendants, t, x);
    }
  }

  /** When ancestries are complete, the cascade hits exactly the transaction and its recorded descendants. */
  lemma CascadeExact(vs: Validations, ancestors: Graph, descendants: Graph, t: Hash, x: Hash)
    requires Complete(vs) && ancestors.Keys == vs.Keys && Inverse(ancestors, descendants)
    requires forall c :: c in vs ==> ancestors[c] == vs[c].allAncestors
    ensures Reach(descendants, t, x) <==> x == t || x in Out(descendants, t)
    ensures x in Out(descendants, t) <==> x in vs && ReachPlus(DirectGraph(vs), x, t)
  {
    var d := DirectGraph(vs);
    var s := {t} + Out(descendants, t);
    forall y, z | y in s && z in Out(descendants, y)
      ensures z in s
    {
      assert y in Out(ancestors, z) && ClosedAt(vs, z);
      if y != t {
        assert t in Out(ancestors, y) && ClosedAt(vs, y);
        ReachPlusReach(d, y, t);
        ReachPlusTrans(d, z, y, t);
        assert t in Out(ancestors, z);
      }
    }
    assert Closed(descendants, s);
    if Reach(descendants, t, x) {
      ClosedReach(descendants, s, t, x);
    }
    ReachRefl(descendants, t);
    if x in Out(descendants, t) {
      ReachEdge(descendants, t, x);
    }
    assert x in Out(descendants, t) <==> t in Out(ancestors, x);
    assert ClosedAt(vs, x);
  }

  /** The outcome of registering `t` with the one mempool parent `p`, as the registration method specifies it. */
  ghost predicate RegistersChild(r: Outcome, t: Hash, p: Hash, vs: Validations, immediate: Graph, maxDepth: nat, maxSize: nat) {
    && r != StorageFailed
    && exists built :: Judged(r, t, built, vs, immediate, {p}, maxDepth, maxSize) &&
                       (r.Tracked? ==> r.v.directParents == {p} && r.v.allAncestors == built)
  }

  /**
   Registered children first, a cycle goes unnoticed: c spends p, p spends q and q spends c. The ancestry recorded for
   c stops at p, so the last registration is accepted and the direct parents form a cycle.
   */
  lemma MissedCycle(vs: Validations, immediate: Graph, c: Hash, p: Hash, q: Hash, r: Outcome, maxDepth: nat, maxSize: nat)
    requires c != q && p != q && maxSize >= 2 && c in vs && p in vs && q !in vs
    requires vs[c].directParents == {p} && vs[c].allAncestors == {p} && vs[p].directParents == {q}
    requires immediate.Keys == vs.Keys + {q}
    requires RegistersChild(r, q, c, vs, immediate, maxDepth, maxSize)
    ensures r.Tracked? && !Acyclic(DirectGraph(vs[q := r.v]))
  {
    AtMostTwo(c, p);
    assert {c} + Recorded(vs, c) == {c, p};
    ChildAccepted(r, q, c, vs, immediate, maxDepth, maxSize);
    CycleOfThree(DirectGraph(vs[q := r.v]), c, p, q);
  }

  lemma AtMostTwo(c: Hash, p: Hash)
    ensures |{c, p}| <= 2
  {
    SubsetCardinality({c, p}, {c} + {p});
  }

  /** Registering a transaction that spends one output of `p`. */
  method RegisterChild(tracker: Tracker, t: Hash, p: Hash, store: Store) returns (r: Outcome)
    requires tracker.Valid() && tracker.immediateParents.Keys == tracker.validations.Keys && store((p, 0)) == Some(false)
    requires t !in tracker.validations && p != t && t !in Recorded(tracker.validations, p)
    requires |{p} + Recorded(tracker.validations, p)| <= tracker.maxAncestrySize
    modifies tracker
    ensures tracker.Valid() && tracker.immediateParents.Keys == tracker.validations.Keys
    ensures r.Tracked? && r.v.directParents == {p} && r.v.allAncestors == {p} + Recorded(old(tracker.validations), p)
    ensures tracker.validations == old(tracker.validations)[t := r.v]
  {
    ghost var built;
    r, built := tracker.RegisterTransaction(t, [(p, 0)], store);
    OneMempoolParent(store, p);
    ChildJudged(r, t, p, old(tracker.validations), old(tracker.immediateParents), built,
                tracker.maxRecursionDepth, tracker.maxAncestrySize);
  }

  lemma ChildJudged(r: Outcome, t: Hash, p: Hash, vs: Validations, immediate: Graph, built: set<Hash>, maxDepth: nat, maxSize: nat)
    requires r != StorageFailed && Judged(r, t, built, vs, immediate[t := {p}], {p}, maxDepth, maxSize)
    requires r.Tracked? ==> r.v.directParents == {p} && r.v.allAncestors == built
    requires p != t && t !in Recorded(vs, p) && immediate.Keys == vs.Keys && |{p} + Recorded(vs, p)| <= maxSize
    ensures r.Tracked? && r.v.directParents == {p} && r.v.allAncestors == {p} + Recorded(vs, p)
    ensures immediate[t := {p}].Keys == vs[t := r.v].Keys
  {
    ChildAccepted(r, t, p, vs, immediate[t := {p}], maxDepth, maxSize);
  }

  /** Children first: from an empty tracker c, p and q are registered in this order, and all three are accepted. */
  method RegisterCycle(c: Hash, p: Hash, q: Hash, maxDepth: nat, maxSize: nat) returns (tracker: Tracker)
    requires c != p && p != q && c != q && maxSize >= 2
    ensures tracker.Valid() && c in tracker.validations && p in tracker.validations && q in tracker.validations
    ensures !Acyclic(DirectGraph(tracker.validations))
  {
    tracker := new Tracker(maxDepth, maxSize);
    var store: Store := (o: OutPoint) => Some(false);
    var first := RegisterChild(tracker, c, p, store);
    var second := RegisterChild(tracker, p, q, store);
    var third := RegisterChild(tracker, q, c, store);
    ThreeInACycle(c, p, q, first.v, second.v, third.v);
  }

  lemma ThreeInACycle(c: Hash, p: Hash, q: Hash, v: Validation, v1: Validation, v2: Validation)
    requires c != p && p != q && c != q
    requires v.directParents == {p} && v1.directParents == {q} && v2.directParents == {c}
    ensures var vs: Validations := map[]; !Acyclic(DirectGraph(vs[c := v][p := v1][q := v2]))
  {
    var vs: Validations := map[];
    CycleOfThree(DirectGraph(vs[c := v][p := v1][q := v2]), c, p, q);
  }

  /** A registration with one mempool parent is accepted unless the parent already names the newcomer. */
  lemma ChildAccepted(r: Outcome, t: Hash, p: Hash, vs: Validations, immediate: Graph, maxDepth: nat, maxSize: nat)
    requires RegistersChild(r, t, p, vs, immediate, maxDepth, maxSize)
    requires p != t && t !in Recorded(vs, p) && immediate.Keys == vs.Keys + {t} && |{p} + Recorded(vs, p)| <= maxSize
    ensures r.Tracked? && r.v.directParents == {p} && r.v.allAncestors == {p} + Recorded(vs, p)
  {
    var h := Unregistered(immediate, vs);
    NoTrail(h, {p}, maxDepth);
    var built :| Judged(r, t, built, vs, immediate, {p}, maxDepth, maxSize) &&
                 (r.Tracked? ==> r.v.directParents == {p} && r.v.allAncestors == built);
    OnlyParentsFound(vs, h, {p}, built);
    ContributionOne(vs, p);
  }

  lemma CycleOfThree(d: Graph, c: Hash, p: Hash, q: Hash)
    requires p in Out(d, c) && q in Out(d, p) && c in Out(d, q)
    ensures !Acyclic(d)
  {
    ReachEdge(d, q, c);
    ReachEdge(d, p, q);
    ReachTrans(d, p, q, c);
    assert ReachPlus(d, c, c);
  }
}
