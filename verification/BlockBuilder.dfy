/**
 Building a block from the canonical order: greedy selection under a weight limit without recorded conflicts, and the
 check a candidate passes before it leaves the pool.
 */
module BlockBuilder {
  import opened Basics
  import opened ConflictEngine
  import opened Ledger
  import opened ListMap
  import opened Graphs
  import Kahn

  datatype Choice = Choice(selected: seq<Hash>, excluded: seq<Hash>, fees: nat, weight: nat)

  const NOTHING := Choice([], [], 0, 0)

  predicate Clashes(conflicts: Lists, t: Hash, selected: seq<Hash>): (r: bool)
    ensures r <==> exists i :: 0 <= i < |selected| && Has(conflicts, t, selected[i])
  {
    exists c :: c in List(conflicts, t) && c in selected
  }

  function Consider(nodes: map<Hash, TxNode>, conflicts: Lists, max: nat, c: Choice, t: Hash): Choice {
    if Clashes(conflicts, t, c.selected) then
      c.(excluded := c.excluded + [t])
    else if t in nodes && c.weight + nodes[t].size <= max then
      Choice(c.selected + [t], c.excluded, c.fees + nodes[t].fee, c.weight + nodes[t].size)
    else
      c
  }

  /** The selection goes down the order and stops at a full block. */
  function Greedy(nodes: map<Hash, TxNode>, conflicts: Lists, max: nat, c: Choice, rest: seq<Hash>): Choice
    decreases |rest|
  {
    if rest == [] || c.weight >= max then c else Greedy(nodes, conflicts, max, Consider(nodes, conflicts, max, c, rest[0]), rest[1..])
  }

  // ----- what a selection is -----

  function Fee(nodes: map<Hash, TxNode>, t: Hash): nat {
    if t in nodes then nodes[t].fee else 0
  }

  function Size(nodes: map<Hash, TxNode>, t: Hash): nat {
    if t in nodes then nodes[t].size else 0
  }

  function FeeSum(nodes: map<Hash, TxNode>, s: seq<Hash>): nat {
    if s == [] then 0 else FeeSum(nodes, s[..|s| - 1]) + Fee(nodes, s[|s| - 1])
  }

  function SizeSum(nodes: map<Hash, TxNode>, s: seq<Hash>): nat {
    if s == [] then 0 else SizeSum(nodes, s[..|s| - 1]) + Size(nodes, s[|s| - 1])
  }

  /** `a` is `b` with some elements left out. */
  predicate Subseq(a: seq<Hash>, b: seq<Hash>)
    decreases |b|
  {
    || a == []
    || (b != [] && (Subseq(a, b[..|b| - 1]) || (a[|a| - 1] == b[|b| - 1] && Subseq(a[..|a| - 1], b[..|b| - 1]))))
  }

  ghost predicate ConflictFree(conflicts: Lists, selected: seq<Hash>) {
    forall i, j :: 0 <= i < j < |selected| ==> !Has(conflicts, selected[j], selected[i])
  }

  /** A transaction is left out only for a conflict or for lack of room. */
  predicate Justified(nodes: map<Hash, TxNode>, conflicts: Lists, max: nat, c: Choice, t: Hash) {
    || t in c.selected
    || (t in c.excluded && Clashes(conflicts, t, c.selected))
    || t !in nodes || c.weight + nodes[t].size > max || c.weight == max
  }

  ghost predicate IsSelection(nodes: map<Hash, TxNode>, conflicts: Lists, max: nat, order: seq<Hash>, c: Choice) {
    && Subseq(c.selected, order) && Subseq(c.excluded, order) && Elems(c.selected) <= nodes.Keys
    && c.fees == FeeSum(nodes, c.selected) && c.weight == SizeSum(nodes, c.selected) <= max
    && ConflictFree(conflicts, c.selected)
    && (forall t :: t in c.excluded ==> Clashes(conflicts, t, c.selected))
    && (forall t :: t in order ==> Justified(nodes, conflicts, max, c, t))
  }

  lemma {:induction false} GreedySelects(nodes: map<Hash, TxNode>, conflicts: Lists, max: nat, order: seq<Hash>, c: Choice, rest: seq<Hash>)
    requires IsSelection(nodes, conflicts, max, order, c)
    ensures IsSelection(nodes, conflicts, max, order + rest, Greedy(nodes, conflicts, max, c, rest))
    decreases |rest|
  {
    if rest == [] {
      assert order + rest == order;
    } else if c.weight >= max {
      SubseqMore(c.selected, order, rest);
      SubseqMore(c.excluded, order, rest);
    } else {
      ConsiderSelects(nodes, conflicts, max, order, c, rest[0]);
      GreedySelects(nodes, conflicts, max, order + [rest[0]], Consider(nodes, conflicts, max, c, rest[0]), rest[1..]);
      assert order + [rest[0]] + rest[1..] == order + rest;
    }
  }

  lemma GreedySelection(nodes: map<Hash, TxNode>, conflicts: Lists, max: nat, order: seq<Hash>)
    ensures IsSelection(nodes, conflicts, max, order, Greedy(nodes, conflicts, max, NOTHING, order))
  {
    GreedySelects(nodes, conflicts, max, [], NOTHING, order);
    assert [] + order == order;
  }

  lemma ConsiderSelects(nodes: map<Hash, TxNode>, conflicts: Lists, max: nat, order: seq<Hash>, c: Choice, t: Hash)
    requires IsSelection(nodes, conflicts, max, order, c)
    ensures IsSelection(nodes, conflicts, max, order + [t], Consider(nodes, conflicts, max, c, t))
  {
    var c1 := Consider(nodes, conflicts, max, c, t);
    SubseqAppend(c.selected, order, t);
    SubseqAppend(c.excluded, order, t);
    ConsiderJustified(nodes, conflicts, max, order, c, t);
    if !Clashes(conflicts, t, c.selected) && t in nodes && c.weight + nodes[t].size <= max {
      SumsAppend(nodes, c.selected, t);
      SelectedConflictFree(conflicts, c.selected, t);
    } else {
      assert c1.selected == c.selected;
    }
  }

  lemma SumsAppend(nodes: map<Hash, TxNode>, s: seq<Hash>, t: Hash)
    ensures FeeSum(nodes, s + [t]) == FeeSum(nodes, s) + Fee(nodes, t)
    ensures SizeSum(nodes, s + [t]) == SizeSum(nodes, s) + Size(nodes, t)
    ensures Elems(s + [t]) == Elems(s) + {t}
  {
    assert (s + [t])[..|s|] == s;
  }

  lemma ConsiderJustified(nodes: map<Hash, TxNode>, conflicts: Lists, max: nat, order: seq<Hash>, c: Choice, t: Hash)
    requires forall u :: u in c.excluded ==> Clashes(conflicts, u, c.selected)
    requires forall u :: u in order ==> Justified(nodes, conflicts, max, c, u)
    requires c.weight <= max
    ensures var c1 := Consider(nodes, conflicts, max, c, t);
            && (forall u :: u in c1.excluded ==> Clashes(conflicts, u, c1.selected))
            && (forall u :: u in order + [t] ==> Justified(nodes, conflicts, max, c1, u))
  {
    var c1 := Consider(nodes, conflicts, max, c, t);
    forall u | u in order + [t]
      ensures Justified(nodes, conflicts, max, c1, u)
    {
      if u in order {
        assert Justified(nodes, conflicts, max, c, u);
        ClashesMore(conflicts, u, c.selected, c1.selected);
      } else {
        assert u == t;
      }
    }
    forall u | u in c1.excluded
      ensures Clashes(conflicts, u, c1.selected)
    {
      ClashesMore(conflicts, u, c.selected, c1.selected);
    }
  }

  lemma ClashesMore(conflicts: Lists, t: Hash, selected: seq<Hash>, more: seq<Hash>)
    requires selected <= more
    ensures Clashes(conflicts, t, selected) ==> Clashes(conflicts, t, more)
  {
    if Clashes(conflicts, t, selected) {
      var c :| c in List(conflicts, t) && c in selected;
      assert c in more;
    }
  }

  lemma SelectedConflictFree(conflicts: Lists, selected: seq<Hash>, t: Hash)
    requires ConflictFree(conflicts, selected) && !Clashes(conflicts, t, selected)
    ensures ConflictFree(conflicts, selected + [t])
  {
    var more := selected + [t];
    forall i, j | 0 <= i < j < |more|
      ensures !Has(conflicts, more[j], more[i])
    {
      if j == |selected| {
        assert selected[i] in selected;
      }
    }
  }

  // ----- subsequences -----

  lemma SubseqAppend(a: seq<Hash>, b: seq<Hash>, x: Hash)
    requires Subseq(a, b)
    ensures Subseq(a, b + [x]) && Subseq(a + [x], b + [x])
  {
    assert (b + [x])[..|b|] == b && (a + [x])[..|a|] == a;
  }

  lemma {:induction false} SubseqMore(a: seq<Hash>, b: seq<Hash>, more: seq<Hash>)
    requires Subseq(a, b)
    ensures Subseq(a, b + more)
    decreases |more|
  {
    if more == [] {
      assert b + more == b;
    } else {
      SubseqMore(a, b, more[..|more| - 1]);
      assert (b + more)[..|b + more| - 1] == b + more[..|more| - 1];
    }
  }

  lemma {:induction false} SubseqMembers(a: seq<Hash>, b: seq<Hash>)
    requires Subseq(a, b)
    ensures Elems(a) <= Elems(b) && (NoDup(b) ==> NoDup(a))
    decreases |b|
  {
    if a == [] {
    } else {
      var front := b[..|b| - 1];
      FrontMembers(b);
      if Subseq(a, front) {
        SubseqMembers(a, front);
      } else {
        SubseqMembers(a[..|a| - 1], front);
        assert a == a[..|a| - 1] + [a[|a| - 1]];
        assert Elems(a) == Elems(a[..|a| - 1]) + {a[|a| - 1]};
        if NoDup(b) {
          NoDupAppend(a[..|a| - 1], a[|a| - 1]);
        }
      }
    }
  }

  lemma FrontMembers(s: seq<Hash>)
    requires s != []
    ensures Elems(s) == Elems(s[..|s| - 1]) + {s[|s| - 1]}
    ensures NoDup(s) ==> NoDup(s[..|s| - 1]) && s[|s| - 1] !in Elems(s[..|s| - 1])
  {
    assert s == s[..|s| - 1] + [s[|s| - 1]];
  }

  /** The order of the elements is kept. */
  lemma {:induction false} SubseqKeepsOrder(a: seq<Hash>, b: seq<Hash>, i: nat, j: nat, k: nat)
    requires Subseq(a, b) && NoDup(b) && i < |b| && j < |a| && k < |b|
    requires b[k] == a[j] && i < k && b[i] in a
    ensures Kahn.Before(a, b[i], j)
    decreases |b|
  {
    var front := b[..|b| - 1];
    if Subseq(a, front) {
      SubseqMembers(a, front);
      assert a[j] in Elems(a);
      var k1 :| 0 <= k1 < |front| && front[k1] == a[j];
      SubseqKeepsOrder(a, front, i, j, k);
    } else if j == |a| - 1 {
      var i1 :| 0 <= i1 < |a| && a[i1] == b[i];
      assert i1 != j;
    } else {
      var a1 := a[..|a| - 1];
      SubseqMembers(a1, front);
      assert a1[j] in Elems(a1);
      var k1 :| 0 <= k1 < |front| && front[k1] == a[j];
      var i1 :| 0 <= i1 < |a| && a[i1] == b[i];
      assert i1 != |a| - 1;
      assert a1[i1] == b[i];
      SubseqKeepsOrder(a1, front, i, j, k);
    }
  }

  // ----- the block -----

  function LayersWith(groups: seq<seq<Hash>>, selected: seq<Hash>): seq<seq<Hash>> {
    if groups == [] then []
    else LayersWith(groups[..|groups| - 1], selected) +
         (if exists t :: t in groups[|groups| - 1] && t in selected then [groups[|groups| - 1]] else [])
  }

  method SelectGreedily(nodes: map<Hash, TxNode>, conflicts: Lists, max: nat, ordered: seq<Hash>) returns (c: Choice)
    ensures c == Greedy(nodes, conflicts, max, NOTHING, ordered)
  {
    c := NOTHING;
    var i := 0;
    assert ordered[0..] == ordered;
    while i < |ordered| && c.weight < max
      invariant 0 <= i <= |ordered|
      invariant Greedy(nodes, conflicts, max, c, ordered[i..]) == Greedy(nodes, conflicts, max, NOTHING, ordered)
    {
      var t := ordered[i];
      assert ordered[i..][1..] == ordered[i + 1..];
      if Clashes(conflicts, t, c.selected) {
        c := c.(excluded := c.excluded + [t]);
      } else if t in nodes {
        var size := nodes[t].size;
        if c.weight + size <= max {
          c := Choice(c.selected + [t], c.excluded, c.fees + nodes[t].fee, c.weight + size);
        }
      }
      i := i + 1;
    }
  }

  method FilterLayers(groups: seq<seq<Hash>>, selected: seq<Hash>) returns (layers: seq<seq<Hash>>)
    ensures layers == LayersWith(groups, selected)
  {
    layers := [];
    var k := 0;
    while k < |groups|
      invariant 0 <= k <= |groups| && layers == LayersWith(groups[..k], selected)
    {
      var layer := groups[k];
      assert groups[..k + 1][..k] == groups[..k];
      if exists t :: t in layer && t in selected {
        layers := layers + [layer];
      }
      k := k + 1;
    }
    assert groups[..k] == groups;
  }

  method BuildBlockCanonical(engine: Engine, score: TxNode -> int, max: nat)
    returns (c: Choice, layers: seq<seq<Hash>>, ghost order: Ordering)
    requires engine.Valid()
    modifies engine`cachedOrdering
    ensures engine.Valid() && IsCanonical(engine.nodes.Keys, engine.dependencyMap, order)
    ensures c == Greedy(engine.nodes, engine.conflictMap, max, NOTHING, order.ordered)
    ensures layers == LayersWith(order.groups, c.selected)
  {
    var ordering := engine.ComputeCanonicalOrder(score);
    order := ordering;
    c := SelectGreedily(engine.nodes, engine.conflictMap, max, ordering.ordered);
    layers := FilterLayers(ordering.groups, c.selected);
  }

  /**
   Every block: a subsequence of the canonical order without repetition, with exact fee and weight sums within the
   limit; a transaction is left out only because it clashes with a selected one or does not fit any more.
   */
  lemma BlockIsGreedy(nodes: map<Hash, TxNode>, deps: Lists, conflicts: Lists, max: nat, o: Ordering, c: Choice)
    requires IsCanonical(nodes.Keys, deps, o)
    requires c == Greedy(nodes, conflicts, max, NOTHING, o.ordered)
    ensures IsSelection(nodes, conflicts, max, o.ordered, c) && NoDup(c.selected)
  {
    GreedySelection(nodes, conflicts, max, o.ordered);
    SubseqMembers(c.selected, o.ordered);
  }

  /** No two selected transactions claim the same previous transaction. */
  lemma BlockConflictFree(nodes: map<Hash, TxNode>, spends: map<Hash, set<Hash>>, index: Lists, deps: Lists, conflicts: Lists,
                          max: nat, o: Ordering, c: Choice, i: nat, j: nat)
    requires IndexExact(nodes.Keys, spends, index) && ConflictsRecorded(index, conflicts)
    requires IsCanonical(nodes.Keys, deps, o)
    requires c == Greedy(nodes, conflicts, max, NOTHING, o.ordered)
    requires i < j < |c.selected|
    ensures c.selected[i] in nodes && c.selected[j] in nodes
    ensures spends[c.selected[i]] * spends[c.selected[j]] == {}
  {
    BlockIsGreedy(nodes, deps, conflicts, max, o, c);
    var x, y := c.selected[i], c.selected[j];
    assert x in Elems(c.selected) && y in Elems(c.selected);
    assert x != y && !Has(conflicts, y, x);
    assert forall p :: p in spends[x] && p in spends[y] ==> Has(index, p, x) && Has(index, p, y);
  }

  /** A selected parent stands before its selected child. */
  lemma BlockParentsFirst(nodes: map<Hash, TxNode>, deps: Lists, conflicts: Lists, max: nat, o: Ordering, c: Choice, j: nat, p: Hash)
    requires IsCanonical(nodes.Keys, deps, o)
    requires c == Greedy(nodes, conflicts, max, NOTHING, o.ordered)
    requires j < |c.selected| && Has(deps, c.selected[j], p) && p in c.selected
    ensures Kahn.Before(c.selected, p, j)
  {
    BlockIsGreedy(nodes, deps, conflicts, max, o, c);
    CanonicalOrderComplete(nodes.Keys, deps, o);
    SubseqMembers(c.selected, o.ordered);
    assert c.selected[j] in Elems(c.selected);
    var k :| 0 <= k < |o.ordered| && o.ordered[k] == c.selected[j];
    assert Kahn.Before(o.ordered, p, k);
    var i :| 0 <= i < k && o.ordered[i] == p;
    SubseqKeepsOrder(c.selected, o.ordered, i, j, k);
  }

  // ----- parents of selected transactions -----

  /** Every parent a selected transaction names is selected. */
  ghost predicate ClosedUnderParents(deps: Lists, selected: seq<Hash>) {
    forall t: Hash, p: Hash :: t in selected && Has(deps, t, p) ==> p in selected
  }

  lemma {:induction false} GreedySplit(nodes: map<Hash, TxNode>, conflicts: Lists, max: nat, c: Choice, xs: seq<Hash>, ys: seq<Hash>)
    ensures Greedy(nodes, conflicts, max, c, xs + ys) ==
            Greedy(nodes, conflicts, max, Greedy(nodes, conflicts, max, c, xs), ys)
    decreases |xs|
  {
    if xs == [] {
      assert xs + ys == ys;
    } else {
      assert (xs + ys)[0] == xs[0] && (xs + ys)[1..] == xs[1..] + ys;
      if c.weight < max {
        GreedySplit(nodes, conflicts, max, Consider(nodes, conflicts, max, c, xs[0]), xs[1..], ys);
      }
    }
  }

  /** The selection only grows, by what it still has to look at. */
  lemma {:induction false} GreedyExtends(nodes: map<Hash, TxNode>, conflicts: Lists, max: nat, c: Choice, rest: seq<Hash>)
    ensures c.selected <= Greedy(nodes, conflicts, max, c, rest).selected
    ensures forall t: Hash :: t in Greedy(nodes, conflicts, max, c, rest).selected ==> t in c.selected || t in rest
    decreases |rest|
  {
    if rest != [] && c.weight < max {
      GreedyExtends(nodes, conflicts, max, Consider(nodes, conflicts, max, c, rest[0]), rest[1..]);
    }
  }

  function SelectedBefore(nodes: map<Hash, TxNode>, conflicts: Lists, max: nat, order: seq<Hash>, k: nat): Choice
    requires k <= |order|
  {
    Greedy(nodes, conflicts, max, NOTHING, order[..k])
  }

  /** The transaction at position k, between what was selected before it and what comes after. */
  lemma SelectionAt(nodes: map<Hash, TxNode>, conflicts: Lists, max: nat, order: seq<Hash>, k: nat)
    requires k < |order|
    ensures var c := SelectedBefore(nodes, conflicts, max, order, k);
            && (forall t: Hash :: t in c.selected ==> t in order[..k])
            && Greedy(nodes, conflicts, max, NOTHING, order) ==
                 if c.weight >= max then c
                 else Greedy(nodes, conflicts, max, Consider(nodes, conflicts, max, c, order[k]), order[k + 1..])
  {
    var c := SelectedBefore(nodes, conflicts, max, order, k);
    GreedyExtends(nodes, conflicts, max, NOTHING, order[..k]);
    GreedySplit(nodes, conflicts, max, NOTHING, order[..k], order[k..]);
    assert order[..k] + order[k..] == order;
    assert order[k..][0] == order[k] && order[k..][1..] == order[k + 1..];
  }

  lemma SelectedAt(nodes: map<Hash, TxNode>, conflicts: Lists, max: nat, order: seq<Hash>, k: nat)
    requires k < |order| && NoDup(order)
    ensures var c := SelectedBefore(nodes, conflicts, max, order, k);
            order[k] in Greedy(nodes, conflicts, max, NOTHING, order).selected <==>
              && c.weight < max && !Clashes(conflicts, order[k], c.selected)
              && order[k] in nodes && c.weight + nodes[order[k]].size <= max
  {
    var c := SelectedBefore(nodes, conflicts, max, order, k);
    SelectionAt(nodes, conflicts, max, order, k);
    assert order[k] !in order[..k] && order[k] !in order[k + 1..];
    if c.weight < max {
      var c1 := Consider(nodes, conflicts, max, c, order[k]);
      GreedyExtends(nodes, conflicts, max, c1, order[k + 1..]);
      assert order[k] in c1.selected <==>
             !Clashes(conflicts, order[k], c.selected) && order[k] in nodes && c.weight + nodes[order[k]].size <= max;
    }
  }

  /**
   Exactly when a selected transaction stands in the block without one of its parents: the parent clashed with what was
   selected before it, or did not fit beside it.
   */
  lemma MissingParentIff(nodes: map<Hash, TxNode>, deps: Lists, conflicts: Lists, max: nat, o: Ordering, c: Choice, t: Hash, p: Hash)
    returns (k: nat)
    requires IsCanonical(nodes.Keys, deps, o)
    requires c == Greedy(nodes, conflicts, max, NOTHING, o.ordered)
    requires t in c.selected && Has(deps, t, p)
    ensures k < |o.ordered| && o.ordered[k] == p && p in nodes
    ensures var before := SelectedBefore(nodes, conflicts, max, o.ordered, k);
            p !in c.selected <==> Clashes(conflicts, p, before.selected) || before.weight + nodes[p].size > max
  {
    CanonicalOrderComplete(nodes.Keys, deps, o);
    GreedyExtends(nodes, conflicts, max, NOTHING, o.ordered);
    var m :| 0 <= m < |o.ordered| && o.ordered[m] == t;
    assert Kahn.Before(o.ordered, p, m);
    k :| 0 <= k < m && o.ordered[k] == p;
    assert p in Elems(o.ordered);
    SelectedAt(nodes, conflicts, max, o.ordered, k);
    SelectionAt(nodes, conflicts, max, o.ordered, k);
    assert t !in o.ordered[..k];
  }

  lemma {:induction false} SizesGrow(nodes: map<Hash, TxNode>, s: seq<Hash>, k: nat)
    requires k <= |s|
    ensures SizeSum(nodes, s[..k]) <= SizeSum(nodes, s)
  {
    if k < |s| {
      SizesGrow(nodes, s[..|s| - 1], k);
      assert s[..|s| - 1][..k] == s[..k];
    } else {
      assert s[..k] == s;
    }
  }

  lemma {:induction false} PrefixSelected(nodes: map<Hash, TxNode>, conflicts: Lists, max: nat, order: seq<Hash>, k: nat)
    requires k <= |order| && Elems(order) <= nodes.Keys
    requires ConflictFree(conflicts, order) && SizeSum(nodes, order) <= max
    requires order != [] ==> SizeSum(nodes, order[..|order| - 1]) < max
    ensures var c := SelectedBefore(nodes, conflicts, max, order, k);
            c.selected == order[..k] && c.weight == SizeSum(nodes, order[..k])
    decreases k
  {
    if k == 0 {
    } else {
      var c, t := SelectedBefore(nodes, conflicts, max, order, k - 1), order[k - 1];
      PrefixSelected(nodes, conflicts, max, order, k - 1);
      GreedySplit(nodes, conflicts, max, NOTHING, order[..k - 1], [t]);
      assert order[..k - 1] + [t] == order[..k];
      SumsAppend(nodes, order[..k - 1], t);
      SizesGrow(nodes, order, k);
      SizesGrow(nodes, order[..|order| - 1], k - 1);
      assert order[..|order| - 1][..k - 1] == order[..k - 1];
      assert t in Elems(order);
      NoClash(conflicts, order, k - 1);
      assert [t][1..] == [];
    }
  }

  lemma NoClash(conflicts: Lists, order: seq<Hash>, k: nat)
    requires k < |order| && ConflictFree(conflicts, order)
    ensures !Clashes(conflicts, order[k], order[..k])
  {
  }

  /**
   The block is the whole canonical order, and so closed under parents, exactly when the order is free of conflicts, fits
   the limit, and is not cut off by a limit reached before its last transaction.
   */
  lemma WholeOrderIff(nodes: map<Hash, TxNode>, deps: Lists, conflicts: Lists, max: nat, o: Ordering, c: Choice)
    requires IsCanonical(nodes.Keys, deps, o)
    requires c == Greedy(nodes, conflicts, max, NOTHING, o.ordered)
    ensures c.selected == o.ordered <==>
              && ConflictFree(conflicts, o.ordered) && SizeSum(nodes, o.ordered) <= max
              && (o.ordered != [] ==> SizeSum(nodes, o.ordered[..|o.ordered| - 1]) < max)
    ensures c.selected == o.ordered ==> ClosedUnderParents(deps, c.selected)
  {
    var order := o.ordered;
    CanonicalOrderComplete(nodes.Keys, deps, o);
    BlockIsGreedy(nodes, deps, conflicts, max, o, c);
    assert order[..|order|] == order;
    if c.selected == order {
      if order != [] {
        LastSelected(nodes, deps, conflicts, max, o, c);
      }
      WholeOrderClosed(deps, order);
    } else if ConflictFree(conflicts, order) && SizeSum(nodes, order) <= max
              && (order != [] ==> SizeSum(nodes, order[..|order| - 1]) < max) {
      PrefixSelected(nodes, conflicts, max, order, |order|);
    }
  }

  lemma WholeOrderClosed(deps: Lists, order: seq<Hash>)
    requires forall i, p :: 0 <= i < |order| && Has(deps, order[i], p) ==> Kahn.Before(order, p, i)
    ensures ClosedUnderParents(deps, order)
  {
    forall t: Hash, p: Hash | t in order && Has(deps, t, p)
      ensures p in order
    {
      var i :| 0 <= i < |order| && order[i] == t;
      assert Kahn.Before(order, p, i);
    }
  }

  /** When everything is selected, the limit was not reached before the last transaction. */
  lemma LastSelected(nodes: map<Hash, TxNode>, deps: Lists, conflicts: Lists, max: nat, o: Ordering, c: Choice)
    requires IsCanonical(nodes.Keys, deps, o)
    requires c == Greedy(nodes, conflicts, max, NOTHING, o.ordered)
    requires o.ordered != [] && c.selected == o.ordered
    ensures SizeSum(nodes, o.ordered[..|o.ordered| - 1]) < max
  {
    var order, n := o.ordered, |o.ordered| - 1;
    assert NoDup(order);
    assert order[n] in c.selected;
    SelectedAt(nodes, conflicts, max, order, n);
    SelectionAt(nodes, conflicts, max, order, n);
    var before := SelectedBefore(nodes, conflicts, max, order, n);
    WeightOfSelection(nodes, conflicts, max, order[..n]);
    assert order[n + 1..] == [];
    assert c.selected == before.selected + [order[n]];
    assert before.selected == order[..n];
  }

  lemma WeightOfSelection(nodes: map<Hash, TxNode>, conflicts: Lists, max: nat, order: seq<Hash>)
    ensures var c := Greedy(nodes, conflicts, max, NOTHING, order);
            c.weight == SizeSum(nodes, c.selected)
  {
    GreedySelection(nodes, conflicts, max, order);
  }

  /**
   The failing case: two registered transactions without conflicts, a parent above the limit and a child within it.
   Every canonical order puts the parent first, and every block is the child alone.
   */
  lemma OversizedParent(nodes: map<Hash, TxNode>, deps: Lists, conflicts: Lists, max: nat, o: Ordering, p: Hash, t: Hash)
    requires nodes.Keys == {p, t} && p != t && List(deps, p) == [] && List(deps, t) == [p]
    requires nodes[p].size > max >= nodes[t].size && max > 0
    requires IsCanonical(nodes.Keys, deps, o)
    ensures o.ordered == [p, t]
    ensures var c := Greedy(nodes, conflicts, max, NOTHING, o.ordered); c.selected == [t] && c.excluded == []
    ensures !ClosedUnderParents(deps, [t])
  {
    OrderOfTwo(nodes.Keys, deps, o, p, t);
    assert [p, t][1..] == [t] && [t][1..] == [];
    assert Consider(nodes, conflicts, max, NOTHING, p) == NOTHING;
    assert Greedy(nodes, conflicts, max, NOTHING, [p, t]) == Greedy(nodes, conflicts, max, NOTHING, [t]);
    var c := Consider(nodes, conflicts, max, NOTHING, t);
    assert c.selected == [t];
    assert Greedy(nodes, conflicts, max, NOTHING, [t]) == Greedy(nodes, conflicts, max, c, [t][1..]);
    assert Has(deps, t, p) && t in [t] && p !in [t];
  }

  /** An engine in that case: a parent of size 10, a child of size 5 and a limit of 5. */
  method ChildWithoutParent(score: TxNode -> int) returns (engine: Engine, c: Choice)
    ensures Has(engine.dependencyMap, 2, 1) && c.selected == [2] && c.excluded == []
  {
    engine := ParentAndChild();
    var layers: seq<seq<Hash>>;
    ghost var order: Ordering;
    c, layers, order := BuildBlockCanonical(engine, score, 5);
    OversizedParent(engine.nodes, engine.dependencyMap, engine.conflictMap, 5, order, 1, 2);
  }

  method ParentAndChild() returns (engine: Engine)
    ensures fresh(engine) && engine.Valid()
    ensures engine.nodes.Keys == {1, 2} && engine.nodes[1].size == 10 && engine.nodes[2].size == 5
    ensures List(engine.dependencyMap, 1) == [] && List(engine.dependencyMap, 2) == [1]
  {
    engine := new Engine();
    var detected := engine.RegisterTransaction(1, [], TxNode(100, 10, 0));
    detected := engine.RegisterTransaction(2, [], TxNode(1, 5, 1));
    engine.AddDependency(1, 2);
  }

  lemma OrderOfTwo(nodes: set<Hash>, deps: Lists, o: Ordering, p: Hash, t: Hash)
    requires nodes == {p, t} && p != t && List(deps, p) == [] && List(deps, t) == [p]
    requires IsCanonical(nodes, deps, o)
    ensures o.ordered == [p, t]
  {
    TwoComplete(nodes, deps, o, p, t);
    TwoElements(o.ordered, p, t);
    assert Has(deps, t, p);
    assert !Kahn.Before(o.ordered, p, 0);
  }

  lemma TwoComplete(nodes: set<Hash>, deps: Lists, o: Ordering, p: Hash, t: Hash)
    requires nodes == {p, t} && p != t && List(deps, p) == [] && List(deps, t) == [p]
    requires IsCanonical(nodes, deps, o)
    ensures NoDup(o.ordered) && Elems(o.ordered) == {p, t}
    ensures forall i, q :: 0 <= i < |o.ordered| && Has(deps, o.ordered[i], q) ==> Kahn.Before(o.ordered, q, i)
  {
    TwoAcyclic(ParentsOf(nodes, deps), p, t);
    CanonicalOrderComplete(nodes, deps, o);
  }

  lemma TwoAcyclic(g: Graph, p: Hash, t: Hash)
    requires g.Keys == {p, t} && p != t && g[p] == {} && g[t] == {p}
    ensures Acyclic(g)
  {
    assert Kahn.ParentsFirst(g, [p, t]) by {
      assert [p, t][0] == p;
    }
    Kahn.ParentsFirstAcyclic(g, [p, t]);
  }

  lemma TwoElements(s: seq<Hash>, p: Hash, t: Hash)
    requires NoDup(s) && Elems(s) == {p, t} && p != t
    ensures s == [p, t] || s == [t, p]
  {
    NoDupCardinality(s);
    assert |s| == 2;
    assert s[0] in Elems(s) && s[1] in Elems(s);
  }

  /** The only layer a block ever gets is the whole canonical order, left-out transactions included. */
  lemma OneLayerWithEverything(nodes: set<Hash>, deps: Lists, o: Ordering, selected: seq<Hash>)
    requires IsCanonical(nodes, deps, o) && Subseq(selected, o.ordered)
    ensures LayersWith(o.groups, selected) == if selected == [] then [] else [o.ordered]
  {
    SubseqMembers(selected, o.ordered);
    if selected != [] {
      assert selected[0] in Elems(selected);
      assert selected[0] in o.ordered && o.ordered != [];
      assert o.groups[|o.groups| - 1] == o.ordered;
    }
    assert LayersWith([], selected) == [];
  }

  // ----- the candidate check -----

  datatype Verdict = Accepted | DuplicateTransaction | AlreadySpent(o: OutPoint)

  function Ids(txs: seq<Tx>): seq<Hash> {
    seq(|txs|, i requires 0 <= i < |txs| => txs[i].id)
  }

  function AllInputs(txs: seq<Tx>): seq<OutPoint> {
    if txs == [] then [] else AllInputs(txs[..|txs| - 1]) + txs[|txs| - 1].inputs
  }

  method VerifyCanonicalOrder(txs: seq<Tx>) returns (v: Verdict)
    ensures v == Accepted <==> NoDup(Ids(txs)) && NoDup(AllInputs(txs))
    ensures v == DuplicateTransaction ==> !NoDup(Ids(txs))
    ensures v.AlreadySpent? ==> !NoDup(AllInputs(txs)) && v.o in AllInputs(txs)
  {
    var seen: set<Hash> := {};
    var spent: set<OutPoint> := {};
    var i := 0;
    while i < |txs|
      invariant 0 <= i <= |txs|
      invariant seen == Elems(Ids(txs[..i])) && NoDup(Ids(txs[..i]))
      invariant spent == Elems(AllInputs(txs[..i])) && NoDup(AllInputs(txs[..i]))
    {
      var tx := txs[i];
      PrefixStep(txs, i);
      if tx.id in seen {
        DuplicateStays(Ids(txs[..i]), tx.id, Ids(txs[i + 1..]));
        IdsSplit(txs, i);
        return DuplicateTransaction;
      }
      NoDupAppend(Ids(txs[..i]), tx.id);
      seen := seen + {tx.id};
      ghost var before := AllInputs(txs[..i]);
      var j := 0;
      while j < |tx.inputs|
        invariant 0 <= j <= |tx.inputs|
        invariant spent == Elems(before + tx.inputs[..j]) && NoDup(before + tx.inputs[..j])
      {
        var o := tx.inputs[j];
        if o in spent {
          DuplicateStays(before + tx.inputs[..j], o, tx.inputs[j + 1..] + AllInputs(txs[i + 1..]));
          InputsSplit(txs, i, j);
          return AlreadySpent(o);
        }
        NoDupAppend(before + tx.inputs[..j], o);
        spent := spent + {o};
        assert before + tx.inputs[..j] + [o] == before + tx.inputs[..j + 1];
        j := j + 1;
      }
      assert before + tx.inputs[..j] == before + tx.inputs;
      i := i + 1;
    }
    assert txs[..i] == txs;
    return Accepted;
  }

  lemma PrefixStep(txs: seq<Tx>, i: nat)
    requires i < |txs|
    ensures Ids(txs[..i + 1]) == Ids(txs[..i]) + [txs[i].id]
    ensures AllInputs(txs[..i + 1]) == AllInputs(txs[..i]) + txs[i].inputs
  {
    assert txs[..i + 1][..i] == txs[..i];
  }

  lemma DuplicateStays<T>(front: seq<T>, x: T, rest: seq<T>)
    requires x in front
    ensures !NoDup(front + [x] + rest) && x in front + [x] + rest
  {
    var k :| 0 <= k < |front| && front[k] == x;
    var all := front + [x] + rest;
    assert all[k] == all[|front|] == x;
  }

  lemma IdsSplit(txs: seq<Tx>, i: nat)
    requires i < |txs|
    ensures Ids(txs) == Ids(txs[..i]) + [txs[i].id] + Ids(txs[i + 1..])
  {
  }

  lemma {:induction false} AllInputsAppend(a: seq<Tx>, b: seq<Tx>)
    ensures AllInputs(a + b) == AllInputs(a) + AllInputs(b)
    decreases |b|
  {
    if b == [] {
      assert a + b == a;
    } else {
      var front := b[..|b| - 1];
      AllInputsAppend(a, front);
      assert (a + b)[..|a + b| - 1] == a + front;
    }
  }

  lemma InputsSplit(txs: seq<Tx>, i: nat, j: nat)
    requires i < |txs| && j < |txs[i].inputs|
    ensures AllInputs(txs) == AllInputs(txs[..i]) + txs[i].inputs[..j] + [txs[i].inputs[j]] +
                              (txs[i].inputs[j + 1..] + AllInputs(txs[i + 1..]))
  {
    assert txs == txs[..i + 1] + txs[i + 1..];
    AllInputsAppend(txs[..i + 1], txs[i + 1..]);
    PrefixStep(txs, i);
    SplitAround(AllInputs(txs[..i]), txs[i].inputs, j, AllInputs(txs[i + 1..]));
  }

  lemma SplitAround<T>(front: seq<T>, s: seq<T>, j: nat, back: seq<T>)
    requires j < |s|
    ensures front + s + back == front + s[..j] + [s[j]] + (s[j + 1..] + back)
  {
  }

  // ----- the candidate -----

  function Retrieved(pool: map<Hash, Tx>, hashes: seq<Hash>): seq<Tx> {
    if hashes == [] then []
    else Retrieved(pool, hashes[..|hashes| - 1]) +
         (if hashes[|hashes| - 1] in pool then [pool[hashes[|hashes| - 1]]] else [])
  }

  /** The pool files transactions under their ids, and the engine knows their claims. */
  ghost predicate PoolRegistered(pool: map<Hash, Tx>, spends: map<Hash, set<Hash>>) {
    && (forall h :: h in pool ==> pool[h].id == h)
    && (forall h, o :: h in pool && h in spends && o in pool[h].inputs ==> o.0 in spends[h])
  }

  method Retrieve(pool: map<Hash, Tx>, hashes: seq<Hash>) returns (txs: seq<Tx>)
    ensures txs == Retrieved(pool, hashes)
  {
    txs := [];
    var i := 0;
    while i < |hashes|
      invariant 0 <= i <= |hashes| && txs == Retrieved(pool, hashes[..i])
    {
      var h := hashes[i];
      assert hashes[..i + 1][..i] == hashes[..i];
      if h in pool {
        txs := txs + [pool[h]];
      }
      i := i + 1;
    }
    assert hashes[..i] == hashes;
  }

  method PrepareBlockCandidate(engine: Engine, pool: map<Hash, Tx>, score: TxNode -> int, max: nat)
    returns (v: Verdict, txs: seq<Tx>, ghost c: Choice, ghost order: Ordering)
    requires engine.Valid() && PoolRegistered(pool, engine.spends)
    modifies engine`cachedOrdering
    ensures engine.Valid() && IsCanonical(engine.nodes.Keys, engine.dependencyMap, order)
    ensures c == Greedy(engine.nodes, engine.conflictMap, max, NOTHING, order.ordered)
    ensures txs == Retrieved(pool, c.selected)
    ensures v == Accepted <==> forall tx :: tx in txs ==> NoDup(tx.inputs)
  {
    var choice, _, o := BuildBlockCanonical(engine, score, max);
    c, order := choice, o;
    txs := Retrieve(pool, choice.selected);
    v := VerifyCanonicalOrder(txs);
    SelectedApart(engine.nodes, engine.spends, engine.utxoIndex, engine.dependencyMap, engine.conflictMap, max, order, c);
    CandidateAccepted(pool, engine.spends, c.selected);
  }

  lemma SelectedApart(nodes: map<Hash, TxNode>, spends: map<Hash, set<Hash>>, index: Lists, deps: Lists, conflicts: Lists,
                      max: nat, o: Ordering, c: Choice)
    requires IndexExact(nodes.Keys, spends, index) && ConflictsRecorded(index, conflicts)
    requires IsCanonical(nodes.Keys, deps, o)
    requires c == Greedy(nodes, conflicts, max, NOTHING, o.ordered)
    ensures NoDup(c.selected) && Elems(c.selected) <= spends.Keys
    ensures forall a, b :: 0 <= a < b < |c.selected| ==> Apart(spends, c.selected, a, b)
  {
    BlockIsGreedy(nodes, deps, conflicts, max, o, c);
    forall a, b | 0 <= a < b < |c.selected|
      ensures Apart(spends, c.selected, a, b)
    {
      BlockConflictFree(nodes, spends, index, deps, conflicts, max, o, c, a, b);
    }
  }

  ghost predicate Apart(spends: map<Hash, set<Hash>>, selected: seq<Hash>, a: nat, b: nat) {
    a < b < |selected| && selected[a] in spends && selected[b] in spends && spends[selected[a]] * spends[selected[b]] == {}
  }

  /** A conflict-free selection can only fail the check on a transaction that spends one of its own inputs twice. */
  lemma {:induction false} CandidateAccepted(pool: map<Hash, Tx>, spends: map<Hash, set<Hash>>, selected: seq<Hash>)
    requires PoolRegistered(pool, spends) && NoDup(selected) && Elems(selected) <= spends.Keys
    requires forall a, b :: 0 <= a < b < |selected| ==> Apart(spends, selected, a, b)
    ensures NoDup(Ids(Retrieved(pool, selected)))
    ensures NoDup(AllInputs(Retrieved(pool, selected))) <==> forall tx :: tx in Retrieved(pool, selected) ==> NoDup(tx.inputs)
  {
    if selected == [] {
    } else {
      var n := |selected| - 1;
      var front, last := selected[..n], selected[n];
      assert selected == front + [last];
      forall a, b | 0 <= a < b < |front|
        ensures Apart(spends, front, a, b)
      {
        assert Apart(spends, selected, a, b);
      }
      CandidateAccepted(pool, spends, front);
      if last in pool {
        var txs := Retrieved(pool, front);
        var tx := pool[last];
        var all := txs + [tx];
        assert all[..|txs|] == txs;
        assert Ids(all) == Ids(txs) + [last];
        forall i | 0 <= i < |txs|
          ensures txs[i].id != last
        {
          RetrievedFrom(pool, front, txs[i]);
        }
        NoSharedInput(pool, spends, selected);
        NoDupConcat(AllInputs(txs), tx.inputs);
      } else {
        assert Retrieved(pool, selected) == Retrieved(pool, front);
      }
    }
  }

  lemma {:induction false} RetrievedFrom(pool: map<Hash, Tx>, hashes: seq<Hash>, tx: Tx)
    requires tx in Retrieved(pool, hashes)
    ensures exists i :: 0 <= i < |hashes| && hashes[i] in pool && pool[hashes[i]] == tx
  {
    var n := |hashes| - 1;
    if tx in Retrieved(pool, hashes[..n]) {
      RetrievedFrom(pool, hashes[..n], tx);
      var i :| 0 <= i < n && hashes[..n][i] in pool && pool[hashes[..n][i]] == tx;
      assert hashes[i] == hashes[..n][i];
    } else {
      assert hashes[n] in pool && pool[hashes[n]] == tx;
    }
  }

  lemma {:induction false} InputFrom(txs: seq<Tx>, o: OutPoint)
    requires o in AllInputs(txs)
    ensures exists tx :: tx in txs && o in tx.inputs
  {
    var n := |txs| - 1;
    if o in AllInputs(txs[..n]) {
      InputFrom(txs[..n], o);
    } else {
      assert txs[n] in txs && o in txs[n].inputs;
    }
  }

  lemma NoSharedInput(pool: map<Hash, Tx>, spends: map<Hash, set<Hash>>, selected: seq<Hash>)
    requires PoolRegistered(pool, spends) && selected != [] && Elems(selected) <= spends.Keys
    requires forall a, b :: 0 <= a < b < |selected| ==> Apart(spends, selected, a, b)
    requires selected[|selected| - 1] in pool
    ensures Elems(AllInputs(Retrieved(pool, selected[..|selected| - 1]))) !! Elems(pool[selected[|selected| - 1]].inputs)
  {
    var n := |selected| - 1;
    var front, last := selected[..n], selected[n];
    forall o | o in AllInputs(Retrieved(pool, front))
      ensures o !in pool[last].inputs
    {
      InputFrom(Retrieved(pool, front), o);
      var tx :| tx in Retrieved(pool, front) && o in tx.inputs;
      RetrievedFrom(pool, front, tx);
      var i :| 0 <= i < |front| && front[i] in pool && pool[front[i]] == tx;
      assert Apart(spends, selected, i, n);
      assert o.0 in spends[selected[i]];
      assert o.0 !in spends[selected[i]] * spends[last];
    }
  }
}
