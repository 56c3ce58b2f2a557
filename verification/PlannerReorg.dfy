/**
 Reorganizations as the planner asks for them. `perform_reorganization` reverses the list of blocks to drop, so it
 expects the oldest first; the planner `reorganize_to_tip` lists the tip first, and the oldest block is undone first.
 */
module PlannerReorg {
  import opened Basics
  import opened Ledger
  import opened ChainState
  import opened ChainUndo
  import opened ChainReorg
  import opened ReorgOrder

  function Reverse(blocks: seq<Block>): seq<Block> {
    if blocks == [] then [] else Reverse(blocks[1..]) + [blocks[0]]
  }

  lemma {:induction false} ReverseAll(blocks: seq<Block>)
    ensures |Reverse(blocks)| == |blocks|
    ensures forall k :: 0 <= k < |blocks| ==> Reverse(blocks)[k] == blocks[|blocks| - 1 - k]
  {
    if blocks == [] {
    } else {
      ReverseAll(blocks[1..]);
    }
  }

  // ----- the planner -----

  /** Following selected parents from a block until `stop` is met or there is no parent. */
  function WalkBack(parent: map<Hash, Hash>, from: Option<Hash>, stop: Hash, fuel: nat): seq<Hash>
    decreases fuel
  {
    if fuel == 0 || from.None? || from.value == stop then []
    else
      var h := from.value;
      [h] + WalkBack(parent, if h in parent then Some(parent[h]) else None, stop, fuel - 1)
  }

  function Backwards(hashes: seq<Hash>): seq<Hash> {
    if hashes == [] then [] else Backwards(hashes[1..]) + [hashes[0]]
  }

  /** The blocks to drop as walked, then the blocks to connect turned round. */
  function PlanToTip(parent: map<Hash, Hash>, oldTip: Option<Hash>, newTip: Hash, ancestor: Hash, fuel: nat): seq<Hash> {
    WalkBack(parent, oldTip, ancestor, fuel) + Backwards(WalkBack(parent, Some(newTip), ancestor, fuel))
  }

  /** A branch on top of `stop`, oldest first. */
  ghost predicate Branch(parent: map<Hash, Hash>, stop: Hash, hashes: seq<Hash>) {
    forall i :: 0 <= i < |hashes| ==> LinkAt(parent, stop, hashes, i)
  }

  ghost predicate LinkAt(parent: map<Hash, Hash>, stop: Hash, hashes: seq<Hash>, i: nat)
    requires i < |hashes|
  {
    && hashes[i] != stop && hashes[i] in parent
    && parent[hashes[i]] == if i == 0 then stop else hashes[i - 1]
  }

  function TipOf(stop: Hash, hashes: seq<Hash>): Hash {
    if hashes == [] then stop else hashes[|hashes| - 1]
  }

  lemma {:induction false} WalkIsTipFirst(parent: map<Hash, Hash>, stop: Hash, hashes: seq<Hash>, fuel: nat)
    requires Branch(parent, stop, hashes) && fuel > |hashes|
    ensures WalkBack(parent, Some(TipOf(stop, hashes)), stop, fuel) == Backwards(hashes)
    decreases hashes
  {
    if hashes == [] {
    } else {
      var front, last := hashes[..|hashes| - 1], hashes[|hashes| - 1];
      assert LinkAt(parent, stop, hashes, |hashes| - 1);
      assert Branch(parent, stop, front) by {
        forall i | 0 <= i < |front|
          ensures LinkAt(parent, stop, front, i)
        {
          assert LinkAt(parent, stop, hashes, i);
        }
      }
      WalkIsTipFirst(parent, stop, front, fuel - 1);
      BackwardsSnoc(front, last);
      assert front + [last] == hashes;
    }
  }

  lemma {:induction false} BackwardsSnoc(front: seq<Hash>, last: Hash)
    ensures Backwards(front + [last]) == [last] + Backwards(front)
  {
    if front != [] {
      assert (front + [last])[1..] == front[1..] + [last];
      BackwardsSnoc(front[1..], last);
    } else {
      assert front + [last] == [last];
    }
  }

  lemma {:induction false} BackwardsTwice(hashes: seq<Hash>)
    ensures Backwards(Backwards(hashes)) == hashes
  {
    if hashes == [] {
    } else {
      BackwardsTwice(hashes[1..]);
      BackwardsSnoc(Backwards(hashes[1..]), hashes[0]);
    }
  }

  function IdList(blocks: seq<Block>): seq<Hash> {
    seq(|blocks|, i requires 0 <= i < |blocks| => blocks[i].id)
  }

  ghost predicate Files(dag: Dag, blocks: seq<Block>) {
    forall i :: 0 <= i < |blocks| ==> FiledAt(dag, blocks, i)
  }

  ghost predicate FiledAt(dag: Dag, blocks: seq<Block>, i: nat)
    requires i < |blocks|
  {
    blocks[i].id in dag && dag[blocks[i].id] == blocks[i]
  }

  lemma {:induction false} KnownAll(dag: Dag, blocks: seq<Block>)
    requires Files(dag, blocks)
    ensures KnownBlocks(dag, IdList(blocks)) == blocks
  {
    if blocks == [] {
    } else {
      var front := blocks[..|blocks| - 1];
      assert FiledAt(dag, blocks, |blocks| - 1);
      forall i | 0 <= i < |front|
        ensures FiledAt(dag, front, i)
      {
        assert FiledAt(dag, blocks, i);
      }
      KnownAll(dag, front);
      assert IdList(blocks)[..|blocks| - 1] == IdList(front);
    }
  }

  lemma {:induction false} BackwardsIds(blocks: seq<Block>)
    ensures Backwards(IdList(blocks)) == IdList(Reverse(blocks))
  {
    if blocks == [] {
    } else {
      BackwardsIds(blocks[1..]);
      assert IdList(blocks)[1..] == IdList(blocks[1..]);
      assert IdList(Reverse(blocks)) == IdList(Reverse(blocks[1..])) + [blocks[0].id];
    }
  }

  lemma FilesReverse(dag: Dag, blocks: seq<Block>)
    requires Files(dag, blocks)
    ensures Files(dag, Reverse(blocks))
  {
    ReverseAll(blocks);
    forall i | 0 <= i < |Reverse(blocks)|
      ensures FiledAt(dag, Reverse(blocks), i)
    {
      assert FiledAt(dag, blocks, |blocks| - 1 - i);
    }
  }

  lemma FilesConcat(dag: Dag, xs: seq<Block>, ys: seq<Block>)
    requires Files(dag, xs) && Files(dag, ys)
    ensures Files(dag, xs + ys)
  {
    forall i | 0 <= i < |xs + ys|
      ensures FiledAt(dag, xs + ys, i)
    {
      if i < |xs| {
        assert FiledAt(dag, xs, i);
      } else {
        assert FiledAt(dag, ys, i - |xs|);
      }
    }
  }

  lemma PlanOfBranches(parent: map<Hash, Hash>, stop: Hash, drop: seq<Hash>, add: seq<Hash>, fuel: nat)
    requires Branch(parent, stop, drop) && Branch(parent, stop, add)
    requires fuel > |drop| && fuel > |add|
    ensures PlanToTip(parent, Some(TipOf(stop, drop)), TipOf(stop, add), stop, fuel) == Backwards(drop) + add
  {
    WalkIsTipFirst(parent, stop, drop, fuel);
    WalkIsTipFirst(parent, stop, add, fuel);
    BackwardsTwice(add);
  }

  lemma KnownTipFirst(dag: Dag, drop: seq<Block>, add: seq<Block>)
    requires Files(dag, drop) && Files(dag, add)
    ensures KnownBlocks(dag, Backwards(IdList(drop)) + IdList(add)) == Reverse(drop) + add
  {
    BackwardsIds(drop);
    assert IdList(Reverse(drop)) + IdList(add) == IdList(Reverse(drop) + add);
    FilesReverse(dag, drop);
    FilesConcat(dag, Reverse(drop), add);
    KnownAll(dag, Reverse(drop) + add);
  }

  /**
   The planner's list for two branches on a common ancestor: the branch to drop tip first, then the branch to connect
   from the ancestor up.
   */
  lemma PlannerOrder(parent: map<Hash, Hash>, dag: Dag, ancestor: Hash, drop: seq<Block>, add: seq<Block>, fuel: nat)
    requires Branch(parent, ancestor, IdList(drop)) && Branch(parent, ancestor, IdList(add))
    requires Files(dag, drop) && Files(dag, add)
    requires fuel > |drop| && fuel > |add|
    ensures var plan := PlanToTip(parent, Some(TipOf(ancestor, IdList(drop))), TipOf(ancestor, IdList(add)), ancestor, fuel);
            KnownBlocks(dag, plan) == Reverse(drop) + add
  {
    PlanOfBranches(parent, ancestor, IdList(drop), IdList(add), fuel);
    KnownTipFirst(dag, drop, add);
  }

  // ----- disconnecting a list that has the tip first -----

  ghost predicate HasRecords(s: Core, blocks: seq<Block>, records: seq<Undo>) {
    && |records| == |blocks|
    && forall i :: 0 <= i < |blocks| ==> blocks[i].id in s.undo && s.undo[blocks[i].id].ledger == records[i]
  }

  lemma HasRecordsTail(s: Core, blocks: seq<Block>, records: seq<Undo>, s1: Core)
    requires blocks != [] && DistinctIds(blocks) && HasRecords(s, blocks, records)
    requires s1.undo == s.undo - {blocks[0].id}
    ensures DistinctIds(blocks[1..]) && HasRecords(s1, blocks[1..], records[1..])
  {
    var rest := blocks[1..];
    assert forall i :: 0 <= i < |rest| ==> rest[i] == blocks[i + 1];
    forall i | 0 <= i < |rest|
      ensures rest[i].id in s1.undo && s1.undo[rest[i].id].ledger == records[1..][i]
    {
      assert blocks[i + 1].id in s.undo && blocks[0].id != blocks[i + 1].id;
    }
  }

  lemma PopMore<T>(s: seq<T>, n: nat)
    ensures Pop(Pop(s, 1), n) == Pop(s, n + 1)
    ensures Pop(s, 0) == s
  {
  }

  /** Disconnecting the reversed list undoes the blocks oldest first. */
  lemma {:induction false} TipFirstDisconnects(s: Core, blocks: seq<Block>, records: seq<Undo>)
    requires DistinctIds(blocks) && HasRecords(s, blocks, records)
    ensures var (s1, outcome) := DisconnectAll(s, Reverse(blocks));
            && outcome == Done && s1.undo == s.undo - Ids(blocks)
            && s1.utxo == OldestFirst(s.utxo, records) && s1.supply == SupplyOldestFirst(s.supply, records)
            && s1.height == SatSub(s.height, |blocks|)
            && s1.snapshots == Pop(s.snapshots, |blocks|) && s1.storages == Pop(s.storages, |blocks|)
    decreases blocks
  {
    if blocks == [] {
      PopMore(s.snapshots, 0);
      PopMore(s.storages, 0);
      assert s.undo - Ids(blocks) == s.undo;
    } else {
      var b, rest := blocks[0], blocks[1..];
      var plan := Reverse(blocks);
      assert plan[|plan| - 1] == b && plan[..|plan| - 1] == Reverse(rest);
      assert blocks[0].id in s.undo;
      var s1 := Disconnect(s, b).0;
      HasRecordsTail(s, blocks, records, s1);
      TipFirstDisconnects(s1, rest, records[1..]);
      PopMore(s.snapshots, |rest|);
      PopMore(s.storages, |rest|);
      IdsSnoc(rest, b);
      assert blocks == [b] + rest;
      MinusMinus(s.undo, {b.id}, Ids(rest));
      assert Ids(rest) + {b.id} == Ids(blocks);
    }
  }

  /**
   Dropping blocks through a list that has the tip first: it always ends, and with fresh outputs UTXO set, supply and
   height are those of the base exactly when no dropped block spends an output of a dropped block.
   */
  lemma TipFirstIff(s: Core, a: Account, drop: seq<Block>)
    requires Backed(a.utxo, a.supply) && GrowAll(a, drop) == Some(View(s))
    requires Fresh(a.utxo, AllOps(drop)) && DistinctIds(drop)
    requires HasRecords(s, drop, Records(a, drop))
    ensures var (s1, outcome) := DisconnectAll(s, Reverse(drop));
            && outcome == Done && s1.undo == s.undo - Ids(drop)
            && (s1.utxo == a.utxo <==> Apart(Records(a, drop)))
            && (View(s1) == a <==> Apart(Records(a, drop)))
  {
    TipFirstDisconnects(s, drop, Records(a, drop));
    OldestFirstIff(a, drop);
    GrowAllHeight(a, drop);
    if Apart(Records(a, drop)) {
      ApartSupplyBack(a, drop);
    }
  }

  lemma {:induction false} GrowAllHeight(a: Account, blocks: seq<Block>)
    requires GrowAll(a, blocks).Some?
    ensures GrowAll(a, blocks).value.height == a.height + |blocks|
    decreases blocks
  {
    if blocks == [] {
    } else {
      GrowAllHeight(Grow(a, blocks[0]).value, blocks[1..]);
    }
  }

  // ----- on a chain -----

  lemma {:induction false} FoldGrowAll(base: seq<Block>, blocks: seq<Block>)
    requires Fold(base + blocks).Some?
    ensures Fold(base).Some? && Fold(base + blocks) == GrowAll(Fold(base).value, blocks)
    decreases blocks
  {
    if blocks == [] {
      assert base + blocks == base;
    } else {
      var b := blocks[0];
      assert base + blocks == (base + [b]) + blocks[1..];
      FoldGrowAll(base + [b], blocks[1..]);
      FoldSnoc(base, b);
    }
  }

  lemma HasRecordsHead(s: Core, b: Block, r: Undo, rest: seq<Block>, records: seq<Undo>)
    requires b.id in s.undo && s.undo[b.id].ledger == r && HasRecords(s, rest, records)
    ensures HasRecords(s, [b] + rest, [r] + records)
  {
    var blocks, all := [b] + rest, [r] + records;
    forall i | 0 <= i < |blocks|
      ensures blocks[i].id in s.undo && s.undo[blocks[i].id].ledger == all[i]
    {
      if i > 0 {
        assert blocks[i] == rest[i - 1] && all[i] == records[i - 1];
      }
    }
  }

  /** What the state recorded for the first block after `base`. */
  lemma FirstRecord(s: Core, base: seq<Block>, b: Block, rest: seq<Block>)
    requires Tracks(s, base + ([b] + rest)) && Recorded(s, base + ([b] + rest), |base|)
    requires Fold(base).Some? && Grow(Fold(base).value, b).Some?
    ensures b.id in s.undo
    ensures s.undo[b.id].ledger == OpenBooks(Fold(base).value.utxo, Fold(base).value.supply, b).value.undo
  {
    var chain := base + ([b] + rest);
    assert chain[..|base|] == base && chain[|base|] == b;
    assert chain[|base|].id in s.undo;
    assert RecordRightAt(s.undo, chain, |base|);
  }

  lemma {:induction false} RecordsOnChain(s: Core, base: seq<Block>, drop: seq<Block>)
    requires Tracks(s, base + drop) && Recorded(s, base + drop, |base|)
    ensures Fold(base).Some? && HasRecords(s, drop, Records(Fold(base).value, drop))
    decreases drop
  {
    FoldGrowAll(base, drop);
    if drop == [] {
    } else {
      var b, rest := drop[0], drop[1..];
      var a := Fold(base).value;
      assert drop == [b] + rest && base + drop == (base + [b]) + rest;
      RecordsOnChain(s, base + [b], rest);
      FoldSnoc(base, b);
      FirstRecord(s, base, b, rest);
      HasRecordsHead(s, b, OpenBooks(a.utxo, a.supply, b).value.undo, rest, Records(Grow(a, b).value, rest));
    }
  }

  lemma {:induction false} FreshOnChain(base: seq<Block>, drop: seq<Block>)
    requires Fold(base + drop).Some? && FreshChain(base + drop)
    ensures Fold(base).Some? && FreshAll(Fold(base).value, drop)
    decreases drop
  {
    FoldGrowAll(base, drop);
    if drop == [] {
    } else {
      var b, rest := drop[0], drop[1..];
      var chain := base + drop;
      assert chain == (base + [b]) + rest;
      FreshOnChain(base + [b], rest);
      FoldSnoc(base, b);
      assert FreshAt(chain, |base|);
      assert chain[..|base|] == base && chain[|base|] == b;
    }
  }

  /** No block of `drop`, connected on `base`, spends an output that a block of `drop` creates. */
  ghost predicate ApartOn(base: seq<Block>, drop: seq<Block>) {
    Fold(base).Some? ==> Apart(Records(Fold(base).value, drop))
  }

  /** Then the planner's list unwinds too. */
  lemma TipFirstSuffix(s: Core, base: seq<Block>, drop: seq<Block>)
    requires Tracks(s, base + drop) && Recorded(s, base + drop, |base|)
    requires FreshChain(base + drop) && ApartOn(base, drop)
    ensures Unwinds(s, base, drop, Reverse(drop))
  {
    FoldGrowAll(base, drop);
    RecordsOnChain(s, base, drop);
    FreshOnChain(base, drop);
    FoldBacked(base);
    var a := Fold(base).value;
    ApartFresh(a, drop);
    DropDistinct(base, drop);
    TipFirstIff(s, a, drop);
    TipFirstDisconnects(s, drop, Records(a, drop));
    DropKeeps(s, base, drop, DisconnectAll(s, Reverse(drop)).0);
    RecordedReverse(s, base, drop);
  }

  lemma RecordedReverse(s: Core, base: seq<Block>, drop: seq<Block>)
    requires Recorded(s, base + drop, |base|)
    ensures Recorded(s, Reverse(drop), 0)
  {
    ReverseAll(drop);
    RecordedSuffix(s, base, drop);
    forall k | 0 <= k < |drop|
      ensures Reverse(drop)[k].id in s.undo
    {
      assert drop[|drop| - 1 - k].id in s.undo;
    }
  }

  lemma DropDistinct(base: seq<Block>, drop: seq<Block>)
    requires DistinctIds(base + drop)
    ensures DistinctIds(base) && DistinctIds(drop)
    ensures forall i :: 0 <= i < |base| ==> base[i].id !in Ids(drop)
  {
    DistinctPrefix(base, drop);
    assert forall i :: 0 <= i < |drop| ==> drop[i] == (base + drop)[|base| + i];
    assert forall i :: 0 <= i < |base| ==> base[i] == (base + drop)[i];
  }

  /** What dropping a suffix does to undo records and snapshots, whatever it does to the account. */
  lemma DropKeeps(s: Core, base: seq<Block>, drop: seq<Block>, s1: Core)
    requires Tracks(s, base + drop) && s1.undo == s.undo - Ids(drop)
    requires s1.snapshots == Pop(s.snapshots, |drop|) && s1.storages == Pop(s.storages, |drop|)
    ensures DistinctIds(base) && RecordsRight(s1.undo, base)
    ensures SnapshotsFollow(s, base + drop) ==> SnapshotsFollow(s1, base)
  {
    var chain := base + drop;
    DropDistinct(base, drop);
    forall i | 0 <= i < |base|
      ensures RecordRightAt(s1.undo, base, i)
    {
      assert RecordRightAt(s.undo, chain, i);
      assert chain[..i] == base[..i] && chain[i] == base[i];
    }
    if SnapshotsFollow(s, chain) {
      forall i | 0 <= i <= |base|
        ensures SnapshotAt(s1, base, i)
      {
        assert SnapshotAt(s, chain, i);
        assert s1.snapshots[i] == s.snapshots[i];
        assert chain[..i] == base[..i];
      }
    }
  }

  /**
   That condition is the exact one for dropping where output ids are never used twice: the planner's list leads from
   base + drop back to base if and only if it holds.
   */
  lemma PlannedUnwindsIff(s: Core, base: seq<Block>, drop: seq<Block>)
    requires Tracks(s, base + drop) && Recorded(s, base + drop, |base|) && FreshChain(base + drop)
    requires Fold(base).Some? ==> Fresh(Fold(base).value.utxo, AllOps(drop))
    ensures Unwinds(s, base, drop, Reverse(drop)) <==> ApartOn(base, drop)
  {
    if ApartOn(base, drop) {
      TipFirstSuffix(s, base, drop);
    } else {
      FoldGrowAll(base, drop);
      RecordsOnChain(s, base, drop);
      FoldBacked(base);
      DropDistinct(base, drop);
      TipFirstIff(s, Fold(base).value, drop);
    }
  }

  /** A single dropped block always meets it. */
  lemma ShortDropApart(base: seq<Block>, drop: seq<Block>)
    requires Fold(base + drop).Some? && FreshChain(base + drop) && |drop| <= 1
    ensures ApartOn(base, drop)
  {
    FreshOnChain(base, drop);
    FoldGrowAll(base, drop);
    AtMostOneApart(Fold(base).value, drop);
  }
}
