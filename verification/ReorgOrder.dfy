/**
 Undoing the records of consecutive blocks in the wrong order, oldest first: when the UTXO set and the supply
 nevertheless come back.
 */
module ReorgOrder {
  import opened Basics
  import opened Ledger
  import opened ChainState
  import opened ChainUndo
  import opened ChainSupply
  import opened ChainReorg

  /** The undo records of consecutive blocks grown on an account. */
  function Records(a: Account, blocks: seq<Block>): seq<Undo>
    decreases blocks
  {
    if blocks == [] || Grow(a, blocks[0]).None? then []
    else [OpenBooks(a.utxo, a.supply, blocks[0]).value.undo] + Records(Grow(a, blocks[0]).value, blocks[1..])
  }

  function GrowAll(a: Account, blocks: seq<Block>): Option<Account>
    decreases blocks
  {
    if blocks == [] then Some(a)
    else
      match Grow(a, blocks[0])
      case None => None
      case Some(a1) => GrowAll(a1, blocks[1..])
  }

  function AllOps(blocks: seq<Block>): seq<Op> {
    if blocks == [] then [] else BlockOps(blocks[0].txs) + AllOps(blocks[1..])
  }

  /** Undoing records first to last. */
  function OldestFirst(u: UtxoMap, records: seq<Undo>): UtxoMap
    decreases records
  {
    if records == [] then u else OldestFirst(UndoUtxo(u, records[0]), records[1..])
  }

  ghost predicate CreatedIn(records: seq<Undo>, o: OutPoint) {
    exists i :: 0 <= i < |records| && o in records[i].created
  }

  ghost predicate SpentIn(records: seq<Undo>, o: OutPoint) {
    exists i :: 0 <= i < |records| && IsSpent(records[i].spent, o)
  }

  /** No outpoint is both created and spent by these records. */
  ghost predicate Apart(records: seq<Undo>) {
    forall o :: !(CreatedIn(records, o) && SpentIn(records, o))
  }

  lemma HeadRecord(r: Undo, records: seq<Undo>, o: OutPoint)
    ensures CreatedIn([r] + records, o) <==> o in r.created || CreatedIn(records, o)
    ensures SpentIn([r] + records, o) <==> IsSpent(r.spent, o) || SpentIn(records, o)
  {
    var all := [r] + records;
    assert all[0] == r;
    assert forall i :: 0 <= i < |records| ==> all[i + 1] == records[i];
  }

  // ----- freshness over several blocks -----

  lemma {:induction false} CreatedPointsAppend(xs: seq<Op>, ys: seq<Op>)
    ensures CreatedPoints(xs + ys) == CreatedPoints(xs) + CreatedPoints(ys)
  {
    if xs == [] {
      assert xs + ys == ys;
    } else {
      assert (xs + ys)[1..] == xs[1..] + ys;
      CreatedPointsAppend(xs[1..], ys);
    }
  }

  lemma {:induction false} RunKeysWithin(b: Books, ops: seq<Op>, o: OutPoint)
    requires Run(b, ops).Some? && o in Run(b, ops).value.utxo
    ensures o in b.utxo || o in CreatedPoints(ops)
    decreases ops
  {
    if ops == [] {
    } else {
      RunKeysWithin(Step(b, ops[0]).value, ops[1..], o);
    }
  }

  /** What the first block of a fresh list leaves the rest with. */
  lemma FreshTail(a: Account, b: Block, rest: seq<Block>)
    requires Grow(a, b).Some? && Fresh(a.utxo, BlockOps(b.txs) + AllOps(rest))
    ensures Fresh(a.utxo, BlockOps(b.txs)) && Fresh(Grow(a, b).value.utxo, AllOps(rest))
    ensures forall o :: o in CreatedPoints(BlockOps(b.txs)) ==> o !in CreatedPoints(AllOps(rest))
  {
    var first, later := CreatedPoints(BlockOps(b.txs)), CreatedPoints(AllOps(rest));
    CreatedPointsAppend(BlockOps(b.txs), AllOps(rest));
    var all := first + later;
    assert forall i :: 0 <= i < |first| ==> all[i] == first[i];
    assert forall i :: 0 <= i < |later| ==> all[|first| + i] == later[i];
    assert NoDup(first) && NoDup(later);
    forall o | o in later
      ensures o !in Grow(a, b).value.utxo
    {
      assert o in all;
      if o in Grow(a, b).value.utxo {
        RunKeysWithin(Books(a.utxo, a.supply, NO_UNDO), BlockOps(b.txs), o);
      }
    }
  }

  /** The record of one fresh block: created outpoints were not live and are not spent, spent ones were live. */
  lemma RecordFacts(a: Account, b: Block)
    requires Grow(a, b).Some? && Fresh(a.utxo, BlockOps(b.txs))
    ensures var r := OpenBooks(a.utxo, a.supply, b).value.undo;
            && r.created == CreatedPoints(BlockOps(b.txs))
            && (forall o :: o in r.created ==> o !in a.utxo && !IsSpent(r.spent, o))
            && (forall o :: IsSpent(r.spent, o) ==> o in a.utxo)
  {
    RunRecord(Books(a.utxo, a.supply, NO_UNDO), BlockOps(b.txs));
    ValidInputsLive(a.utxo, b.txs);
    assert [] + CreatedPoints(BlockOps(b.txs)) == CreatedPoints(BlockOps(b.txs));
  }

  lemma {:induction false} RecordsCreate(a: Account, blocks: seq<Block>, o: OutPoint)
    requires GrowAll(a, blocks).Some? && Fresh(a.utxo, AllOps(blocks))
    ensures |Records(a, blocks)| == |blocks|
    ensures CreatedIn(Records(a, blocks), o) <==> o in CreatedPoints(AllOps(blocks))
    decreases blocks
  {
    if blocks == [] {
    } else {
      var b, rest := blocks[0], blocks[1..];
      var a1 := Grow(a, b).value;
      FreshTail(a, b, rest);
      RecordFacts(a, b);
      RecordsCreate(a1, rest, o);
      CreatedPointsAppend(BlockOps(b.txs), AllOps(rest));
      HeadRecord(OpenBooks(a.utxo, a.supply, b).value.undo, Records(a1, rest), o);
    }
  }

  // ----- undoing oldest first -----

  /** An outpoint no block created is brought back if it was spent, and untouched otherwise. */
  lemma {:induction false} OldestFirstOutside(u: UtxoMap, records: seq<Undo>, o: OutPoint)
    requires !CreatedIn(records, o)
    ensures o in OldestFirst(u, records) <==> o in u || SpentIn(records, o)
    ensures !SpentIn(records, o) && o in u ==> OldestFirst(u, records)[o] == u[o]
    decreases records
  {
    if records == [] {
    } else {
      var r, rest := records[0], records[1..];
      assert records == [r] + rest;
      HeadRecord(r, rest, o);
      RestoreLookup(u - Elems(r.created), r.spent, o);
      OldestFirstOutside(UndoUtxo(u, r), rest, o);
    }
  }

  /** A created outpoint survives exactly when a later block spent it. */
  lemma {:induction false} OldestFirstCreated(a: Account, blocks: seq<Block>, u: UtxoMap, o: OutPoint)
    requires GrowAll(a, blocks).Some? && Fresh(a.utxo, AllOps(blocks))
    requires o in CreatedPoints(AllOps(blocks))
    ensures o in OldestFirst(u, Records(a, blocks)) <==> SpentIn(Records(a, blocks), o)
    decreases blocks
  {
    var b, rest := blocks[0], blocks[1..];
    var a1 := Grow(a, b).value;
    var r, records := OpenBooks(a.utxo, a.supply, b).value.undo, Records(a1, rest);
    FreshTail(a, b, rest);
    RecordFacts(a, b);
    RecordsCreate(a1, rest, o);
    HeadRecord(r, records, o);
    CreatedPointsAppend(BlockOps(b.txs), AllOps(rest));
    assert Records(a, blocks) == [r] + records && ([r] + records)[1..] == records;
    if o in r.created {
      RestoreLookup(u - Elems(r.created), r.spent, o);
      OldestFirstOutside(UndoUtxo(u, r), records, o);
    } else {
      assert o !in a.utxo by {
        assert o in CreatedPoints(AllOps(blocks));
      }
      OldestFirstCreated(a1, rest, UndoUtxo(u, r), o);
    }
  }

  /** An outpoint of the base comes back with the output the base held. */
  lemma {:induction false} OldestFirstBase(a: Account, blocks: seq<Block>, u: UtxoMap, o: OutPoint)
    requires GrowAll(a, blocks).Some? && Fresh(a.utxo, AllOps(blocks))
    requires o in a.utxo
    requires o in u ==> u[o] == a.utxo[o]
    requires o in u || o !in GrowAll(a, blocks).value.utxo
    ensures o in OldestFirst(u, Records(a, blocks)) && OldestFirst(u, Records(a, blocks))[o] == a.utxo[o]
    decreases blocks
  {
    if blocks == [] {
    } else {
      var b, rest := blocks[0], blocks[1..];
      var a1 := Grow(a, b).value;
      var r, records := OpenBooks(a.utxo, a.supply, b).value.undo, Records(a1, rest);
      FreshTail(a, b, rest);
      RecordFacts(a, b);
      BooksRemember(a.utxo, a.supply, b);
      assert Records(a, blocks) == [r] + records && ([r] + records)[1..] == records;
      assert o !in r.created;
      assert RemembersAt(a.utxo, OpenBooks(a.utxo, a.supply, b).value, o);
      RestoreLookup(u - Elems(r.created), r.spent, o);
      if o in a1.utxo {
        OldestFirstBase(a1, rest, UndoUtxo(u, r), o);
      } else {
        CreatedPointsAppend(BlockOps(b.txs), AllOps(rest));
        SpentForGood(a1, rest, o);
        RecordsCreate(a1, rest, o);
        OldestFirstOutside(UndoUtxo(u, r), records, o);
      }
    }
  }

  /** An outpoint that is neither live nor created again is not spent again. */
  lemma {:induction false} SpentForGood(a: Account, blocks: seq<Block>, o: OutPoint)
    requires GrowAll(a, blocks).Some? && Fresh(a.utxo, AllOps(blocks))
    requires o !in a.utxo && o !in CreatedPoints(AllOps(blocks))
    ensures !SpentIn(Records(a, blocks), o) && o !in GrowAll(a, blocks).value.utxo
    decreases blocks
  {
    if blocks == [] {
    } else {
      var b, rest := blocks[0], blocks[1..];
      var a1 := Grow(a, b).value;
      FreshTail(a, b, rest);
      RecordFacts(a, b);
      CreatedPointsAppend(BlockOps(b.txs), AllOps(rest));
      if o in a1.utxo {
        RunKeysWithin(Books(a.utxo, a.supply, NO_UNDO), BlockOps(b.txs), o);
      }
      SpentForGood(a1, rest, o);
      HeadRecord(OpenBooks(a.utxo, a.supply, b).value.undo, Records(a1, rest), o);
    }
  }

  /** Undoing fresh blocks oldest first gives the base set back, plus every outpoint both created and spent. */
  lemma OldestFirstLookup(a: Account, blocks: seq<Block>, o: OutPoint)
    requires GrowAll(a, blocks).Some? && Fresh(a.utxo, AllOps(blocks))
    ensures var back := OldestFirst(GrowAll(a, blocks).value.utxo, Records(a, blocks));
            && (o in a.utxo ==> o in back && back[o] == a.utxo[o])
            && (o !in a.utxo ==> (o in back <==> CreatedIn(Records(a, blocks), o) && SpentIn(Records(a, blocks), o)))
    ensures o in a.utxo ==> !CreatedIn(Records(a, blocks), o)
  {
    var u := GrowAll(a, blocks).value.utxo;
    RecordsCreate(a, blocks, o);
    if o in a.utxo {
      if o in u {
        UntouchedValue(a, blocks, o);
      }
      OldestFirstBase(a, blocks, u, o);
    } else if o in CreatedPoints(AllOps(blocks)) {
      OldestFirstCreated(a, blocks, u, o);
    } else {
      SpentForGood(a, blocks, o);
      OldestFirstOutside(u, Records(a, blocks), o);
    }
  }

  /**
   Undoing a list of fresh blocks oldest first gives the base UTXO set back exactly when no block of the list
   spends an output that another block of the list created.
   */
  lemma OldestFirstIff(a: Account, blocks: seq<Block>)
    requires GrowAll(a, blocks).Some? && Fresh(a.utxo, AllOps(blocks))
    ensures var records := Records(a, blocks);
            OldestFirst(GrowAll(a, blocks).value.utxo, records) == a.utxo <==> Apart(records)
  {
    var records := Records(a, blocks);
    var back := OldestFirst(GrowAll(a, blocks).value.utxo, records);
    forall o
      ensures o in a.utxo ==> o in back && back[o] == a.utxo[o]
      ensures o !in a.utxo ==> (o in back <==> CreatedIn(records, o) && SpentIn(records, o))
    {
      OldestFirstLookup(a, blocks, o);
    }
    if Apart(records) {
      assert back.Keys == a.utxo.Keys;
    } else {
      var o :| CreatedIn(records, o) && SpentIn(records, o);
      OldestFirstLookup(a, blocks, o);
      assert o !in a.utxo && o in back;
    }
  }

  lemma {:induction false} UntouchedValue(a: Account, blocks: seq<Block>, o: OutPoint)
    requires GrowAll(a, blocks).Some? && Fresh(a.utxo, AllOps(blocks))
    requires o in a.utxo && o in GrowAll(a, blocks).value.utxo
    ensures GrowAll(a, blocks).value.utxo[o] == a.utxo[o]
    decreases blocks
  {
    if blocks == [] {
    } else {
      var b, rest := blocks[0], blocks[1..];
      var a1 := Grow(a, b).value;
      FreshTail(a, b, rest);
      RecordFacts(a, b);
      BooksRemember(a.utxo, a.supply, b);
      assert RemembersAt(a.utxo, OpenBooks(a.utxo, a.supply, b).value, o);
      if o !in a1.utxo {
        CreatedPointsAppend(BlockOps(b.txs), AllOps(rest));
        SpentForGood(a1, rest, o);
      } else {
        UntouchedValue(a1, rest, o);
      }
    }
  }

  // ----- the supply, undone oldest first -----

  function SupplyOldestFirst(supply: nat, records: seq<Undo>): nat
    decreases records
  {
    if records == [] then supply else SupplyOldestFirst(UndoSupply(supply, records[0].delta), records[1..])
  }

  /** The operations spend points of this set only, and create others only. */
  ghost predicate SpendsOnly(points: set<OutPoint>, ops: seq<Op>) {
    forall i :: 0 <= i < |ops| ==> SpendsOnlyAt(points, ops[i])
  }

  predicate SpendsOnlyAt(points: set<OutPoint>, op: Op) {
    op.Spend? <==> op.o in points
  }

  /** The value at these points. */
  ghost function Held(u: UtxoMap, points: set<OutPoint>): nat {
    Total(u - (u.Keys - points))
  }

  /** What a step takes off the delta it takes off the points it may spend. */
  lemma StepHeld(b: Books, op: Op, points: set<OutPoint>)
    requires Step(b, op).Some? && SpendsOnlyAt(points, op)
    ensures var b1 := Step(b, op).value;
            && Held(b1.utxo, points) <= Held(b.utxo, points)
            && b1.undo.delta - Held(b1.utxo, points) >= b.undo.delta - Held(b.utxo, points)
  {
    var b1 := Step(b, op).value;
    var was, now := b.utxo - (b.utxo.Keys - points), b1.utxo - (b1.utxo.Keys - points);
    match op
    case Spend(o) =>
      SumSplit(was, o, ValueOf);
      assert now == was - {o};
    case Create(o, out) =>
      assert now == was;
  }

  lemma {:induction false} RunHeld(b: Books, ops: seq<Op>, points: set<OutPoint>)
    requires Run(b, ops).Some? && SpendsOnly(points, ops)
    ensures var b1 := Run(b, ops).value;
            && Held(b1.utxo, points) <= Held(b.utxo, points)
            && b1.undo.delta - Held(b1.utxo, points) >= b.undo.delta - Held(b.utxo, points)
    decreases ops
  {
    if ops == [] {
    } else {
      assert SpendsOnlyAt(points, ops[0]);
      assert forall i :: 0 <= i < |ops[1..]| ==> ops[1..][i] == ops[i + 1];
      StepHeld(b, ops[0], points);
      RunHeld(Step(b, ops[0]).value, ops[1..], points);
    }
  }

  /** One block: the account stays backed, the supply moves by the recorded delta. */
  lemma GrowHeld(a: Account, b: Block, points: set<OutPoint>)
    requires Grow(a, b).Some? && Backed(a.utxo, a.supply) && SpendsOnly(points, BlockOps(b.txs))
    ensures var a1 := Grow(a, b).value;
            && Backed(a1.utxo, a1.supply)
            && a1.supply == a.supply + OpenBooks(a.utxo, a.supply, b).value.undo.delta
            && Held(a1.utxo, points) <= Held(a.utxo, points)
            && a1.supply - Held(a1.utxo, points) >= a.supply - Held(a.utxo, points)
  {
    NoSaturation(a.utxo, a.supply, b);
    RunHeld(Books(a.utxo, a.supply, NO_UNDO), BlockOps(b.txs), points);
  }

  lemma SpendsOnlySplit(points: set<OutPoint>, xs: seq<Op>, ys: seq<Op>)
    requires SpendsOnly(points, xs + ys)
    ensures SpendsOnly(points, xs) && SpendsOnly(points, ys)
  {
    assert forall i :: 0 <= i < |xs| ==> xs[i] == (xs + ys)[i];
    assert forall i :: 0 <= i < |ys| ==> ys[i] == (xs + ys)[|xs| + i];
  }

  lemma {:induction false} GrowAllHeld(a: Account, blocks: seq<Block>, points: set<OutPoint>)
    requires GrowAll(a, blocks).Some? && Backed(a.utxo, a.supply) && SpendsOnly(points, AllOps(blocks))
    ensures var f := GrowAll(a, blocks).value;
            && Backed(f.utxo, f.supply)
            && f.supply - Held(f.utxo, points) >= a.supply - Held(a.utxo, points)
    decreases blocks
  {
    if blocks == [] {
    } else {
      SpendsOnlySplit(points, BlockOps(blocks[0].txs), AllOps(blocks[1..]));
      GrowHeld(a, blocks[0], points);
      GrowAllHeld(Grow(a, blocks[0]).value, blocks[1..], points);
    }
  }

  /** No block raises the supply above this limit. */
  ghost predicate SupplyWithin(a: Account, blocks: seq<Block>, limit: nat)
    decreases blocks
  {
    blocks != [] && Grow(a, blocks[0]).Some? ==>
      Grow(a, blocks[0]).value.supply <= limit && SupplyWithin(Grow(a, blocks[0]).value, blocks[1..], limit)
  }

  /**
   Taking the deltas off first to last never ends below `back`, the supply without clamping. It ends there exactly when
   no block raises the supply above `back` and the last supply together.
   */
  lemma {:induction false} SupplyEnds(a: Account, blocks: seq<Block>, supply: nat, back: nat)
    requires GrowAll(a, blocks).Some? && Backed(a.utxo, a.supply)
    requires supply + a.supply == back + GrowAll(a, blocks).value.supply && back <= MAX_GLOBAL_SUPPLY
    ensures back <= SupplyOldestFirst(supply, Records(a, blocks)) <= MAX_GLOBAL_SUPPLY
    ensures SupplyOldestFirst(supply, Records(a, blocks)) == back <==>
              SupplyWithin(a, blocks, back + GrowAll(a, blocks).value.supply)
    decreases blocks
  {
    if blocks == [] {
    } else {
      var b, rest := blocks[0], blocks[1..];
      var a1, f := Grow(a, b).value, GrowAll(a, blocks).value;
      var r, records := OpenBooks(a.utxo, a.supply, b).value.undo, Records(a1, rest);
      NoSaturation(a.utxo, a.supply, b);
      GrowAllBacked(a1, rest);
      assert Records(a, blocks) == [r] + records && ([r] + records)[1..] == records;
      var next := supply - r.delta;
      assert next == back + f.supply - a1.supply;
      if next >= 0 {
        assert UndoSupply(supply, r.delta) == next;
        SupplyEnds(a1, rest, next, back);
      } else {
        assert UndoSupply(supply, r.delta) == 0;
        SupplyEnds(a1, rest, 0, a1.supply - f.supply);
      }
    }
  }

  lemma {:induction false} GrowAllBacked(a: Account, blocks: seq<Block>)
    requires GrowAll(a, blocks).Some? && Backed(a.utxo, a.supply)
    ensures Backed(GrowAll(a, blocks).value.utxo, GrowAll(a, blocks).value.supply)
    decreases blocks
  {
    if blocks == [] {
    } else {
      NoSaturation(a.utxo, a.supply, blocks[0]);
      GrowAllBacked(Grow(a, blocks[0]).value, blocks[1..]);
    }
  }

  /** Blocks that spend nothing but points that carry at most `back` stay within that limit. */
  lemma {:induction false} HeldWithin(a: Account, blocks: seq<Block>, points: set<OutPoint>, back: nat)
    requires GrowAll(a, blocks).Some? && Backed(a.utxo, a.supply) && SpendsOnly(points, AllOps(blocks))
    requires Held(a.utxo, points) <= back
    ensures SupplyWithin(a, blocks, back + GrowAll(a, blocks).value.supply)
    decreases blocks
  {
    if blocks == [] {
    } else {
      var a1 := Grow(a, blocks[0]).value;
      SpendsOnlySplit(points, BlockOps(blocks[0].txs), AllOps(blocks[1..]));
      GrowHeld(a, blocks[0], points);
      GrowAllHeld(a1, blocks[1..], points);
      HeldWithin(a1, blocks[1..], points, back);
    }
  }

  /** What a list of fresh blocks spends is recorded as spent. */
  lemma {:induction false} SpentRecorded(a: Account, blocks: seq<Block>, i: nat)
    requires GrowAll(a, blocks).Some? && i < |AllOps(blocks)| && AllOps(blocks)[i].Spend?
    ensures SpentIn(Records(a, blocks), AllOps(blocks)[i].o)
    decreases blocks
  {
    var b, rest := blocks[0], blocks[1..];
    var ops, o := BlockOps(b.txs), AllOps(blocks)[i].o;
    var r := OpenBooks(a.utxo, a.supply, b).value.undo;
    HeadRecord(r, Records(Grow(a, b).value, rest), o);
    if i < |ops| {
      RunRecord(Books(a.utxo, a.supply, NO_UNDO), ops);
      assert ops[i] == Spend(o);
    } else {
      assert AllOps(rest)[i - |ops|] == Spend(o);
      SpentRecorded(Grow(a, b).value, rest, i - |ops|);
    }
  }

  /** Blocks whose creations and spends stay apart spend base outputs only. */
  lemma ApartSpendsBase(a: Account, blocks: seq<Block>)
    requires GrowAll(a, blocks).Some? && Fresh(a.utxo, AllOps(blocks)) && Apart(Records(a, blocks))
    ensures SpendsOnly(a.utxo.Keys, AllOps(blocks))
  {
    var ops := AllOps(blocks);
    forall i | 0 <= i < |ops|
      ensures SpendsOnlyAt(a.utxo.Keys, ops[i])
    {
      if ops[i].Create? {
        CreatedPointsComplete(ops, i);
      } else {
        var o := ops[i].o;
        SpentRecorded(a, blocks, i);
        RecordsCreate(a, blocks, o);
        if o !in a.utxo {
          SpentForGood(a, blocks, o);
        }
      }
    }
  }

  /** The supply comes back along with the UTXO set. */
  lemma {:induction false} ApartSupplyBack(a: Account, blocks: seq<Block>)
    requires GrowAll(a, blocks).Some? && Fresh(a.utxo, AllOps(blocks)) && Apart(Records(a, blocks))
    requires Backed(a.utxo, a.supply)
    ensures SupplyOldestFirst(GrowAll(a, blocks).value.supply, Records(a, blocks)) == a.supply
    ensures SupplyWithin(a, blocks, a.supply + GrowAll(a, blocks).value.supply)
  {
    ApartSpendsBase(a, blocks);
    assert a.utxo - (a.utxo.Keys - a.utxo.Keys) == a.utxo;
    HeldWithin(a, blocks, a.utxo.Keys, a.supply);
    SupplyEnds(a, blocks, GrowAll(a, blocks).value.supply, a.supply);
  }

  // ----- freshness block by block -----

  /** Every block is fresh where it stands. */
  ghost predicate FreshAll(a: Account, blocks: seq<Block>)
    decreases blocks
  {
    blocks != [] && Grow(a, blocks[0]).Some? ==>
      Fresh(a.utxo, BlockOps(blocks[0].txs)) && FreshAll(Grow(a, blocks[0]).value, blocks[1..])
  }

  lemma {:induction false} CreatedStaysLive(b: Books, ops: seq<Op>, o: OutPoint)
    requires Run(b, ops).Some? && (o in b.utxo || o in CreatedPoints(ops))
    requires forall i :: 0 <= i < |ops| ==> ops[i] != Spend(o)
    ensures o in Run(b, ops).value.utxo
    decreases ops
  {
    if ops == [] {
    } else {
      assert forall i :: 0 <= i < |ops[1..]| ==> ops[1..][i] == ops[i + 1];
      CreatedStaysLive(Step(b, ops[0]).value, ops[1..], o);
    }
  }

  /** What a fresh block did to one outpoint its record keeps apart. */
  lemma ApartBlock(a: Account, b: Block, o: OutPoint)
    requires Grow(a, b).Some? && Fresh(a.utxo, BlockOps(b.txs))
    ensures o in CreatedPoints(BlockOps(b.txs)) ==> o in Grow(a, b).value.utxo
    ensures o in a.utxo && o !in Grow(a, b).value.utxo ==> IsSpent(OpenBooks(a.utxo, a.supply, b).value.undo.spent, o)
  {
    var ops := BlockOps(b.txs);
    RecordFacts(a, b);
    BooksRemember(a.utxo, a.supply, b);
    if o in CreatedPoints(ops) {
      RunRecord(Books(a.utxo, a.supply, NO_UNDO), ops);
      CreatedStaysLive(Books(a.utxo, a.supply, NO_UNDO), ops, o);
    } else {
      assert RemembersAt(a.utxo, OpenBooks(a.utxo, a.supply, b).value, o);
    }
  }

  /** Blocks that are fresh one by one and keep creations and spends apart are fresh as a whole. */
  lemma {:induction false} ApartFresh(a: Account, blocks: seq<Block>)
    requires GrowAll(a, blocks).Some? && FreshAll(a, blocks) && Apart(Records(a, blocks))
    ensures Fresh(a.utxo, AllOps(blocks))
    decreases blocks
  {
    if blocks == [] {
    } else {
      var b, rest := blocks[0], blocks[1..];
      var a1 := Grow(a, b).value;
      var r, records := OpenBooks(a.utxo, a.supply, b).value.undo, Records(a1, rest);
      forall o
        ensures (CreatedIn(records, o) ==> CreatedIn(Records(a, blocks), o))
        ensures (SpentIn(records, o) || IsSpent(r.spent, o) ==> SpentIn(Records(a, blocks), o))
      {
        HeadRecord(r, records, o);
      }
      ApartFresh(a1, rest);
      forall o | o in CreatedPoints(AllOps(rest))
        ensures o !in CreatedPoints(BlockOps(b.txs)) && o !in a.utxo
      {
        RecordsCreate(a1, rest, o);
        ApartBlock(a, b, o);
      }
      CreatedPointsAppend(BlockOps(b.txs), AllOps(rest));
      assert Elems(CreatedPoints(BlockOps(b.txs))) !! Elems(CreatedPoints(AllOps(rest)));
      NoDupConcat(CreatedPoints(BlockOps(b.txs)), CreatedPoints(AllOps(rest)));
    }
  }

  /** A single fresh block keeps its creations and spends apart. */
  lemma AtMostOneApart(a: Account, blocks: seq<Block>)
    requires GrowAll(a, blocks).Some? && FreshAll(a, blocks) && |blocks| <= 1
    ensures Apart(Records(a, blocks))
  {
    if blocks != [] {
      var b := blocks[0];
      var r := OpenBooks(a.utxo, a.supply, b).value.undo;
      RecordFacts(a, b);
      assert blocks[1..] == [];
      assert Records(a, blocks) == [r] + [];
      forall o
        ensures !(CreatedIn([r] + [], o) && SpentIn([r] + [], o))
      {
        HeadRecord(r, [], o);
      }
    }
  }
}
