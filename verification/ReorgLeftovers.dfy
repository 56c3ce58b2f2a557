/**
 A whole reorganization with the planner's list. Outputs that the dropped blocks created and spent stay behind when the
 blocks are undone oldest first; connecting the new branch can create them again.
 */
module ReorgLeftovers {
  import opened Basics
  import opened Ledger
  import opened ChainState
  import opened ChainUndo
  import opened ChainReorg
  import opened ReorgOrder
  import opened PlannerReorg

  // ----- a run beside a run -----

  /** `v` holds what `u` holds and, apart from it, outputs at the points `left`. */
  ghost predicate Extends(v: UtxoMap, u: UtxoMap, left: set<OutPoint>) {
    forall o :: ExtendsAt(v, u, left, o)
  }

  ghost predicate ExtendsAt(v: UtxoMap, u: UtxoMap, left: set<OutPoint>, o: OutPoint) {
    && (o in v <==> o in u || o in left)
    && (o in u ==> o !in left && o in v && v[o] == u[o])
  }

  /** Books that differ in leftover outputs and by a constant supply. */
  ghost predicate Beside(b: Books, c: Books, left: set<OutPoint>, excess: nat) {
    Extends(c.utxo, b.utxo, left) && c.supply == b.supply + excess && c.undo == b.undo
  }

  lemma StepBeside(b: Books, c: Books, op: Op, left: set<OutPoint>, excess: nat)
    requires Beside(b, c, left, excess) && Step(b, op).Some?
    requires op.Spend? ==> b.utxo[op.o].value <= b.supply
    requires op.Create? ==> b.supply + excess + op.out.value < TWO_128
    ensures Step(c, op).Some?
    ensures Beside(Step(b, op).value, Step(c, op).value, if op.Create? then left - {op.o} else left, excess)
  {
    assert ExtendsAt(c.utxo, b.utxo, left, op.o);
    var b1, c1, left1 := Step(b, op).value, Step(c, op).value, if op.Create? then left - {op.o} else left;
    forall o
      ensures ExtendsAt(c1.utxo, b1.utxo, left1, o)
    {
      assert ExtendsAt(c.utxo, b.utxo, left, o);
    }
  }

  /** Leftovers and excess stay through a run, except that a leftover the run creates is one no more. */
  lemma {:induction false} RunBeside(b: Books, c: Books, ops: seq<Op>, left: set<OutPoint>, excess: nat)
    requires Beside(b, c, left, excess) && Run(b, ops).Some?
    requires Total(b.utxo) <= b.supply && b.supply + excess + CreatedValue(ops) < TWO_128
    ensures Run(c, ops).Some?
    ensures Beside(Run(b, ops).value, Run(c, ops).value, Still(left, ops), excess)
    decreases ops
  {
    if ops == [] {
      assert left - Elems(CreatedPoints(ops)) == left;
    } else {
      var op, rest := ops[0], ops[1..];
      match op {
        case Spend(o) =>
          SumSplit(b.utxo, o, ValueOf);
          assert CreatedPoints(ops) == CreatedPoints(rest);
        case Create(o, out) =>
          SumInsert(b.utxo, o, out, ValueOf);
          if o in b.utxo {
            SumSplit(b.utxo, o, ValueOf);
          }
          ElemsConcat([o], CreatedPoints(rest));
          assert Elems([o]) == {o};
          assert (left - {o}) - Elems(CreatedPoints(rest)) == left - Elems(CreatedPoints(ops));
      }
      StepBeside(b, c, op, left, excess);
      RunBeside(Step(b, op).value, Step(c, op).value, rest, if op.Create? then left - {op.o} else left, excess);
    }
  }

  /** The leftovers that these operations do not create. */
  ghost function Still(left: set<OutPoint>, ops: seq<Op>): set<OutPoint> {
    left - Elems(CreatedPoints(ops))
  }

  lemma StillBoth(left: set<OutPoint>, xs: seq<Op>, ys: seq<Op>)
    ensures Still(Still(left, xs), ys) == Still(left, xs + ys)
    ensures Still(left, []) == left
  {
    CreatedPointsAppend(xs, ys);
    ElemsConcat(CreatedPoints(xs), CreatedPoints(ys));
  }

  // ----- a block beside a block -----

  ghost predicate AccountBeside(a: Account, c: Account, left: set<OutPoint>, excess: nat) {
    Extends(c.utxo, a.utxo, left) && c.supply == a.supply + excess && c.height == a.height
  }

  lemma {:induction false} SameInputSum(v: UtxoMap, u: UtxoMap, left: set<OutPoint>, inputs: seq<OutPoint>)
    requires Extends(v, u, left) && forall i :: 0 <= i < |inputs| ==> inputs[i] in u
    ensures InputSum(v, inputs) == InputSum(u, inputs)
  {
    if inputs == [] {
    } else {
      SameInputSum(v, u, left, inputs[..|inputs| - 1]);
      assert ExtendsAt(v, u, left, inputs[|inputs| - 1]);
    }
  }

  lemma ValidBeside(v: UtxoMap, u: UtxoMap, left: set<OutPoint>, txs: seq<Tx>)
    requires Extends(v, u, left) && BooksValid(u, txs)
    ensures BooksValid(v, txs)
  {
    forall i | 0 <= i < |txs|
      ensures TxValid(v, txs[i])
    {
      assert TxValid(u, txs[i]);
      if !IsCoinbase(txs[i]) {
        SameInputSum(v, u, left, txs[i].inputs);
        assert forall k :: 0 <= k < |txs[i].inputs| ==> ExtendsAt(v, u, left, txs[i].inputs[k]);
      }
    }
  }

  /** What a block that fits `a` does to an account beside it. */
  lemma GrowBeside(a: Account, c: Account, b: Block, left: set<OutPoint>, excess: nat)
    requires AccountBeside(a, c, left, excess) && Backed(a.utxo, a.supply) && excess <= MAX_GLOBAL_SUPPLY
    requires Grow(a, b).Some?
    ensures BooksValid(c.utxo, b.txs) && OpenBooks(c.utxo, c.supply, b).Some?
    ensures var books := OpenBooks(c.utxo, c.supply, b).value;
            && books.undo == OpenBooks(a.utxo, a.supply, b).value.undo
            && AccountBeside(Grow(a, b).value, Account(books.utxo, books.supply, c.height + 1),
                             Still(left, BlockOps(b.txs)), excess)
            && (excess == 0 ==> Grow(c, b) == Some(Account(books.utxo, books.supply, c.height + 1)))
  {
    ValidBeside(c.utxo, a.utxo, left, b.txs);
    CreatedValueBound(b.txs);
    RunBeside(Books(a.utxo, a.supply, NO_UNDO), Books(c.utxo, c.supply, NO_UNDO), BlockOps(b.txs), left, excess);
  }

  // ----- the state beside a chain -----

  /** The state follows the chain except for leftover outputs and an excess of supply. */
  ghost predicate Shadows(s: Core, chain: seq<Block>, left: set<OutPoint>, excess: nat) {
    && Fold(chain).Some? && AccountBeside(Fold(chain).value, View(s), left, excess)
    && DistinctIds(chain) && RecordsRight(s.undo, chain)
  }

  lemma ShadowsTracks(s: Core, chain: seq<Block>, left: set<OutPoint>, excess: nat)
    requires Shadows(s, chain, left, excess)
    ensures Tracks(s, chain) <==> left == {} && excess == 0
    ensures Fold(chain) == Some(View(s)) <==> left == {} && excess == 0
  {
    var u := Fold(chain).value.utxo;
    if left == {} {
      forall o
        ensures o in s.utxo <==> o in u
        ensures o in u ==> s.utxo[o] == u[o]
      {
        assert ExtendsAt(s.utxo, u, left, o);
      }
      assert s.utxo.Keys == u.Keys;
      assert s.utxo == u;
      assert excess == 0 ==> View(s) == Fold(chain).value;
    } else {
      var o :| o in left;
      assert ExtendsAt(s.utxo, u, left, o);
    }
  }

  lemma ShadowConnect(env: Env, s: Core, chain: seq<Block>, b: Block, left: set<OutPoint>, excess: nat)
    requires Shadows(s, chain, left, excess) && excess <= MAX_GLOBAL_SUPPLY && DistinctIds(chain + [b])
    requires Fold(chain + [b]).Some? && Connect(env, s, b).1 == Done
    ensures var s1 := Connect(env, s, b).0;
            && Shadows(s1, chain + [b], Still(left, BlockOps(b.txs)), excess)
            && (excess == 0 && SnapshotsFollow(s, chain) ==> SnapshotsFollow(s1, chain + [b]))
  {
    var a, s1 := Fold(chain).value, Connect(env, s, b).0;
    FoldSnoc(chain, b);
    FoldBacked(chain);
    ApplyDone(env, s, b);
    GrowBeside(a, View(s), b, left, excess);
    RecordsSnoc(s.undo, s1.undo, chain, b);
    if excess == 0 && SnapshotsFollow(s, chain) {
      ConnectSnapshots(s, s1, chain, b);
    }
  }

  /** The first of several blocks. */
  lemma ShadowConnectFirst(env: Env, s: Core, base: seq<Block>, b: Block, rest: seq<Block>, left: set<OutPoint>, excess: nat)
    requires Shadows(s, base, left, excess) && excess <= MAX_GLOBAL_SUPPLY && DistinctIds(base + ([b] + rest))
    requires Fold(base + ([b] + rest)).Some? && Connect(env, s, b).1 == Done
    ensures DistinctIds((base + [b]) + rest) && Fold((base + [b]) + rest).Some?
    ensures var s1 := Connect(env, s, b).0;
            && Shadows(s1, base + [b], Still(left, BlockOps(b.txs)), excess)
            && (excess == 0 && SnapshotsFollow(s, base) ==> SnapshotsFollow(s1, base + [b]))
  {
    FirstOfMore(base, b, rest);
    ShadowConnect(env, s, base, b, left, excess);
  }

  lemma StillFirst(blocks: seq<Block>, left: set<OutPoint>)
    requires blocks != []
    ensures Still(Still(left, BlockOps(blocks[0].txs)), AllOps(blocks[1..])) == Still(left, AllOps(blocks))
  {
    StillBoth(left, BlockOps(blocks[0].txs), AllOps(blocks[1..]));
  }

  /** All of them: `end` is what is left in the end. */
  lemma {:induction false} ShadowConnectAll(env: Env, s: Core, base: seq<Block>, blocks: seq<Block>, left: set<OutPoint>,
                                            excess: nat, end: set<OutPoint>)
    requires Shadows(s, base, left, excess) && excess <= MAX_GLOBAL_SUPPLY && DistinctIds(base + blocks)
    requires Fold(base + blocks).Some? && ConnectAll(env, s, blocks).1 == Done && end == Still(left, AllOps(blocks))
    ensures Shadows(ConnectAll(env, s, blocks).0, base + blocks, end, excess)
    decreases blocks
  {
    if blocks == [] {
      assert base + blocks == base;
      StillBoth(left, [], []);
    } else {
      var b, rest := blocks[0], blocks[1..];
      assert blocks == [b] + rest;
      Assoc(base, [b], rest);
      ShadowConnectFirst(env, s, base, b, rest, left, excess);
      StillFirst(blocks, left);
      var s1, left1 := Connect(env, s, b).0, Still(left, BlockOps(b.txs));
      assert ConnectAll(env, s, blocks) == ConnectAll(env, s1, rest);
      ShadowConnectAll(env, s1, base + [b], rest, left1, excess, end);
    }
  }

  /** Without an excess the snapshots follow too. */
  lemma {:induction false} ShadowSnapshots(env: Env, s: Core, base: seq<Block>, blocks: seq<Block>, left: set<OutPoint>)
    requires Shadows(s, base, left, 0) && SnapshotsFollow(s, base) && DistinctIds(base + blocks)
    requires Fold(base + blocks).Some? && ConnectAll(env, s, blocks).1 == Done
    ensures SnapshotsFollow(ConnectAll(env, s, blocks).0, base + blocks)
    decreases blocks
  {
    if blocks == [] {
      assert base + blocks == base;
    } else {
      var b, rest := blocks[0], blocks[1..];
      assert blocks == [b] + rest;
      Assoc(base, [b], rest);
      ShadowConnectFirst(env, s, base, b, rest, left, 0);
      ShadowSnapshots(env, Connect(env, s, b).0, base + [b], rest, Still(left, BlockOps(b.txs)));
    }
  }

  lemma FirstOfMore(base: seq<Block>, b: Block, rest: seq<Block>)
    requires DistinctIds(base + ([b] + rest)) && Fold(base + ([b] + rest)).Some?
    ensures base + ([b] + rest) == (base + [b]) + rest
    ensures DistinctIds(base + [b]) && Fold(base + [b]).Some?
  {
    var chain := base + ([b] + rest);
    assert chain == (base + [b]) + rest;
    DistinctPrefix(base + [b], rest);
    assert chain[..|base| + 1] == base + [b];
    FoldPrefix(chain, |base| + 1);
  }

  // ----- dropping -----

  /** The points both created and spent by these records. */
  ghost predicate LeftBy(records: seq<Undo>, left: set<OutPoint>) {
    forall o :: o in left <==> CreatedIn(records, o) && SpentIn(records, o)
  }

  /** The dropped blocks, undone oldest first, leave `a` with these leftovers and this excess. */
  ghost predicate Undone(a: Account, drop: seq<Block>, left: set<OutPoint>, excess: nat) {
    && GrowAll(a, drop).Some? && LeftBy(Records(a, drop), left) && excess <= MAX_GLOBAL_SUPPLY
    && (excess == 0 <==> SupplyWithin(a, drop, a.supply + GrowAll(a, drop).value.supply))
  }

  ghost function Leftovers(a: Account, drop: seq<Block>): (left: set<OutPoint>)
    requires GrowAll(a, drop).Some? && Fresh(a.utxo, AllOps(drop))
    ensures LeftBy(Records(a, drop), left)
    ensures Extends(OldestFirst(GrowAll(a, drop).value.utxo, Records(a, drop)), a.utxo, left)
  {
    var back := OldestFirst(GrowAll(a, drop).value.utxo, Records(a, drop));
    var left := back.Keys - a.utxo.Keys;
    assert LeftBy(Records(a, drop), left) && Extends(back, a.utxo, left) by {
      forall o
        ensures o in left <==> CreatedIn(Records(a, drop), o) && SpentIn(Records(a, drop), o)
        ensures ExtendsAt(back, a.utxo, left, o)
      {
        OldestFirstLookup(a, drop, o);
      }
    }
    left
  }

  /** The account that undoing oldest first comes to. */
  lemma UndoneBeside(a: Account, drop: seq<Block>) returns (left: set<OutPoint>, excess: nat)
    requires GrowAll(a, drop).Some? && Backed(a.utxo, a.supply) && Fresh(a.utxo, AllOps(drop))
    ensures Undone(a, drop, left, excess)
    ensures var f, records := GrowAll(a, drop).value, Records(a, drop);
            AccountBeside(a, Account(OldestFirst(f.utxo, records), SupplyOldestFirst(f.supply, records), a.height), left, excess)
  {
    var f, records := GrowAll(a, drop).value, Records(a, drop);
    SupplyEnds(a, drop, f.supply, a.supply);
    left, excess := Leftovers(a, drop), SupplyOldestFirst(f.supply, records) - a.supply;
  }

  /** Output ids of the dropped blocks are new, and used once. */
  ghost predicate FreshDrop(base: seq<Block>, drop: seq<Block>) {
    Fold(base).Some? ==> Fresh(Fold(base).value.utxo, AllOps(drop))
  }

  /** The account after dropping a branch through the planner's list. */
  lemma TipFirstView(s: Core, base: seq<Block>, drop: seq<Block>)
    requires Tracks(s, base + drop) && Recorded(s, base + drop, |base|)
    ensures Fold(base).Some? && GrowAll(Fold(base).value, drop) == Some(View(s))
    ensures var (sd, outcome) := DisconnectAll(s, Reverse(drop));
            var a, records := Fold(base).value, Records(Fold(base).value, drop);
            && outcome == Done && sd.undo == s.undo - Ids(drop)
            && View(sd) == Account(OldestFirst(s.utxo, records), SupplyOldestFirst(s.supply, records), a.height)
            && DistinctIds(base) && RecordsRight(sd.undo, base)
            && (SnapshotsFollow(s, base + drop) ==> SnapshotsFollow(sd, base))
  {
    FoldGrowAll(base, drop);
    RecordsOnChain(s, base, drop);
    DropDistinct(base, drop);
    TipFirstDisconnects(s, drop, Records(Fold(base).value, drop));
    DropKeeps(s, base, drop, DisconnectAll(s, Reverse(drop)).0);
    GrowAllHeight(Fold(base).value, drop);
  }

  /** Dropping a branch through the planner's list leaves the base, its leftovers and an excess of supply. */
  lemma TipFirstShadows(s: Core, base: seq<Block>, drop: seq<Block>) returns (left: set<OutPoint>, excess: nat)
    requires Tracks(s, base + drop) && Recorded(s, base + drop, |base|) && FreshDrop(base, drop)
    ensures Fold(base).Some? && Undone(Fold(base).value, drop, left, excess)
    ensures var (sd, outcome) := DisconnectAll(s, Reverse(drop));
            && outcome == Done && sd.undo == s.undo - Ids(drop) && Shadows(sd, base, left, excess)
            && (SnapshotsFollow(s, base + drop) ==> SnapshotsFollow(sd, base))
  {
    TipFirstView(s, base, drop);
    FoldBacked(base);
    left, excess := UndoneBeside(Fold(base).value, drop);
  }

  // ----- the whole reorganization -----

  ghost predicate Recreates(records: seq<Undo>, created: seq<OutPoint>) {
    forall o :: CreatedIn(records, o) && SpentIn(records, o) ==> o in created
  }

  /** The new branch creates every leftover again, and no dropped block raised the supply too far. */
  ghost predicate Regains(a: Account, drop: seq<Block>, add: seq<Block>) {
    && GrowAll(a, drop).Some? && Recreates(Records(a, drop), CreatedPoints(AllOps(add)))
    && SupplyWithin(a, drop, a.supply + GrowAll(a, drop).value.supply)
  }

  /**
   What a plan must meet to end in the replay of the new chain: that replay exists, the new branch creates every
   output again that the dropped branch created and spent, and no dropped block raised the supply above the supplies of
   base and tip together.
   */
  ghost predicate Settles(base: seq<Block>, drop: seq<Block>, add: seq<Block>) {
    Fold(base + add).Some? && Fold(base).Some? && Regains(Fold(base).value, drop, add)
  }

  lemma RegainsIff(a: Account, drop: seq<Block>, add: seq<Block>, left: set<OutPoint>, excess: nat)
    requires Undone(a, drop, left, excess)
    ensures Regains(a, drop, add) <==> Still(left, AllOps(add)) == {} && excess == 0
  {
    var created := CreatedPoints(AllOps(add));
    if left - Elems(created) == {} {
      forall o | o in left
        ensures o in created
      {
        assert o !in left - Elems(created);
      }
    } else {
      var o :| o in left - Elems(created);
      assert o in left && o !in created;
    }
  }

  /**
   Reorganization with the planner's list equals replay exactly when the plan settles: a successful one leaves what
   replaying base + add from genesis gives, with undo records and snapshots to match, if and only if it does.
   */
  lemma PlannedReplaysIff(env: Env, s: Core, base: seq<Block>, drop: seq<Block>, add: seq<Block>)
    requires Tracks(s, base + drop) && Recorded(s, base + drop, |base|) && FreshDrop(base, drop)
    requires DistinctIds(base + add) && (add != [] ==> add[0].id !in s.undo)
    requires Perform(env, s, Reverse(drop) + add).1 == Done
    ensures var s1 := Perform(env, s, Reverse(drop) + add).0;
            && (Fold(base + add) == Some(View(s1)) <==> Settles(base, drop, add))
            && (Tracks(s1, base + add) <==> Settles(base, drop, add))
            && (Settles(base, drop, add) && SnapshotsFollow(s, base + drop) ==> SnapshotsFollow(s1, base + add))
  {
    var left, excess := TipFirstShadows(s, base, drop);
    RecordedReverse(s, base, drop);
    PlanSplits(s, Reverse(drop), add);
    RegainsIff(Fold(base).value, drop, add, left, excess);
    if Fold(base + add).Some? {
      ReplayBeside(env, DisconnectAll(s, Reverse(drop)).0, base, add, left, excess);
    }
  }

  /** Connecting the new branch ends in its replay exactly when nothing is left over and there is no excess. */
  lemma ReplayBeside(env: Env, sd: Core, base: seq<Block>, add: seq<Block>, left: set<OutPoint>, excess: nat)
    requires Shadows(sd, base, left, excess) && excess <= MAX_GLOBAL_SUPPLY && DistinctIds(base + add)
    requires Fold(base + add).Some? && ConnectAll(env, sd, add).1 == Done
    ensures var s1 := ConnectAll(env, sd, add).0;
            && (Fold(base + add) == Some(View(s1)) <==> Still(left, AllOps(add)) == {} && excess == 0)
            && (Tracks(s1, base + add) <==> Still(left, AllOps(add)) == {} && excess == 0)
            && (excess == 0 && SnapshotsFollow(sd, base) ==> SnapshotsFollow(s1, base + add))
  {
    ShadowConnectAll(env, sd, base, add, left, excess, Still(left, AllOps(add)));
    ShadowsTracks(ConnectAll(env, sd, add).0, base + add, Still(left, AllOps(add)), excess);
    if excess == 0 && SnapshotsFollow(sd, base) {
      ShadowSnapshots(env, sd, base, add, left);
    }
  }

  /** A block of plain transfers that fits the chain connects beside it when there is no excess. */
  lemma {:induction false} ShadowPlainConnect(env: Env, s: Core, base: seq<Block>, b: Block, rest: seq<Block>, left: set<OutPoint>)
    requires Shadows(s, base, left, 0) && DistinctIds(base + ([b] + rest)) && Fold(base + ([b] + rest)).Some?
    requires s.height < |s.snapshots| && IsPlain(b)
    ensures DistinctIds((base + [b]) + rest) && Fold((base + [b]) + rest).Some?
    ensures var (s1, outcome) := Connect(env, s, b);
            && outcome == Done && s1.height < |s1.snapshots|
            && Shadows(s1, base + [b], Still(left, BlockOps(b.txs)), 0)
  {
    FirstOfMore(base, b, rest);
    FoldSnoc(base, b);
    FoldBacked(base);
    GrowBeside(Fold(base).value, View(s), b, left, 0);
    PlainConnectIff(env, s, b);
    ApplyDone(env, s, b);
    ShadowConnectFirst(env, s, base, b, rest, left, 0);
  }

  ghost predicate AllPlain(blocks: seq<Block>) {
    forall i :: 0 <= i < |blocks| ==> IsPlain(blocks[i])
  }

  lemma {:induction false} ShadowPlainConnects(env: Env, s: Core, base: seq<Block>, blocks: seq<Block>, left: set<OutPoint>)
    requires Shadows(s, base, left, 0) && DistinctIds(base + blocks) && Fold(base + blocks).Some?
    requires s.height < |s.snapshots| && AllPlain(blocks)
    ensures ConnectAll(env, s, blocks).1 == Done
    decreases blocks
  {
    if blocks == [] {
    } else {
      var b, rest := blocks[0], blocks[1..];
      assert blocks == [b] + rest;
      ShadowPlainConnect(env, s, base, b, rest, left);
      ShadowPlainConnects(env, Connect(env, s, b).0, base + [b], rest, Still(left, BlockOps(b.txs)));
    }
  }

  /** With plain new blocks the plan succeeds and ends in the replay exactly when it settles. */
  lemma PlannedPlainIff(env: Env, s: Core, base: seq<Block>, drop: seq<Block>, add: seq<Block>)
    requires Tracks(s, base + drop) && Recorded(s, base + drop, |base|) && SnapshotsFollow(s, base + drop)
    requires FreshDrop(base, drop)
    requires DistinctIds(base + add) && (add != [] ==> add[0].id !in s.undo)
    requires forall i :: 0 <= i < |add| ==> IsPlain(add[i])
    ensures var (s1, outcome) := Perform(env, s, Reverse(drop) + add);
            outcome == Done && Fold(base + add) == Some(View(s1)) <==> Settles(base, drop, add)
  {
    if Perform(env, s, Reverse(drop) + add).1 == Done {
      PlannedReplaysIff(env, s, base, drop, add);
    } else if Settles(base, drop, add) {
      var left, excess := TipFirstShadows(s, base, drop);
      RecordedReverse(s, base, drop);
      PlanSplits(s, Reverse(drop), add);
      RegainsIff(Fold(base).value, drop, add, left, excess);
      FoldBacked(base);
      ShadowPlainConnects(env, DisconnectAll(s, Reverse(drop)).0, base, add, left);
    }
  }

  lemma ApartRegains(a: Account, drop: seq<Block>, add: seq<Block>)
    requires GrowAll(a, drop).Some? && FreshAll(a, drop) && Backed(a.utxo, a.supply) && Apart(Records(a, drop))
    ensures Fresh(a.utxo, AllOps(drop)) && Regains(a, drop, add)
  {
    ApartFresh(a, drop);
    ApartSupplyBack(a, drop);
  }

  /** Where no dropped block spends an output of a dropped block, a plan settles whenever the replay exists. */
  lemma ApartSettles(base: seq<Block>, drop: seq<Block>, add: seq<Block>)
    requires Fold(base + drop).Some? && FreshChain(base + drop) && ApartOn(base, drop)
    ensures FreshDrop(base, drop) && (Settles(base, drop, add) <==> Fold(base + add).Some?)
  {
    FoldGrowAll(base, drop);
    FreshOnChain(base, drop);
    FoldBacked(base);
    ApartRegains(Fold(base).value, drop, add);
  }
}
