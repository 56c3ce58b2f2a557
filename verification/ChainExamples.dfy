/** Runs of the state machine from the genesis state on which a promise fails. */
module ChainExamples {
  import opened Basics
  import opened Ledger
  import opened ChainState
  import opened ChainUndo
  import opened ChainReorg
  import opened ReorgOrder
  import opened PlannerReorg

  const REWARD := TxOutput(100, 7)
  const PAID := TxOutput(60, 8)

  /** A coinbase, and a transaction that spends its output. */
  const MINT := Tx(1, [], [REWARD], [], false, 0, 0)
  const PAY := Tx(2, [(1, 0)], [PAID], [], false, 0, 0)

  const MINT_OPS := [Create((1, 0), REWARD)]
  const PAY_OPS := [Spend((1, 0)), Create((2, 0), PAID)]

  function Single(id: Hash, tx: Tx): Block
    requires |tx.outputs| <= 1
  {
    assert [tx][1..] == [];
    assert OutputCount([tx]) <= 1;
    AnyBlock(id, [tx], None)
  }

  function Pair(id: Hash, tx: Tx, more: Tx): Block
    requires |tx.outputs| <= 1 && |more.outputs| <= 1
  {
    assert [tx, more][1..] == [more] && [more][1..] == [];
    assert OutputCount([more]) <= 1;
    assert OutputCount([tx, more]) <= 2;
    AnyBlock(id, [tx, more], None)
  }

  const FIRST_BLOCK := Single(11, MINT)
  const SECOND_BLOCK := Single(12, PAY)
  const TWICE_BLOCK := Pair(13, MINT, MINT)
  const CHAINED_BLOCK := Pair(14, MINT, PAY)

  lemma BlocksOps()
    ensures BlockOps([MINT]) == MINT_OPS && BlockOps([PAY]) == PAY_OPS
    ensures BlockOps([MINT, MINT]) == MINT_OPS + MINT_OPS && BlockOps([MINT, PAY]) == MINT_OPS + PAY_OPS
  {
    assert Creates(1, [REWARD], 0) == [Create(OutputPoint(1, 0), REWARD)];
    assert Creates(2, [PAID], 0) == [Create(OutputPoint(2, 0), PAID)];
    assert Spends([(1, 0)]) == [Spend((1, 0))];
    assert Ops(MINT) == MINT_OPS && Ops(PAY) == PAY_OPS;
    assert [MINT][1..] == [] && [PAY][1..] == [];
    assert BlockOps([MINT]) == Ops(MINT) + BlockOps([]);
    assert BlockOps([PAY]) == Ops(PAY) + BlockOps([]);
    assert [MINT, MINT][1..] == [MINT] && [MINT, PAY][1..] == [PAY];
  }

  function Minted(): Books {
    Books(map[(1, 0) := REWARD], 100, Undo([], [(1, 0)], 100))
  }

  lemma MintRun()
    ensures Run(Books(map[], 0, NO_UNDO), MINT_OPS) == Some(Minted())
  {
    var b := Books(map[], 0, NO_UNDO);
    assert map[][(1, 0) := REWARD] == map[(1, 0) := REWARD] && [] + [(1, 0)] == [(1, 0)];
    assert Step(b, MINT_OPS[0]) == Some(Minted());
    RunOne(b, MINT_OPS[0]);
  }

  lemma SpendReward(supply: nat, undo: Undo)
    requires supply >= 100
    ensures Step(Books(map[(1, 0) := REWARD], supply, undo), Spend((1, 0))) ==
            Some(Books(map[], supply - 100, Undo(undo.spent + [((1, 0), REWARD)], undo.created, undo.delta - 100)))
  {
    var u: UtxoMap := map[(1, 0) := REWARD];
    assert u - {(1, 0)} == map[];
  }

  lemma CreatePaid(supply: nat, undo: Undo)
    requires supply <= MAX_GLOBAL_SUPPLY
    ensures Step(Books(map[], supply, undo), Create((2, 0), PAID)) ==
            Some(Books(map[(2, 0) := PAID], supply + 60, Undo(undo.spent, undo.created + [(2, 0)], undo.delta + 60)))
  {
  }

  /** Paying out of a set that holds just the reward. */
  lemma {:induction false} PayRun(supply: nat, undo: Undo)
    requires 100 <= supply <= MAX_GLOBAL_SUPPLY
    ensures Run(Books(map[(1, 0) := REWARD], supply, undo), PAY_OPS) ==
            Some(Books(map[(2, 0) := PAID], supply - 40,
                       Undo(undo.spent + [((1, 0), REWARD)], undo.created + [(2, 0)], undo.delta - 40)))
  {
    SpendReward(supply, undo);
    CreatePaid(supply - 100, Undo(undo.spent + [((1, 0), REWARD)], undo.created, undo.delta - 100));
    RunTwo(Books(map[(1, 0) := REWARD], supply, undo), Spend((1, 0)), Create((2, 0), PAID));
  }

  lemma NoBurns()
    ensures !Burns(PendingOf(MINT_OPS)) && !Burns(PendingOf(PAY_OPS))
    ensures !Burns(PendingOf(MINT_OPS + MINT_OPS)) && !Burns(PendingOf(MINT_OPS + PAY_OPS))
  {
    NeverBurns(MINT_OPS);
    NeverBurns(PAY_OPS);
    NeverBurns(MINT_OPS + MINT_OPS);
    NeverBurns(MINT_OPS + PAY_OPS);
  }

  lemma {:induction false} NeverBurns(ops: seq<Op>)
    requires forall i :: 0 <= i < |ops| && ops[i].Create? ==> ops[i].out.owner != BURN_ADDRESS
    ensures !Burns(PendingOf(ops))
  {
    if ops == [] {
    } else {
      NeverBurns(ops[1..]);
    }
  }

  // ----- a reorganization that drops two blocks -----

  const ONE := Account(map[(1, 0) := REWARD], 100, 1)
  const TWO := Account(map[(2, 0) := PAID], 60, 2)

  lemma TwoBlocksGrow()
    ensures Grow(GENESIS, FIRST_BLOCK) == Some(ONE) && Grow(ONE, SECOND_BLOCK) == Some(TWO)
    ensures Records(GENESIS, [FIRST_BLOCK, SECOND_BLOCK]) ==
            [Undo([], [(1, 0)], 100), Undo([((1, 0), REWARD)], [(2, 0)], -40)]
  {
    BlocksOps();
    NoBurns();
    MintRun();
    PayRun(100, NO_UNDO);
    var second := Undo([((1, 0), REWARD)], [(2, 0)], -40);
    assert [] + [((1, 0), REWARD)] == second.spent && [] + [(2, 0)] == second.created;
    assert [REWARD][..0] == [] && [PAID][..0] == [] && [(1, 0)][..0] == [];
    assert OutputSum([PAID]) == 60;
    assert InputSum(ONE.utxo, [(1, 0)]) == 100;
    assert TxValid(GENESIS.utxo, MINT) && TxValid(ONE.utxo, PAY);
    var both := [FIRST_BLOCK, SECOND_BLOCK];
    assert both[1..] == [SECOND_BLOCK] && [SECOND_BLOCK][1..] == [];
    assert Records(ONE, [SECOND_BLOCK]) == [second];
  }

  /** The state after the two blocks, reached from genesis. */
  function AfterTwo(env: Env, tree: Tree): Core {
    Connect(env, Connect(env, Genesis(env, tree), FIRST_BLOCK).0, SECOND_BLOCK).0
  }

  lemma TwoBlocksConnect(env: Env, tree: Tree)
    ensures Connect(env, Genesis(env, tree), FIRST_BLOCK).1 == Done
    ensures Connect(env, Connect(env, Genesis(env, tree), FIRST_BLOCK).0, SECOND_BLOCK).1 == Done
    ensures Tracks(AfterTwo(env, tree), [FIRST_BLOCK, SECOND_BLOCK])
    ensures Recorded(AfterTwo(env, tree), [FIRST_BLOCK, SECOND_BLOCK], 0)
  {
    var s0 := Genesis(env, tree);
    TwoBlocksGrow();
    assert SnapshotAt(s0, [], 0);
    assert [] + [FIRST_BLOCK] == [FIRST_BLOCK] && [FIRST_BLOCK] + [SECOND_BLOCK] == [FIRST_BLOCK, SECOND_BLOCK];
    PlainConnectTracks(env, s0, [], FIRST_BLOCK);
    PlainConnectTracks(env, Connect(env, s0, FIRST_BLOCK).0, [FIRST_BLOCK], SECOND_BLOCK);
  }

  lemma UndoOne(u: UtxoMap, o: OutPoint, out: TxOutput, created: OutPoint, delta: int)
    ensures UndoUtxo(u, Undo([(o, out)], [created], delta)) == (u - {created})[o := out]
  {
    var spent := [(o, out)];
    assert Elems([created]) == {created};
    assert Restore(u - {created}, spent) == Restore(u - {created}, spent[..0])[o := out];
  }

  /** What taking the two records off first to last comes to. */
  lemma TwoRecordsUndone()
    ensures var records := Records(GENESIS, [FIRST_BLOCK, SECOND_BLOCK]);
            OldestFirst(TWO.utxo, records) == map[(1, 0) := REWARD] && SupplyOldestFirst(60, records) == 40
  {
    TwoBlocksGrow();
    var first, second := Undo([], [(1, 0)], 100), Undo([((1, 0), REWARD)], [(2, 0)], -40);
    var u: UtxoMap := map[(2, 0) := PAID];
    assert UndoUtxo(u, first) == u;
    UndoOne(u, (1, 0), REWARD, (2, 0), -40);
    assert u - {(2, 0)} == map[];
    assert UndoUtxo(u, second) == map[(1, 0) := REWARD];
    assert [first, second][1..] == [second] && [second][1..] == [];
    assert OldestFirst(u, [second]) == OldestFirst(UndoUtxo(u, second), []);
    assert UndoSupply(60, 100) == 0 && UndoSupply(0, -40) == 40;
    assert SupplyOldestFirst(0, [second]) == SupplyOldestFirst(40, []);
  }

  /** Dropping the two blocks through a list that has the tip first. */
  lemma DropTipFirst(s: Core)
    requires Tracks(s, [FIRST_BLOCK, SECOND_BLOCK]) && Recorded(s, [FIRST_BLOCK, SECOND_BLOCK], 0)
    ensures View(s) == TWO
    ensures var (s1, outcome) := DisconnectAll(s, [SECOND_BLOCK, FIRST_BLOCK]);
            outcome == Done && View(s1) == Account(map[(1, 0) := REWARD], 40, 0)
  {
    var both := [FIRST_BLOCK, SECOND_BLOCK];
    TwoBlocksFold();
    assert [] + both == both;
    RecordsOnChain(s, [], both);
    TipFirstDisconnects(s, both, Records(GENESIS, both));
    TwoRecordsUndone();
    ListTipFirst();
  }

  /**
   The smallest failing case of the planner's order: a coinbase of 100 and a block that spends it paying 60, both
   connected from genesis. The plan that drops them, tip first, succeeds and leaves the coinbase output in a set that
   should be empty; the supply, clamped at zero on the way, ends at 40.
   */
  lemma TipFirstCounterexample(env: Env, tree: Tree)
    ensures var s := AfterTwo(env, tree);
            var (s1, outcome) := Perform(env, s, [SECOND_BLOCK, FIRST_BLOCK]);
            && View(s) == TWO && outcome == Done
            && s1.utxo == map[(1, 0) := REWARD] && s1.supply == 40 && s1.height == 0
  {
    var s, plan := AfterTwo(env, tree), [SECOND_BLOCK, FIRST_BLOCK];
    TwoBlocksConnect(env, tree);
    DropTipFirst(s);
    assert Recorded(s, plan, 0) by {
      assert [FIRST_BLOCK, SECOND_BLOCK][0].id in s.undo && [FIRST_BLOCK, SECOND_BLOCK][1].id in s.undo;
    }
    PlanSplits(s, plan, []);
    assert plan + [] == plan;
  }

  lemma TwoBlocksFold()
    ensures Fold([FIRST_BLOCK, SECOND_BLOCK]) == Some(TWO)
  {
    TwoBlocksGrow();
    FoldSnoc([], FIRST_BLOCK);
    FoldSnoc([FIRST_BLOCK], SECOND_BLOCK);
    assert [] + [FIRST_BLOCK] == [FIRST_BLOCK] && [FIRST_BLOCK] + [SECOND_BLOCK] == [FIRST_BLOCK, SECOND_BLOCK];
  }

  lemma ListTipFirst()
    ensures Reverse([FIRST_BLOCK, SECOND_BLOCK]) == [SECOND_BLOCK, FIRST_BLOCK]
  {
    assert [FIRST_BLOCK, SECOND_BLOCK][1..] == [SECOND_BLOCK] && [SECOND_BLOCK][1..] == [];
    assert Reverse([SECOND_BLOCK]) == Reverse([]) + [SECOND_BLOCK];
  }

  // ----- a block with the same coinbase twice -----

  /** Two coinbase transactions with the same outputs have the same id: supply 200, and one output of 100. */
  lemma RepeatedCoinbaseBreaksConservation(env: Env, tree: Tree)
    ensures var (s1, outcome) := Connect(env, Genesis(env, tree), TWICE_BLOCK);
            outcome == Done && s1.supply == 200 && Total(s1.utxo) == 100
  {
    var b0 := Books(map[], 0, NO_UNDO);
    BlocksOps();
    NoBurns();
    MintRun();
    RunAppend(b0, MINT_OPS, MINT_OPS);
    RunOne(Minted(), MINT_OPS[0]);
    var s0, empty: UtxoMap := Genesis(env, tree), map[];
    SumInsert(empty, (1, 0), REWARD, ValueOf);
    assert empty[(1, 0) := REWARD] == Minted().utxo;
    assert Step(Minted(), MINT_OPS[0]).value.utxo == Minted().utxo;
    assert TxValid(s0.utxo, MINT);
    assert Grow(View(s0), TWICE_BLOCK).Some?;
    PlainConnectIff(env, s0, TWICE_BLOCK);
    ConnectGrows(env, s0, TWICE_BLOCK);
  }

  // ----- a block that spends its own output, applied without validation -----

  /**
   Connecting it fails, applying it succeeds. Undo then is no inverse: the output that was created and spent inside
   the block comes back.
   */
  lemma ApplyAloneIsNotUndone(env: Env, tree: Tree)
    ensures var s0 := Genesis(env, tree);
            var (s1, outcome) := ApplyBlock(env, s0, CHAINED_BLOCK);
            && Connect(env, s0, CHAINED_BLOCK).1 == Failed
            && Fresh(s0.utxo, BlockOps(CHAINED_BLOCK.txs))
            && outcome == Done && Disconnect(s1, CHAINED_BLOCK).1 == Done
            && Disconnect(s1, CHAINED_BLOCK).0.utxo == map[(1, 0) := REWARD]
  {
    var s0 := Genesis(env, tree);
    ChainedRun();
    ChainedFresh();
    assert PAY.inputs[0] == (1, 0);
    assert !TxValid(s0.utxo, CHAINED_BLOCK.txs[1]);
    PlainWork(env, s0, CHAINED_BLOCK);
    NoBurns();
    BlocksOps();
    ApplyDone(env, s0, CHAINED_BLOCK);
    ChainedUndo();
  }

  function Chained(): Books {
    Books(map[(2, 0) := PAID], 60, Undo([((1, 0), REWARD)], [(1, 0), (2, 0)], 60))
  }

  lemma ChainedRun()
    ensures OpenBooks(map[], 0, CHAINED_BLOCK) == Some(Chained())
  {
    BlocksOps();
    MintRun();
    RunAppend(Books(map[], 0, NO_UNDO), MINT_OPS, PAY_OPS);
    PayRun(100, Minted().undo);
    assert [] + [((1, 0), REWARD)] == Chained().undo.spent && [(1, 0)] + [(2, 0)] == Chained().undo.created;
  }

  lemma ChainedFresh()
    ensures Fresh(map[], BlockOps(CHAINED_BLOCK.txs))
  {
    BlocksOps();
    var ops := MINT_OPS + PAY_OPS;
    assert ops[1..] == PAY_OPS && ops[1..][1..] == [PAY_OPS[1]] && [PAY_OPS[1]][1..] == [];
    assert CreatedPoints([PAY_OPS[1]]) == [(2, 0)];
    assert CreatedPoints(PAY_OPS) == [(2, 0)];
    assert CreatedPoints(ops) == [(1, 0), (2, 0)];
  }

  lemma ChainedUndo()
    ensures UndoUtxo(Chained().utxo, Chained().undo) == map[(1, 0) := REWARD]
  {
    var spent := [((1, 0), REWARD)];
    assert Chained().utxo - Elems(Chained().undo.created) == map[];
    assert Restore(map[], spent) == Restore(map[], spent[..0])[(1, 0) := REWARD];
  }
}
