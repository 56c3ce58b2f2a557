/** Runs of the state machine from the genesis state through forks: one that replays, one that ends in a panic. */
module ForkExamples {
  import opened Basics
  import opened Ledger
  import opened ChainState
  import opened ChainUndo
  import opened ChainSupply
  import opened ChainReorg
  import opened ReorgOrder
  import opened PlannerReorg
  import opened ReorgLeftovers
  import opened ChainRuns
  import opened ChainConnected
  import opened ChainExamples

  /** A chain of plain blocks that replays connects from genesis, with undo data and snapshots for every block. */
  lemma {:induction false} GenesisFollows(env: Env, tree: Tree, chain: seq<Block>)
    requires Fold(chain).Some? && DistinctIds(chain) && forall i :: 0 <= i < |chain| ==> IsPlain(chain[i])
    ensures var (s, outcome) := ConnectAll(env, Genesis(env, tree), chain);
            outcome == Done && Tracks(s, chain) && SnapshotsFollow(s, chain) && Recorded(s, chain, 0)
  {
    var s0 := Genesis(env, tree);
    assert SnapshotAt(s0, [], 0);
    assert [] + chain == chain;
    PlainConnectAllIff(env, s0, [], chain);
    ConnectSuffix(env, s0, [], chain);
    forall i | 0 <= i < |chain|
      ensures chain[i].id in ConnectAll(env, s0, chain).0.undo
    {
      ConnectAllRecords(env, s0, chain, i);
    }
  }

  // ----- the two kinds of blocks on any account -----

  function Coinbase(id: Hash): Tx {
    Tx(id, [], [REWARD], [], false, 0, 0)
  }

  lemma GrowCoinbase(a: Account, block: Hash, id: Hash)
    requires a.supply + 100 <= MAX_GLOBAL_SUPPLY
    ensures BlockOps([Coinbase(id)]) == [Create((id, 0), REWARD)]
    ensures Grow(a, Single(block, Coinbase(id))) ==
            Some(Account(a.utxo[(id, 0) := REWARD], a.supply + 100, a.height + 1))
    ensures OpenBooks(a.utxo, a.supply, Single(block, Coinbase(id))).value.undo == Undo([], [(id, 0)], 100)
  {
    var b, op := Books(a.utxo, a.supply, NO_UNDO), Create((id, 0), REWARD);
    assert Creates(id, [REWARD], 0) == [Create(OutputPoint(id, 0), REWARD)];
    assert [Coinbase(id)][1..] == [];
    assert BlockOps([Coinbase(id)]) == [op];
    RunOne(b, op);
    assert [] + [(id, 0)] == [(id, 0)];
    NeverBurns([op]);
    assert TxValid(a.utxo, Coinbase(id));
  }

  lemma GrowPay(a: Account, block: Hash)
    requires (1, 0) in a.utxo && a.utxo[(1, 0)] == REWARD && 100 <= a.supply <= MAX_GLOBAL_SUPPLY
    ensures Grow(a, Single(block, PAY)) ==
            Some(Account((a.utxo - {(1, 0)})[(2, 0) := PAID], a.supply - 40, a.height + 1))
    ensures OpenBooks(a.utxo, a.supply, Single(block, PAY)).value.undo == Undo([((1, 0), REWARD)], [(2, 0)], -40)
  {
    var b := Books(a.utxo, a.supply, NO_UNDO);
    BlocksOps();
    NoBurns();
    RunTwo(b, PAY_OPS[0], PAY_OPS[1]);
    assert [] + [((1, 0), REWARD)] == [((1, 0), REWARD)] && [] + [(2, 0)] == [(2, 0)];
    PayValid(a.utxo);
  }

  lemma PayValid(u: UtxoMap)
    requires (1, 0) in u && u[(1, 0)] == REWARD
    ensures TxValid(u, PAY)
  {
    assert [PAID][..0] == [] && [(1, 0)][..0] == [];
    assert OutputSum([PAID]) == 60;
    assert InputSum(u, []) == 0;
    assert InputSum(u, [(1, 0)]) == 100;
    assert PAY.inputs == [(1, 0)];
  }

  // ----- both branches carry the same transactions -----

  const ROOT_BLOCK := Single(10, Coinbase(3))
  const THIRD_BLOCK := Single(21, Coinbase(1))
  const FOURTH_BLOCK := Single(22, PAY)

  const ROOT: seq<Block> := [ROOT_BLOCK]
  const OLD_BRANCH: seq<Block> := [FIRST_BLOCK, SECOND_BLOCK]
  const NEW_BRANCH: seq<Block> := [THIRD_BLOCK, FOURTH_BLOCK]

  function AtRoot(): Account {
    Account(GENESIS.utxo[(3, 0) := REWARD], 100, 1)
  }

  /** A coinbase and its spending on top of an account, in blocks of any ids. */
  lemma BranchGrows(a: Account, x: Hash, y: Hash)
    requires a.supply + 100 <= MAX_GLOBAL_SUPPLY
    ensures var branch := [Single(x, Coinbase(1)), Single(y, PAY)];
            && GrowAll(a, branch).Some? && GrowAll(a, branch).value.supply == a.supply + 60
            && Records(a, branch) == [Undo([], [(1, 0)], 100), Undo([((1, 0), REWARD)], [(2, 0)], -40)]
            && CreatedPoints(AllOps(branch)) == [(1, 0), (2, 0)]
            && SupplyWithin(a, branch, a.supply + 100)
  {
    var mint, pay := Single(x, Coinbase(1)), Single(y, PAY);
    var branch := [mint, pay];
    GrowCoinbase(a, x, 1);
    var a1 := Grow(a, mint).value;
    GrowPay(a1, y);
    assert branch[1..] == [pay] && [pay][1..] == [];
    assert GrowAll(a1, [pay]) == Grow(a1, pay);
    assert Records(a1, [pay]) == [OpenBooks(a1.utxo, a1.supply, pay).value.undo];
    BranchOps(x, y);
    assert SupplyWithin(a1, [pay], a.supply + 100);
  }

  lemma BranchOps(x: Hash, y: Hash)
    ensures CreatedPoints(AllOps([Single(x, Coinbase(1)), Single(y, PAY)])) == [(1, 0), (2, 0)]
  {
    var mint, pay := Single(x, Coinbase(1)), Single(y, PAY);
    BlocksOps();
    assert [mint, pay][1..] == [pay] && [pay][1..] == [];
    assert AllOps([pay]) == PAY_OPS + AllOps([]);
    assert AllOps([mint, pay]) == MINT_OPS + AllOps([pay]);
    var ops := MINT_OPS + PAY_OPS;
    assert AllOps([mint, pay]) == ops;
    assert ops[1..] == PAY_OPS && ops[1..][1..] == [PAY_OPS[1]] && [PAY_OPS[1]][1..] == [];
    assert CreatedPoints([PAY_OPS[1]]) == [(2, 0)];
    assert CreatedPoints(PAY_OPS) == [(2, 0)];
  }

  lemma RootFold()
    ensures Fold(ROOT) == Some(AtRoot())
  {
    GrowCoinbase(GENESIS, 10, 3);
    assert ROOT[..0] == [];
    assert Fold([]) == Some(GENESIS);
  }

  lemma FoldTwo(chain: seq<Block>, b: Block, c: Block)
    requires Fold(chain).Some? && GrowAll(Fold(chain).value, [b, c]).Some?
    ensures Fold(chain + [b, c]) == GrowAll(Fold(chain).value, [b, c])
  {
    var a1 := Grow(Fold(chain).value, b).value;
    assert [b, c][1..] == [c] && [c][1..] == [];
    assert GrowAll(a1, [c]) == Grow(a1, c);
    FoldSnoc(chain, b);
    FoldSnoc(chain + [b], c);
    assert chain + [b] + [c] == chain + [b, c];
  }

  lemma ForkFolds()
    ensures Fold(ROOT) == Some(AtRoot())
    ensures Fold(ROOT + OLD_BRANCH) == GrowAll(AtRoot(), OLD_BRANCH) && GrowAll(AtRoot(), OLD_BRANCH).Some?
    ensures Fold(ROOT + NEW_BRANCH).Some?
  {
    RootFold();
    BranchGrows(AtRoot(), 11, 12);
    BranchGrows(AtRoot(), 21, 22);
    FoldTwo(ROOT, FIRST_BLOCK, SECOND_BLOCK);
    FoldTwo(ROOT, THIRD_BLOCK, FOURTH_BLOCK);
  }

  lemma ForkFresh()
    ensures Fresh(AtRoot().utxo, AllOps(OLD_BRANCH))
  {
    BranchOps(11, 12);
    assert AtRoot().utxo.Keys == {(3, 0)};
  }

  lemma ForkRecords()
    ensures var records := Records(AtRoot(), OLD_BRANCH);
            Recreates(records, CreatedPoints(AllOps(NEW_BRANCH))) && !Apart(records)
  {
    var records := Records(AtRoot(), OLD_BRANCH);
    BranchGrows(AtRoot(), 11, 12);
    BranchOps(21, 22);
    assert records[0].created[0] == (1, 0) && records[1].spent[0].0 == (1, 0);
    assert CreatedIn(records, (1, 0)) && SpentIn(records, (1, 0));
    forall o | CreatedIn(records, o)
      ensures o == (1, 0) || o == (2, 0)
    {
      var i :| 0 <= i < |records| && o in records[i].created;
    }
  }

  lemma ForkRegains()
    ensures Regains(AtRoot(), OLD_BRANCH, NEW_BRANCH)
  {
    var a := AtRoot();
    BranchGrows(a, 11, 12);
    ForkRecords();
    WithinMore(a, OLD_BRANCH, a.supply + 100, a.supply + a.supply + 60);
  }

  /** The branches meet the condition, although the old one spends what it creates. */
  lemma ForkSettles()
    ensures Fold(ROOT + OLD_BRANCH).Some? && FreshDrop(ROOT, OLD_BRANCH)
    ensures Settles(ROOT, OLD_BRANCH, NEW_BRANCH) && !ApartOn(ROOT, OLD_BRANCH)
  {
    ForkFolds();
    ForkFresh();
    ForkRecords();
    ForkRegains();
  }

  lemma {:induction false} WithinMore(a: Account, blocks: seq<Block>, limit: nat, more: nat)
    requires SupplyWithin(a, blocks, limit) && limit <= more
    ensures SupplyWithin(a, blocks, more)
    decreases blocks
  {
    if blocks == [] || Grow(a, blocks[0]).None? {
    } else {
      WithinMore(Grow(a, blocks[0]).value, blocks[1..], limit, more);
    }
  }

  /**
   An ordinary fork: both branches carry the same coinbase and the same spending of it, under different block ids. The
   plan drops two chained blocks tip first, the reward stays behind, the new branch creates it again, and the
   reorganization ends exactly in the replay.
   */
  lemma SharedForkReplays(env: Env, tree: Tree)
    ensures var s := ConnectAll(env, Genesis(env, tree), ROOT + OLD_BRANCH).0;
            var (s1, outcome) := Perform(env, s, [SECOND_BLOCK, FIRST_BLOCK, THIRD_BLOCK, FOURTH_BLOCK]);
            && Tracks(s, ROOT + OLD_BRANCH) && !ApartOn(ROOT, OLD_BRANCH)
            && outcome == Done && Fold(ROOT + NEW_BRANCH) == Some(View(s1))
  {
    ForkSettles();
    ForkIds();
    GenesisFollows(env, tree, ROOT + OLD_BRANCH);
    var s := ConnectAll(env, Genesis(env, tree), ROOT + OLD_BRANCH).0;
    ForkUndoData(env, tree);
    PlannedPlainIff(env, s, ROOT, OLD_BRANCH, NEW_BRANCH);
    ListTipFirst();
    assert Reverse(OLD_BRANCH) + NEW_BRANCH == [SECOND_BLOCK, FIRST_BLOCK, THIRD_BLOCK, FOURTH_BLOCK];
  }

  lemma ForkIds()
    ensures DistinctIds(ROOT + OLD_BRANCH) && DistinctIds(ROOT + NEW_BRANCH)
    ensures forall i :: 0 <= i < |ROOT + OLD_BRANCH| ==> IsPlain((ROOT + OLD_BRANCH)[i])
    ensures forall i :: 0 <= i < |NEW_BRANCH| ==> IsPlain(NEW_BRANCH[i])
  {
    assert ROOT + OLD_BRANCH == [ROOT_BLOCK, FIRST_BLOCK, SECOND_BLOCK];
    assert ROOT + NEW_BRANCH == [ROOT_BLOCK, THIRD_BLOCK, FOURTH_BLOCK];
  }

  lemma ForkUndoData(env: Env, tree: Tree)
    ensures THIRD_BLOCK.id !in ConnectAll(env, Genesis(env, tree), ROOT + OLD_BRANCH).0.undo
  {
    ConnectAllFrame(env, Genesis(env, tree), ROOT + OLD_BRANCH, THIRD_BLOCK.id);
  }

  // ----- a refused branch, and the panic after it -----

  const REFUSED_BLOCK := Single(31, PAY)

  /**
   The reward block is dropped, the new block spends the reward, which is gone, and is refused. The state is put back,
   but without the dropped snapshot, and the next block, which spends the reward, panics.
   */
  lemma RefusedForkPanics(env: Env, tree: Tree)
    ensures var s := Connect(env, Genesis(env, tree), FIRST_BLOCK).0;
            var (s1, outcome) := Reorganize(env, s, [FIRST_BLOCK, REFUSED_BLOCK]);
            && View(s) == ONE && outcome == Failed && View(s1) == ONE
            && Connect(env, s1, SECOND_BLOCK).1 == Panicked
  {
    var s0, chain: seq<Block> := Genesis(env, tree), [FIRST_BLOCK];
    TwoBlocksGrow();
    assert SnapshotAt(s0, [], 0);
    assert [] + chain == chain;
    PlainConnectTracks(env, s0, [], FIRST_BLOCK);
    var s := Connect(env, s0, FIRST_BLOCK).0;
    RefusedFork(env, s);
    assert chain + [REFUSED_BLOCK] == [FIRST_BLOCK, REFUSED_BLOCK];
    ConnectFrame(env, s0, FIRST_BLOCK, REFUSED_BLOCK.id);
    FailedReorgThenPanicIff(env, s, chain, chain, [REFUSED_BLOCK], SECOND_BLOCK);
  }

  lemma ConnectFrame(env: Env, s: Core, b: Block, h: Hash)
    requires h !in s.undo && h != b.id
    ensures h !in Connect(env, s, b).0.undo
  {
    ConnectAllFrame(env, s, [b], h);
    assert [b][1..] == [];
  }

  lemma RefusedFork(env: Env, s: Core)
    requires Tracks(s, [FIRST_BLOCK]) && Recorded(s, [FIRST_BLOCK], 0) && REFUSED_BLOCK.id !in s.undo
    ensures Reorganize(env, s, [FIRST_BLOCK] + [REFUSED_BLOCK]).1 == Failed
    ensures Accepted(env, DisconnectAll(s, [FIRST_BLOCK]).0, [REFUSED_BLOCK]) == 0
  {
    var chain: seq<Block> := [FIRST_BLOCK];
    assert [] + chain == chain;
    FirstReversible();
    DisconnectSuffix(s, [], chain);
    PlanSplits(s, chain, [REFUSED_BLOCK]);
    var sd := DisconnectAll(s, chain).0;
    assert PAY.inputs[0] == (1, 0) && REFUSED_BLOCK.txs[0] == PAY;
    assert !TxValid(sd.utxo, REFUSED_BLOCK.txs[0]);
    assert Connect(env, sd, REFUSED_BLOCK).1 == Failed;
  }

  lemma FirstReversible()
    ensures Fold([FIRST_BLOCK]).Some? && Reversible([FIRST_BLOCK], 0)
  {
    var chain: seq<Block> := [FIRST_BLOCK];
    BlocksOps();
    TwoBlocksGrow();
    assert Fresh(GENESIS.utxo, MINT_OPS) by {
      assert MINT_OPS[1..] == [];
      assert CreatedPoints(MINT_OPS) == [(1, 0)];
    }
    assert chain[..0] == [];
    assert FreshChain(chain) by {
      assert FreshAt(chain, 0);
    }
    FreshReversible(chain);
  }

  // ----- a branch refused at its second block -----

  const LATE_BLOCK := Single(41, Coinbase(4))

  lemma FirstDropped(s: Core)
    requires Tracks(s, [FIRST_BLOCK]) && SnapshotsFollow(s, [FIRST_BLOCK]) && Recorded(s, [FIRST_BLOCK], 0)
    ensures var (sd, outcome) := DisconnectAll(s, [FIRST_BLOCK]);
            && outcome == Done && View(sd) == GENESIS && sd.height < |sd.snapshots|
            && sd.undo.Keys == s.undo.Keys - {FIRST_BLOCK.id}
  {
    var chain: seq<Block> := [FIRST_BLOCK];
    assert [] + chain == chain;
    FirstReversible();
    DisconnectSuffix(s, [], chain);
    assert Ids(chain) == {FIRST_BLOCK.id};
  }

  lemma LateFork(env: Env, s: Core)
    requires Tracks(s, [FIRST_BLOCK]) && SnapshotsFollow(s, [FIRST_BLOCK]) && Recorded(s, [FIRST_BLOCK], 0)
    requires LATE_BLOCK.id !in s.undo
    ensures var sd := DisconnectAll(s, [FIRST_BLOCK]).0;
            var sk := Connect(env, sd, LATE_BLOCK).0;
            && DisconnectAll(s, [FIRST_BLOCK]).1 == Done && Connect(env, sd, LATE_BLOCK).1 == Done
            && sk.utxo == map[(4, 0) := REWARD] && sk.undo.Keys == s.undo.Keys - {FIRST_BLOCK.id} + {LATE_BLOCK.id}
            && Connect(env, sk, REFUSED_BLOCK).1 == Failed
  {
    FirstDropped(s);
    LateConnects(env, DisconnectAll(s, [FIRST_BLOCK]).0);
  }

  lemma LateConnects(env: Env, s: Core)
    requires View(s) == GENESIS && s.height < |s.snapshots|
    ensures var (sk, outcome) := Connect(env, s, LATE_BLOCK);
            && outcome == Done && sk.utxo == map[(4, 0) := REWARD] && sk.undo.Keys == s.undo.Keys + {LATE_BLOCK.id}
            && Connect(env, sk, REFUSED_BLOCK).1 == Failed
  {
    GrowCoinbase(GENESIS, 41, 4);
    PlainConnectIff(env, s, LATE_BLOCK);
    ConnectGrows(env, s, LATE_BLOCK);
    ApplyDone(env, s, LATE_BLOCK);
    var sk := Connect(env, s, LATE_BLOCK).0;
    assert PAY.inputs[0] == (1, 0) && REFUSED_BLOCK.txs[0] == PAY;
    assert !TxValid(sk.utxo, REFUSED_BLOCK.txs[0]);
  }

  /** The plan drops the reward block, connects another one and is refused at the third. */
  const LATE_PLAN := [FIRST_BLOCK, LATE_BLOCK, REFUSED_BLOCK]

  /**
   The plan fails after a new block was connected. Tip, fees, UTXO set, supply and height are those of the reward block
   again, but its undo data is gone, so it cannot be undone any more, and that of the new block is there.
   */
  lemma {:induction false} LateForkPutBack(env: Env, tree: Tree)
    ensures var s := Connect(env, Genesis(env, tree), FIRST_BLOCK).0;
            var (s1, outcome) := Reorganize(env, s, LATE_PLAN);
            && View(s) == ONE && outcome == Failed && View(s1) == ONE
            && s1.tip == s.tip == Some(11) && s1.fees == s.fees
            && s1.undo.Keys == {41} && Disconnect(s1, FIRST_BLOCK).1 == Failed
  {
    FirstConnected(env, tree);
    LateForkFails(env, Connect(env, Genesis(env, tree), FIRST_BLOCK).0);
  }

  lemma FirstConnected(env: Env, tree: Tree)
    ensures var s := Connect(env, Genesis(env, tree), FIRST_BLOCK).0;
            && View(s) == ONE && s.tip == Some(11) && s.undo.Keys == {11}
            && Tracks(s, [FIRST_BLOCK]) && SnapshotsFollow(s, [FIRST_BLOCK]) && Recorded(s, [FIRST_BLOCK], 0)
  {
    var s0 := Genesis(env, tree);
    TwoBlocksGrow();
    assert SnapshotAt(s0, [], 0);
    assert [] + [FIRST_BLOCK] == [FIRST_BLOCK];
    PlainConnectTracks(env, s0, [], FIRST_BLOCK);
    ConnectedRest(env, s0, FIRST_BLOCK);
  }

  lemma LateForkFails(env: Env, s: Core)
    requires Tracks(s, [FIRST_BLOCK]) && SnapshotsFollow(s, [FIRST_BLOCK]) && Recorded(s, [FIRST_BLOCK], 0)
    requires s.undo.Keys == {11}
    ensures var (s1, outcome) := Reorganize(env, s, LATE_PLAN);
            && outcome == Failed && View(s1) == View(s) && s1.tip == s.tip && s1.fees == s.fees && s1.undo.Keys == {41}
  {
    LateFork(env, s);
    assert [FIRST_BLOCK][0].id in s.undo;
    LatePlanRuns(env, s);
    FailureLeaves(env, s, LATE_PLAN);
  }

  lemma LatePlanRuns(env: Env, s: Core)
    requires FIRST_BLOCK.id in s.undo && LATE_BLOCK.id !in s.undo
    requires var sd := DisconnectAll(s, [FIRST_BLOCK]).0;
             var sk := Connect(env, sd, LATE_BLOCK).0;
             && DisconnectAll(s, [FIRST_BLOCK]).1 == Done && Connect(env, sd, LATE_BLOCK).1 == Done
             && Connect(env, sk, REFUSED_BLOCK).1 == Failed
    ensures AppliedPrefix(s.undo.Keys, LATE_PLAN) == 1
    ensures LATE_PLAN[..1] == [FIRST_BLOCK] && LATE_PLAN[1..] == [LATE_BLOCK, REFUSED_BLOCK]
    ensures var sd := DisconnectAll(s, [FIRST_BLOCK]).0;
            && Accepted(env, sd, [LATE_BLOCK, REFUSED_BLOCK]) == 1
            && [LATE_BLOCK, REFUSED_BLOCK][..1] == [LATE_BLOCK]
            && ConnectAll(env, sd, [LATE_BLOCK]) == Connect(env, sd, LATE_BLOCK)
            && Reorganize(env, s, LATE_PLAN).1 == Failed
  {
    var rest := [LATE_BLOCK, REFUSED_BLOCK];
    assert LATE_PLAN[1..] == rest && rest[1..] == [REFUSED_BLOCK] && [LATE_BLOCK][1..] == [];
    assert AppliedPrefix(s.undo.Keys, rest) == 0;
    var sd := DisconnectAll(s, [FIRST_BLOCK]).0;
    var sk := Connect(env, sd, LATE_BLOCK).0;
    assert ConnectAll(env, sk, [REFUSED_BLOCK]).1 == Failed;
    assert Accepted(env, sk, [REFUSED_BLOCK]) == 0;
    assert ConnectAll(env, sd, rest).1 == Failed;
  }

  // ----- a block that pays the burn address -----

  const BURNING := Tx(5, [], [TxOutput(100, 0)], [], false, 0, 0)

  lemma BurningBlockRefused(env: Env, tree: Tree)
    ensures Connect(env, Genesis(env, tree), Single(51, BURNING)) == (Genesis(env, tree), Failed)
  {
    BurnRefused(env, Genesis(env, tree), Single(51, BURNING), 0, 0);
  }

  // ----- a block that writes an output down before it is spent -----

  const ONE_OUTPUT := TxOutput(1, 7)
  const FULL := TxOutput(100, 8)
  const WRITE_DOWN := Tx(1, [], [ONE_OUTPUT], [], false, 0, 0)
  const SPEND_FULL := Tx(2, [(1, 0)], [FULL], [], false, 0, 0)
  const INFLATING_BLOCK := Pair(33, WRITE_DOWN, SPEND_FULL)

  lemma InflatingRun()
    ensures var books := OpenBooks(ONE.utxo, 100, INFLATING_BLOCK);
            books.Some? && books.value.supply == 200
    ensures !Burns(PendingOf(BlockOps(INFLATING_BLOCK.txs)))
  {
    var x, y, z := Create((1, 0), ONE_OUTPUT), Spend((1, 0)), Create((2, 0), FULL);
    var txs := [WRITE_DOWN, SPEND_FULL];
    assert Creates(1, [ONE_OUTPUT], 0) == [Create(OutputPoint(1, 0), ONE_OUTPUT)];
    assert Creates(2, [FULL], 0) == [Create(OutputPoint(2, 0), FULL)];
    assert Spends([(1, 0)]) == [Spend((1, 0))];
    assert txs[1..] == [SPEND_FULL] && [SPEND_FULL][1..] == [];
    assert BlockOps([SPEND_FULL]) == [y, z] + BlockOps([]);
    assert BlockOps(txs) == [x] + [y, z];
    var b := Books(ONE.utxo, 100, NO_UNDO);
    RunAppend(b, [x], [y, z]);
    RunOne(b, x);
    RunTwo(Step(b, x).value, y, z);
    NeverBurns([x] + [y, z]);
  }

  /**
   Validation reads the set before the block. The first transaction, under the id of a live output, writes 100 down to
   1; the second spends it as 100. Coinbase outputs of 1 raise the supply by 100.
   */
  lemma WriteDownInflates(env: Env, tree: Tree)
    ensures var s := Connect(env, Genesis(env, tree), FIRST_BLOCK).0;
            var (s1, outcome) := Connect(env, s, INFLATING_BLOCK);
            && View(s) == ONE && outcome == Done && s1.supply == 200
            && CoinbaseTotal(INFLATING_BLOCK.txs) == 1 && FeeTotal(INFLATING_BLOCK.txs) == 0
  {
    var s0 := Genesis(env, tree);
    TwoBlocksGrow();
    assert SnapshotAt(s0, [], 0);
    assert [] + [FIRST_BLOCK] == [FIRST_BLOCK];
    PlainConnectTracks(env, s0, [], FIRST_BLOCK);
    var s := Connect(env, s0, FIRST_BLOCK).0;
    InflatingRun();
    WriteDownValid();
    WriteDownTotals();
    assert Grow(View(s), INFLATING_BLOCK).Some?;
    PlainConnectIff(env, s, INFLATING_BLOCK);
    ConnectGrows(env, s, INFLATING_BLOCK);
  }

  lemma WriteDownTotals()
    ensures CoinbaseTotal(INFLATING_BLOCK.txs) == 1 && FeeTotal(INFLATING_BLOCK.txs) == 0
  {
    var txs, rest := INFLATING_BLOCK.txs, [SPEND_FULL];
    assert txs[1..] == rest && rest[1..] == [] && [ONE_OUTPUT][..0] == [];
    assert OutputTotal([]) == 0;
    assert OutputTotal([ONE_OUTPUT]) == OutputTotal([ONE_OUTPUT][..0]) + 1;
    assert CoinbaseTotal(rest) == CoinbaseTotal([]) == 0;
    assert FeeTotal(rest) == FeeOf(SPEND_FULL) + FeeTotal([]) == 0;
    assert txs[0] == WRITE_DOWN;
  }

  lemma WriteDownValid()
    ensures BooksValid(ONE.utxo, INFLATING_BLOCK.txs)
  {
    assert [FULL][..0] == [] && [(1, 0)][..0] == [];
    assert OutputSum([FULL]) == 100;
    assert InputSum(ONE.utxo, []) == 0;
    assert InputSum(ONE.utxo, [(1, 0)]) == 100;
    assert TxValid(ONE.utxo, WRITE_DOWN) && TxValid(ONE.utxo, SPEND_FULL);
  }
}
