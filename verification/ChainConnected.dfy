/** What connecting a block demands and what it leaves in every field, spelled out over the block's transactions. */
module ChainConnected {
  import opened Basics
  import opened Ledger
  import opened ChainState
  import opened ChainUndo
  import opened ChainSupply
  import opened ChainReorg

  // ----- the burn address -----

  /** Some output goes to the all-zero address. */
  ghost predicate PaysNobody(txs: seq<Tx>) {
    exists i, j :: 0 <= i < |txs| && 0 <= j < |txs[i].outputs| && txs[i].outputs[j].owner == 0
  }

  lemma BurnsEither(xs: seq<(Key, Leaf)>, ys: seq<(Key, Leaf)>)
    ensures Burns(xs + ys) <==> Burns(xs) || Burns(ys)
  {
    var all := xs + ys;
    assert forall i :: 0 <= i < |xs| ==> all[i] == xs[i];
    assert forall i :: 0 <= i < |ys| ==> all[|xs| + i] == ys[i];
  }

  lemma {:induction false} SpendsPendNothing(inputs: seq<OutPoint>)
    ensures PendingOf(Spends(inputs)) == []
  {
    if inputs == [] {
    } else {
      SpendsPendNothing(inputs[1..]);
    }
  }

  lemma {:induction false} CreatesBurnIff(id: Hash, outputs: seq<TxOutput>, index: nat)
    ensures Burns(PendingOf(Creates(id, outputs, index))) <==> exists j :: 0 <= j < |outputs| && outputs[j].owner == 0
  {
    if outputs == [] {
    } else {
      var first := [(KeyOf(OutputPoint(id, index)), OutputLeaf(outputs[0]))];
      CreatesBurnIff(id, outputs[1..], index + 1);
      BurnsEither(first, PendingOf(Creates(id, outputs[1..], index + 1)));
      assert Burns(first) <==> outputs[0].owner == 0 by {
        assert first[0].1 == OutputLeaf(outputs[0]);
      }
      assert forall j :: 0 <= j < |outputs[1..]| ==> outputs[1..][j] == outputs[j + 1];
    }
  }

  lemma {:induction false} BurnsIff(txs: seq<Tx>)
    ensures Burns(PendingOf(BlockOps(txs))) <==> PaysNobody(txs)
  {
    if txs == [] {
    } else {
      var tx := txs[0];
      PendingAppend(Ops(tx), BlockOps(txs[1..]));
      PendingAppend(Spends(tx.inputs), Creates(tx.id, tx.outputs, 0));
      SpendsPendNothing(tx.inputs);
      BurnsEither(PendingOf(Ops(tx)), PendingOf(BlockOps(txs[1..])));
      assert PendingOf(Ops(tx)) == PendingOf(Creates(tx.id, tx.outputs, 0));
      CreatesBurnIff(tx.id, tx.outputs, 0);
      BurnsIff(txs[1..]);
      FirstOrRest(txs);
    }
  }

  lemma FirstOrRest(txs: seq<Tx>)
    requires txs != []
    ensures PaysNobody(txs) <==> PaysNobody(txs[1..]) || exists j :: 0 <= j < |txs[0].outputs| && txs[0].outputs[j].owner == 0
  {
    assert forall i :: 0 <= i < |txs[1..]| ==> txs[1..][i] == txs[i + 1];
    if i, j :| 0 <= i < |txs| && 0 <= j < |txs[i].outputs| && txs[i].outputs[j].owner == 0 {
      if i > 0 {
        assert txs[1..][i - 1].outputs[j].owner == 0;
      }
    }
  }

  /**
   Nothing is ever paid to the burn address: a block with such an output, whatever else it holds, is refused and leaves
   the state as it was.
   */
  lemma BurnRefused(env: Env, s: Core, b: Block, i: nat, j: nat)
    requires i < |b.txs| && j < |b.txs[i].outputs| && b.txs[i].outputs[j].owner == 0
    ensures ApplyBlock(env, s, b) == (s, Failed) && Connect(env, s, b) == (s, Failed)
  {
    BurnsIff(b.txs);
    if ApplyTxs(env, Begin(s), b.txs).Some? {
      BlockBooks(env, Begin(s), b.txs);
      assert [] + PendingOf(BlockOps(b.txs)) == PendingOf(BlockOps(b.txs));
    }
  }

  lemma NothingBurned(env: Env, s: Core, b: Block)
    requires ApplyBlock(env, s, b).1 != Failed
    ensures forall i, j :: 0 <= i < |b.txs| && 0 <= j < |b.txs[i].outputs| ==> b.txs[i].outputs[j].owner != 0
  {
    if i, j :| 0 <= i < |b.txs| && 0 <= j < |b.txs[i].outputs| && b.txs[i].outputs[j].owner == 0 {
      BurnRefused(env, s, b, i, j);
    }
  }

  // ----- gas -----

  lemma {:induction false} PayloadPrice(payload: seq<nat>)
    ensures PayloadCost(payload) == 16 * |payload| - 12 * multiset(payload)[0]
  {
    if payload == [] {
    } else {
      assert payload == [payload[0]] + payload[1..];
      PayloadPrice(payload[1..]);
    }
  }

  /** 21000 for a call, 16 for every byte of the payload, 12 less for a zero byte. */
  function CallGas(payload: seq<nat>): int {
    21_000 + 16 * |payload| - 12 * multiset(payload)[0]
  }

  /** A fee goes to the miner for four fifths, rounded down, and to the full nodes for the rest. */
  function Split(total: nat): GasFee {
    GasFee(total, 4 * total / 5, (total + 4) / 5)
  }

  lemma SplitShares(total: nat)
    ensures Split(total) == GasFeeWitness(total)
    ensures var fee := GasFeeWitness(total);
            fee.total == total == fee.miner + fee.fullnode && 5 * fee.miner <= 4 * total < 5 * fee.miner + 5
  {
  }

  /** What the virtual machine makes of one transaction: its tree, and the fee if it is a contract call. */
  function Call(env: Env, tree: Tree, tx: Tx): Option<(Tree, seq<GasFee>)> {
    if tx.payload == [] && !tx.contract then Some((tree, []))
    else if tx.gasLimit < CallGas(tx.payload) && tx.gasLimit < TWO_64 - 1 then None
    else
      match env.vm(tx.payload, tree, tx.gasLimit)
      case VmErr => None
      case VmOk(gasUsed, tree1) =>
        var total := gasUsed * tx.maxFeePerGas;
        Some((tree1, [Split(if total < TWO_128 then total else TWO_128 - 1)]))
  }

  /** The calls of a block, one after the other. */
  function Calls(env: Env, tree: Tree, txs: seq<Tx>): Option<(Tree, seq<GasFee>)>
    decreases txs
  {
    if txs == [] then Some((tree, []))
    else
      match Call(env, tree, txs[0])
      case None => None
      case Some((tree1, fees1)) =>
        match Calls(env, tree1, txs[1..])
        case None => None
        case Some((tree2, fees2)) => Some((tree2, fees1 + fees2))
  }

  /** The machine's part and the books' part of an application do not depend on each other. */
  ghost predicate Splits(w: Work, calls: Option<(Tree, seq<GasFee>)>, ops: seq<Op>, applied: Option<Work>) {
    && (applied.Some? <==> calls.Some? && Run(w.books, ops).Some?)
    && (applied.Some? ==>
          var w1 := applied.value;
          && w1.books == Run(w.books, ops).value
          && w1.tree == calls.value.0 && w1.fees == w.fees + calls.value.1 && w1.feesAdded == w.feesAdded + calls.value.1)
  }

  lemma TxSplits(env: Env, w: Work, tx: Tx)
    ensures Splits(w, Call(env, w.tree, tx), Ops(tx), ApplyTx(env, w, tx))
  {
    PayloadPrice(tx.payload);
    if !IsContract(tx) {
      WorkBooks(w, Ops(tx));
    } else if tx.gasLimit >= RequiredGas(tx.payload) && env.vm(tx.payload, w.tree, tx.gasLimit).VmOk? {
      var r := env.vm(tx.payload, w.tree, tx.gasLimit);
      var total := SatMul128(r.gasUsed, tx.maxFeePerGas);
      SplitShares(total);
      var fee := Split(total);
      WorkBooks(w.(tree := r.tree, fees := w.fees + [fee], feesAdded := w.feesAdded + [fee]), Ops(tx));
    }
  }

  lemma {:induction false} BlockSplits(env: Env, w: Work, txs: seq<Tx>)
    ensures Splits(w, Calls(env, w.tree, txs), BlockOps(txs), ApplyTxs(env, w, txs))
    decreases txs
  {
    if txs == [] {
    } else {
      TxSplits(env, w, txs[0]);
      RunAppend(w.books, Ops(txs[0]), BlockOps(txs[1..]));
      if ApplyTx(env, w, txs[0]).Some? {
        var w1 := ApplyTx(env, w, txs[0]).value;
        var calls := Call(env, w.tree, txs[0]);
        BlockSplits(env, w1, txs[1..]);
        if ApplyTxs(env, w1, txs[1..]).Some? {
          var more := Calls(env, w1.tree, txs[1..]).value.1;
          Assoc(w.fees, calls.value.1, more);
          Assoc(w.feesAdded, calls.value.1, more);
        }
      }
    }
  }

  // ----- when a block connects -----

  ghost predicate Accepts(env: Env, s: Core, b: Block) {
    && (forall i :: 0 <= i < |b.txs| ==> b.txs[i].inputs == [] || PaysItsWay(s.utxo, b.txs[i]))
    && (b.declaredRoot == None || b.txs == [] || b.declaredRoot == Some(env.rootOf(s.tree)))
    && Calls(env, s.tree, b.txs).Some?
    && OpenBooks(s.utxo, s.supply, b).Some? && OpenBooks(s.utxo, s.supply, b).value.supply <= 600_000_000_000_000_000
    && !PaysNobody(b.txs)
  }

  /** The working state the transactions of a block leave. */
  lemma BlockWork(env: Env, s: Core, b: Block)
    ensures var applied, calls, books := ApplyTxs(env, Begin(s), b.txs), Calls(env, s.tree, b.txs), OpenBooks(s.utxo, s.supply, b);
            && (applied.Some? <==> calls.Some? && books.Some?)
            && (applied.Some? ==>
                  && applied.value.books == books.value && applied.value.tree == calls.value.0
                  && applied.value.fees == applied.value.feesAdded == calls.value.1
                  && applied.value.pending == PendingOf(BlockOps(b.txs)))
  {
    BlockSplits(env, Begin(s), b.txs);
    if ApplyTxs(env, Begin(s), b.txs).Some? {
      BlockBooks(env, Begin(s), b.txs);
      assert [] + PendingOf(BlockOps(b.txs)) == PendingOf(BlockOps(b.txs));
      assert [] + Calls(env, s.tree, b.txs).value.1 == Calls(env, s.tree, b.txs).value.1;
    }
  }

  /**
   Any block on any state, contract calls included. It is refused, and changes nothing, exactly when a transaction does
   not pay its way, the declared root is not the current one, a call fails, an input is gone when its turn comes, the
   supply ends above the cap, or an output goes to the burn address. An accepted block panics exactly when the stack of
   snapshots does not reach above the height.
   */
  lemma ConnectIff(env: Env, s: Core, b: Block)
    ensures Connect(env, s, b).1 ==
            if !Accepts(env, s, b) then Failed else if s.height < |s.snapshots| then Done else Panicked
    ensures !Accepts(env, s, b) ==> Connect(env, s, b).0 == s
  {
    ValidIff(env, s, b);
    BlockWork(env, s, b);
    BurnsIff(b.txs);
  }

  /** For plain transfers nothing depends on the machine. */
  lemma {:induction false} NoCalls(env: Env, tree: Tree, txs: seq<Tx>)
    requires forall i :: 0 <= i < |txs| ==> txs[i].payload == [] && !txs[i].contract
    ensures Calls(env, tree, txs) == Some((tree, []))
  {
    if txs == [] {
    } else {
      assert forall i :: 0 <= i < |txs[1..]| ==> txs[1..][i] == txs[i + 1];
      NoCalls(env, tree, txs[1..]);
      assert Calls(env, tree, txs).value.1 == [];
    }
  }

  /** Plain transfers connect exactly by their inputs, outputs and owners, whatever the machine. */
  lemma TransfersConnectIff(env: Env, s: Core, b: Block)
    requires forall i :: 0 <= i < |b.txs| ==> b.txs[i].payload == [] && !b.txs[i].contract
    requires s.height < |s.snapshots|
    ensures Connect(env, s, b).1 == Done <==>
              && (forall i :: 0 <= i < |b.txs| ==> b.txs[i].inputs == [] || PaysItsWay(s.utxo, b.txs[i]))
              && (b.declaredRoot == None || b.txs == [] || b.declaredRoot == Some(env.rootOf(s.tree)))
              && OpenBooks(s.utxo, s.supply, b).Some? && OpenBooks(s.utxo, s.supply, b).value.supply <= MAX_GLOBAL_SUPPLY
              && (forall i, j :: 0 <= i < |b.txs| && 0 <= j < |b.txs[i].outputs| ==> b.txs[i].outputs[j].owner != 0)
  {
    NoCalls(env, s.tree, b.txs);
    ConnectIff(env, s, b);
  }

  // ----- double spends -----

  function AllInputs(txs: seq<Tx>): seq<OutPoint> {
    if txs == [] then [] else txs[0].inputs + AllInputs(txs[1..])
  }

  function SpentPoints(ops: seq<Op>): seq<OutPoint> {
    if ops == [] then []
    else if ops[0].Spend? then [ops[0].o] + SpentPoints(ops[1..])
    else SpentPoints(ops[1..])
  }

  lemma {:induction false} SpentAppend(xs: seq<Op>, ys: seq<Op>)
    ensures SpentPoints(xs + ys) == SpentPoints(xs) + SpentPoints(ys)
  {
    if xs == [] {
      assert xs + ys == ys;
    } else {
      assert (xs + ys)[1..] == xs[1..] + ys;
      SpentAppend(xs[1..], ys);
      if xs[0].Spend? {
        Assoc([xs[0].o], SpentPoints(xs[1..]), SpentPoints(ys));
      }
    }
  }

  lemma {:induction false} SpendsSpend(inputs: seq<OutPoint>)
    ensures SpentPoints(Spends(inputs)) == inputs
  {
    if inputs == [] {
    } else {
      SpendsSpend(inputs[1..]);
    }
  }

  lemma {:induction false} CreatesSpentNothing(id: Hash, outputs: seq<TxOutput>, index: nat)
    ensures SpentPoints(Creates(id, outputs, index)) == []
  {
    if outputs == [] {
    } else {
      CreatesSpentNothing(id, outputs[1..], index + 1);
    }
  }

  lemma {:induction false} BlockSpends(txs: seq<Tx>)
    ensures SpentPoints(BlockOps(txs)) == AllInputs(txs)
  {
    if txs == [] {
    } else {
      var tx := txs[0];
      SpentAppend(Ops(tx), BlockOps(txs[1..]));
      SpentAppend(Spends(tx.inputs), Creates(tx.id, tx.outputs, 0));
      SpendsSpend(tx.inputs);
      CreatesSpentNothing(tx.id, tx.outputs, 0);
      assert SpentPoints(Ops(tx)) == tx.inputs;
      BlockSpends(txs[1..]);
    }
  }

  lemma NoDupCons(o: OutPoint, rest: seq<OutPoint>)
    ensures NoDup([o] + rest) <==> o !in rest && NoDup(rest)
    ensures forall p :: p in [o] + rest <==> p == o || p in rest
  {
    var all := [o] + rest;
    assert all[0] == o && forall i :: 0 <= i < |rest| ==> all[i + 1] == rest[i];
    if NoDup(all) {
      assert o !in rest;
      assert NoDup(rest) by {
        forall i, j | 0 <= i < j < |rest|
          ensures rest[i] != rest[j]
        {
          assert all[i + 1] != all[j + 1];
        }
      }
    }
  }

  /** What the run asks of the spends still to come. */
  ghost predicate SpendsOpen(u: UtxoMap, ops: seq<Op>) {
    NoDup(SpentPoints(ops)) && forall o :: o in SpentPoints(ops) ==> o in u
  }

  ghost predicate KeptApart(ops: seq<Op>) {
    forall o :: o in SpentPoints(ops) ==> o !in CreatedPoints(ops)
  }

  lemma OpenHead(u: UtxoMap, ops: seq<Op>)
    requires ops != [] && KeptApart(ops)
    ensures KeptApart(ops[1..])
    ensures SpendsOpen(u, ops) <==>
            match ops[0]
            case Spend(o) => o in u && SpendsOpen(u - {o}, ops[1..])
            case Create(o, out) => SpendsOpen(u[o := out], ops[1..])
  {
    var rest := SpentPoints(ops[1..]);
    match ops[0]
    case Spend(o) =>
      NoDupCons(o, rest);
      assert CreatedPoints(ops) == CreatedPoints(ops[1..]);
    case Create(o, out) =>
      NoDupCons(o, CreatedPoints(ops[1..]));
      assert SpentPoints(ops) == rest;
      assert CreatedPoints(ops) == [o] + CreatedPoints(ops[1..]);
  }

  lemma {:induction false} RunIff(b: Books, ops: seq<Op>)
    requires KeptApart(ops)
    ensures Run(b, ops).Some? <==> SpendsOpen(b.utxo, ops)
    decreases ops
  {
    if ops == [] {
    } else {
      OpenHead(b.utxo, ops);
      if Step(b, ops[0]).Some? {
        RunIff(Step(b, ops[0]).value, ops[1..]);
      }
    }
  }

  /** A block of valid transactions with fresh output ids can be run exactly when it spends nothing twice. */
  lemma NoDoubleSpendIff(u: UtxoMap, supply: nat, b: Block)
    requires BooksValid(u, b.txs) && Fresh(u, BlockOps(b.txs))
    ensures OpenBooks(u, supply, b).Some? <==> NoDup(AllInputs(b.txs))
  {
    var ops := BlockOps(b.txs);
    ValidInputsLive(u, b.txs);
    BlockSpends(b.txs);
    forall o | o in SpentPoints(ops)
      ensures o in u
    {
      SpentIsSpend(ops, o);
    }
    RunIff(Books(u, supply, NO_UNDO), ops);
  }

  lemma {:induction false} SpentIsSpend(ops: seq<Op>, o: OutPoint)
    ensures o in SpentPoints(ops) <==> Spend(o) in ops
  {
    if ops == [] {
    } else {
      SpentIsSpend(ops[1..], o);
      assert ops == [ops[0]] + ops[1..];
    }
  }

  // ----- what a connected block leaves -----

  ghost predicate MakesAt(tx: Tx, j: nat, o: OutPoint, out: TxOutput) {
    j < |tx.outputs| && o == (tx.id, j % TWO_32) && out == tx.outputs[j]
  }

  ghost predicate Makes(txs: seq<Tx>, o: OutPoint, out: TxOutput) {
    exists i, j :: 0 <= i < |txs| && MakesAt(txs[i], j, o, out)
  }

  ghost predicate Places(id: Hash, outputs: seq<TxOutput>, index: nat, j: nat, o: OutPoint, out: TxOutput) {
    j < |outputs| && o == (id, (index + j) % TWO_32) && out == outputs[j]
  }

  lemma {:induction false} CreatesAre(id: Hash, outputs: seq<TxOutput>, index: nat, o: OutPoint, out: TxOutput)
    ensures Create(o, out) in Creates(id, outputs, index) <==> exists j :: Places(id, outputs, index, j, o, out)
  {
    if outputs == [] {
    } else {
      CreatesAre(id, outputs[1..], index + 1, o, out);
      FirstPlaced(id, outputs, index, index + 1, o, out);
    }
  }

  lemma FirstPlaced(id: Hash, outputs: seq<TxOutput>, index: nat, next: nat, o: OutPoint, out: TxOutput)
    requires outputs != [] && next == index + 1
    ensures (exists j :: Places(id, outputs, index, j, o, out)) <==>
              (o == (id, index % TWO_32) && out == outputs[0]) || exists j :: Places(id, outputs[1..], next, j, o, out)
  {
    if j: nat :| Places(id, outputs[1..], next, j, o, out) {
      assert Places(id, outputs, index, j + 1, o, out);
    }
    if j: nat :| Places(id, outputs, index, j, o, out) {
      assert j > 0 ==> Places(id, outputs[1..], next, j - 1, o, out);
    }
    assert Places(id, outputs, index, 0, o, out) <==> o == (id, index % TWO_32) && out == outputs[0];
  }

  lemma {:induction false} SpendsMakeNothing(inputs: seq<OutPoint>, o: OutPoint, out: TxOutput)
    ensures Create(o, out) !in Spends(inputs)
  {
    if inputs == [] {
    } else {
      SpendsMakeNothing(inputs[1..], o, out);
    }
  }

  lemma {:induction false} BlockMakes(txs: seq<Tx>, o: OutPoint, out: TxOutput)
    ensures Create(o, out) in BlockOps(txs) <==> Makes(txs, o, out)
  {
    if txs == [] {
    } else {
      var tx, rest := txs[0], txs[1..];
      SpendsMakeNothing(tx.inputs, o, out);
      CreatesAre(tx.id, tx.outputs, 0, o, out);
      BlockMakes(rest, o, out);
      assert Create(o, out) in Ops(tx) <==> exists j :: MakesAt(tx, j, o, out) by {
        assert forall j: nat :: MakesAt(tx, j, o, out) <==> Places(tx.id, tx.outputs, 0, j, o, out);
      }
      assert Makes(txs, o, out) <==> Makes(rest, o, out) || exists j :: MakesAt(tx, j, o, out) by {
        if i, j :| 0 <= i < |txs| && MakesAt(txs[i], j, o, out) {
          assert i > 0 ==> MakesAt(rest[i - 1], j, o, out);
        }
        if i, j :| 0 <= i < |rest| && MakesAt(rest[i], j, o, out) {
          assert MakesAt(txs[i + 1], j, o, out);
        }
      }
    }
  }

  lemma {:induction false} RunOther(b: Books, ops: seq<Op>, o: OutPoint)
    requires Run(b, ops).Some? && o !in CreatedPoints(ops) && o !in SpentPoints(ops)
    ensures var u := Run(b, ops).value.utxo; (o in u <==> o in b.utxo) && (o in u ==> u[o] == b.utxo[o])
    decreases ops
  {
    if ops == [] {
    } else {
      HeadPoints(ops, o);
      RunOther(Step(b, ops[0]).value, ops[1..], o);
    }
  }

  lemma HeadPoints(ops: seq<Op>, o: OutPoint)
    requires ops != []
    ensures o in CreatedPoints(ops) <==> (ops[0].Create? && ops[0].o == o) || o in CreatedPoints(ops[1..])
    ensures o in SpentPoints(ops) <==> (ops[0].Spend? && ops[0].o == o) || o in SpentPoints(ops[1..])
    ensures NoDup(CreatedPoints(ops)) ==>
              NoDup(CreatedPoints(ops[1..])) && (ops[0].Create? ==> ops[0].o !in CreatedPoints(ops[1..]))
  {
    if ops[0].Create? {
      NoDupCons(ops[0].o, CreatedPoints(ops[1..]));
    } else {
      NoDupCons(ops[0].o, SpentPoints(ops[1..]));
    }
  }

  lemma {:induction false} RunMakes(b: Books, ops: seq<Op>, o: OutPoint, out: TxOutput)
    requires Run(b, ops).Some? && NoDup(CreatedPoints(ops)) && o !in SpentPoints(ops) && Create(o, out) in ops
    ensures var u := Run(b, ops).value.utxo; o in u && u[o] == out
    decreases ops
  {
    HeadPoints(ops, o);
    if ops[0] == Create(o, out) {
      RunOther(Step(b, ops[0]).value, ops[1..], o);
    } else {
      assert Create(o, out) in ops[1..];
      RunMakes(Step(b, ops[0]).value, ops[1..], o, out);
    }
  }

  lemma {:induction false} RunTakes(b: Books, ops: seq<Op>, o: OutPoint)
    requires Run(b, ops).Some? && o !in CreatedPoints(ops) && o in SpentPoints(ops)
    ensures o !in Run(b, ops).value.utxo
    decreases ops
  {
    HeadPoints(ops, o);
    var b1 := Step(b, ops[0]).value;
    if o in SpentPoints(ops[1..]) {
      RunTakes(b1, ops[1..], o);
    } else {
      RunOther(b1, ops[1..], o);
    }
  }

  lemma {:induction false} CreatedIsMade(ops: seq<Op>, o: OutPoint)
    ensures o in CreatedPoints(ops) <==> exists out :: Create(o, out) in ops
  {
    if ops == [] {
    } else {
      HeadPoints(ops, o);
      CreatedIsMade(ops[1..], o);
      assert ops == [ops[0]] + ops[1..];
      assert ops[0].Create? && ops[0].o == o ==> Create(o, ops[0].out) in ops;
    }
  }

  /**
   The UTXO set after a connected block with fresh output ids, output by output: what the block's transactions make, and
   what was there before and is no input of theirs.
   */
  lemma ConnectedUtxo(env: Env, s: Core, b: Block, o: OutPoint, out: TxOutput)
    requires Connect(env, s, b).1 == Done && Fresh(s.utxo, BlockOps(b.txs))
    ensures var u := Connect(env, s, b).0.utxo;
            o in u && u[o] == out <==>
              Makes(b.txs, o, out) || (o in s.utxo && s.utxo[o] == out && o !in AllInputs(b.txs))
  {
    var ops, books := BlockOps(b.txs), Books(s.utxo, s.supply, NO_UNDO);
    ApplyDone(env, s, b);
    BlockMakes(b.txs, o, out);
    BlockSpends(b.txs);
    CreatedIsMade(ops, o);
    if o in CreatedPoints(ops) {
      var x :| Create(o, x) in ops;
      BlockMakes(b.txs, o, x);
      FreshUnspent(s.utxo, b.txs, o);
      RunMakes(books, ops, o, x);
      if Create(o, out) in ops {
        RunMakes(books, ops, o, out);
      }
    } else if o in SpentPoints(ops) {
      RunTakes(books, ops, o);
    } else {
      RunOther(books, ops, o);
    }
  }

  lemma FreshUnspent(u: UtxoMap, txs: seq<Tx>, o: OutPoint)
    requires BooksValid(u, txs) && Fresh(u, BlockOps(txs)) && o in CreatedPoints(BlockOps(txs))
    ensures o !in SpentPoints(BlockOps(txs))
  {
    ValidInputsLive(u, txs);
    SpentIsSpend(BlockOps(txs), o);
  }

  // ----- the tree -----

  /** The key of an output holds its index with the high byte first; a restored key has the low byte first. */
  lemma KeyBytes(o: OutPoint)
    ensures var key := KeyOf(o);
            && key.Digest? && key.id == o.0 && |key.index| == 4
            && 256 * (256 * (256 * key.index[0] + key.index[1]) + key.index[2]) + key.index[3] == o.1
    ensures var key := RestoredKey(o);
            && key.Digest? && key.id == o.0 && |key.index| == 4
            && 256 * (256 * (256 * key.index[3] + key.index[2]) + key.index[1]) + key.index[0] == o.1
    ensures forall i :: 0 <= i < 4 ==> KeyOf(o).index[i] < 256 && RestoredKey(o).index[i] < 256
  {
    BytesDetermine(o.1);
  }

  lemma {:induction false} PendingPoints(ops: seq<Op>)
    ensures UnderKeys(PendingOf(ops), CreatedPoints(ops))
  {
    if ops == [] {
    } else {
      var pending, points := PendingOf(ops[1..]), CreatedPoints(ops[1..]);
      PendingPoints(ops[1..]);
      if ops[0].Create? {
        UnderKeysMore((KeyOf(ops[0].o), OutputLeaf(ops[0].out)), pending, ops[0].o, points);
      } else {
        assert PendingOf(ops) == pending;
      }
    }
  }

  ghost predicate UnderKeys(pending: seq<(Key, Leaf)>, points: seq<OutPoint>) {
    |pending| == |points| && forall i :: 0 <= i < |pending| ==> pending[i].0 == KeyOf(points[i])
  }

  lemma UnderKeysMore(e: (Key, Leaf), pending: seq<(Key, Leaf)>, o: OutPoint, points: seq<OutPoint>)
    requires UnderKeys(pending, points) && e.0 == KeyOf(o)
    ensures UnderKeys([e] + pending, [o] + points)
  {
  }

  lemma {:induction false} PendingHas(ops: seq<Op>, o: OutPoint, out: TxOutput) returns (i: nat)
    requires Create(o, out) in ops
    ensures i < |PendingOf(ops)| && PendingOf(ops)[i] == (KeyOf(o), OutputLeaf(out))
  {
    if ops[0] == Create(o, out) {
      i := 0;
    } else {
      var rest := PendingHas(ops[1..], o, out);
      i := if ops[0].Create? then rest + 1 else rest;
    }
  }

  lemma {:induction false} PendingMade(ops: seq<Op>, i: nat)
    requires i < |PendingOf(ops)|
    ensures exists o, out :: Create(o, out) in ops && PendingOf(ops)[i] == (KeyOf(o), OutputLeaf(out))
  {
    if ops[0].Create? && i == 0 {
      assert Create(ops[0].o, ops[0].out) in ops;
    } else {
      var j := if ops[0].Create? then i - 1 else i;
      PendingMade(ops[1..], j);
      var o, out :| Create(o, out) in ops[1..] && PendingOf(ops[1..])[j] == (KeyOf(o), OutputLeaf(out));
      assert Create(o, out) in ops;
    }
  }

  /** The tree after a connected block with fresh output ids, key by key. */
  lemma ConnectedLeaf(env: Env, s: Core, b: Block, k: Key)
    requires Connect(env, s, b).1 == Done && Fresh(s.utxo, BlockOps(b.txs))
    ensures var s1 := Connect(env, s, b).0;
            && Calls(env, s.tree, b.txs).Some?
            && (k == TotalSupplyKey ==> Lookup(s1.tree, k) == Some(SupplyLeaf(s1.supply)))
            && (forall o, out :: Makes(b.txs, o, out) && KeyOf(o) == k ==> Lookup(s1.tree, k) == Some(OutputLeaf(out)))
            && (k != TotalSupplyKey && (forall o, out :: Makes(b.txs, o, out) ==> KeyOf(o) != k) ==>
                  Lookup(s1.tree, k) == Lookup(Calls(env, s.tree, b.txs).value.0, k))
  {
    var ops := BlockOps(b.txs);
    BlockWork(env, s, b);
    var w := ApplyTxs(env, Begin(s), b.txs).value;
    TransitionIff(w.tree, w.pending, w.books.supply);
    forall o, out | Makes(b.txs, o, out) && KeyOf(o) == k
      ensures Lookup(Connect(env, s, b).0.tree, k) == Some(OutputLeaf(out))
    {
      BlockMakes(b.txs, o, out);
      var i := PendingHas(ops, o, out);
      PendingLast(ops, i);
    }
    if Writes(w.pending, k) {
      var i :| 0 <= i < |w.pending| && w.pending[i].0 == k;
      PendingMade(ops, i);
      var o, out :| Create(o, out) in ops && w.pending[i] == (KeyOf(o), OutputLeaf(out));
      BlockMakes(b.txs, o, out);
    }
  }

  lemma PendingLast(ops: seq<Op>, i: nat)
    requires NoDup(CreatedPoints(ops)) && i < |PendingOf(ops)|
    ensures WrittenLast(PendingOf(ops), i)
  {
    PendingPoints(ops);
    forall j | i < j < |PendingOf(ops)|
      ensures PendingOf(ops)[j].0 != PendingOf(ops)[i].0
    {
      KeysDiffer(CreatedPoints(ops)[i], CreatedPoints(ops)[j]);
    }
  }

  // ----- the other fields -----

  ghost predicate MarkersAfter(w: Work, spent: seq<OutPoint>, w1: Work) {
    forall o :: (o in w1.markers <==> o in w.markers && o !in spent) && (o in w1.markers ==> w1.markers[o] == w.markers[o])
  }

  lemma {:induction false} RunMarkers(w: Work, ops: seq<Op>)
    requires RunWork(w, ops).Some?
    ensures MarkersAfter(w, SpentPoints(ops), RunWork(w, ops).value)
    decreases ops
  {
    if ops == [] {
    } else {
      RunMarkers(StepWork(w, ops[0]).value, ops[1..]);
      forall o {
        HeadPoints(ops, o);
      }
    }
  }

  lemma {:induction false} BlockMarkers(env: Env, w: Work, txs: seq<Tx>)
    requires ApplyTxs(env, w, txs).Some?
    ensures MarkersAfter(w, AllInputs(txs), ApplyTxs(env, w, txs).value)
    decreases txs
  {
    if txs == [] {
    } else {
      RunMarkers(Entered(env, w, txs[0]), Ops(txs[0]));
      SpentAppend(Spends(txs[0].inputs), Creates(txs[0].id, txs[0].outputs, 0));
      SpendsSpend(txs[0].inputs);
      CreatesSpentNothing(txs[0].id, txs[0].outputs, 0);
      assert SpentPoints(Ops(txs[0])) == txs[0].inputs;
      BlockMarkers(env, ApplyTx(env, w, txs[0]).value, txs[1..]);
    }
  }

  /**
   Every other field after a connected block: height, tip, fees, one snapshot and one stored tree on top, the undo entry,
   and the prune markers without those of spent outputs. The outpoint keys go on matching the UTXO set.
   */
  lemma ConnectedRest(env: Env, s: Core, b: Block)
    requires Connect(env, s, b).1 == Done
    ensures var s1 := Connect(env, s, b).0;
            && Calls(env, s.tree, b.txs).Some?
            && s1.height == s.height + 1 && s1.tip == Some(b.id) && s1.fees == Calls(env, s.tree, b.txs).value.1
            && s1.snapshots == s.snapshots + [Snapshot(s.height + 1, env.rootOf(s1.tree), s1.supply, s1.fees, Some(b.id))]
            && s1.storages == s.storages + [s1.tree] && s1.pending == PendingOf(BlockOps(b.txs))
            && b.id in s1.undo && s1.undo == s.undo[b.id := s1.undo[b.id]] && s1.undo[b.id].fees == s1.fees
    ensures var s1 := Connect(env, s, b).0;
            && (forall o :: o in s1.markers <==> o in s.markers && o !in AllInputs(b.txs))
            && (forall o :: o in s1.markers ==> s1.markers[o] == s.markers[o])
            && (KeysMatch(s.utxo, s.keys) ==> KeysMatch(s1.utxo, s1.keys))
  {
    BlockWork(env, s, b);
    BlockMarkers(env, Begin(s), b.txs);
    if KeysMatch(s.utxo, s.keys) {
      BlockKeys(env, Begin(s), b.txs);
    }
  }
}
