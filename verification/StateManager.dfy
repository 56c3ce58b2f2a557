/** The state manager itself: fields updated in place, each method tied to its transition in ChainState. */
module StateManager {
  import opened Basics
  import opened Ledger
  import opened ChainState
  import opened ChainSupply

  class UtxoSet {
    var utxos: UtxoMap

    constructor ()
      ensures utxos == map[]
    {
      utxos := map[];
    }
  }

  /** The fields a failing block application puts back. */
  datatype Backup = Backup(tree: Tree, height: nat, supply: nat, fees: seq<GasFee>, pending: seq<(Key, Leaf)>,
                           markers: map<OutPoint, PruneMarker>, keys: map<OutPoint, Key>,
                           utxos: UtxoMap, tip: Option<Hash>)

  ghost predicate Holds(b: Backup, s: Core) {
    b == Backup(s.tree, s.height, s.supply, s.fees, s.pending, s.markers, s.keys, s.utxo, s.tip)
  }

  class Manager {
    const env: Env
    var tree: Tree
    var currentHeight: nat
    var snapshots: seq<Snapshot>
    var snapshotStorages: seq<Tree>
    var pruneMarkers: map<OutPoint, PruneMarker>
    var outpointToKey: map<OutPoint, Key>
    var currentTotalSupply: nat
    var blockGasFees: seq<GasFee>
    var pendingUpdates: seq<(Key, Leaf)>
    var blockUndoData: map<Hash, BlockUndo>
    var currentBlockHash: Option<Hash>

    ghost function State(utxo: UtxoSet): Core
      reads this, utxo
    {
      Core(utxo.utxos, currentTotalSupply, tree, currentHeight, snapshots, snapshotStorages,
           pruneMarkers, outpointToKey, blockGasFees, pendingUpdates, blockUndoData, currentBlockHash)
    }

    ghost function WorkOf(utxo: UtxoSet, undo: BlockUndo): Work
      reads this, utxo
    {
      Work(Books(utxo.utxos, currentTotalSupply, undo.ledger), tree, outpointToKey, pruneMarkers,
           pendingUpdates, blockGasFees, undo.tree, undo.fees)
    }

    constructor (env: Env, tree: Tree)
      ensures this.env == env && this.tree == tree
      ensures currentHeight == 0 && currentTotalSupply == 0 && currentBlockHash == None
      ensures snapshots == [Snapshot(0, env.rootOf(tree), 0, [], None)] && snapshotStorages == [tree]
      ensures pruneMarkers == map[] && outpointToKey == map[] && blockUndoData == map[]
      ensures blockGasFees == [] && pendingUpdates == []
    {
      this.env := env;
      this.tree := tree;
      currentHeight := 0;
      snapshots := [Snapshot(0, env.rootOf(tree), 0, [], None)];
      snapshotStorages := [tree];
      pruneMarkers := map[];
      outpointToKey := map[];
      currentTotalSupply := 0;
      blockGasFees := [];
      pendingUpdates := [];
      blockUndoData := map[];
      currentBlockHash := None;
    }

    method SpendInput(outpoint: OutPoint, utxo: UtxoSet, undo: BlockUndo) returns (ok: bool, undo1: BlockUndo)
      modifies this`currentTotalSupply, this`outpointToKey, this`pruneMarkers, utxo
      ensures match StepWork(old(WorkOf(utxo, undo)), Spend(outpoint))
              case None => !ok
              case Some(w) => ok && WorkOf(utxo, undo1) == w
    {
      if outpoint !in utxo.utxos {
        return false, undo;
      }
      var output := utxo.utxos[outpoint];
      undo1 := undo.(ledger := Undo(undo.ledger.spent + [(outpoint, output)], undo.ledger.created,
                                    undo.ledger.delta - output.value));
      currentTotalSupply := SatSub(currentTotalSupply, output.value);
      utxo.utxos := utxo.utxos - {outpoint};
      outpointToKey := outpointToKey - {outpoint};
      pruneMarkers := pruneMarkers - {outpoint};
      ok := true;
    }

    method CreateOutput(outpoint: OutPoint, output: TxOutput, utxo: UtxoSet, undo: BlockUndo) returns (undo1: BlockUndo)
      modifies this`currentTotalSupply, this`outpointToKey, this`pendingUpdates, utxo
      ensures StepWork(old(WorkOf(utxo, undo)), Create(outpoint, output)) == Some(WorkOf(utxo, undo1))
    {
      var key := KeyOf(outpoint);
      var oldValue := Lookup(tree, key);
      undo1 := BlockUndo(Undo(undo.ledger.spent, undo.ledger.created + [outpoint], undo.ledger.delta + output.value),
                         undo.tree + [(key, oldValue)], undo.fees);
      utxo.utxos := utxo.utxos[outpoint := output];
      pendingUpdates := pendingUpdates + [(key, OutputLeaf(output))];
      outpointToKey := outpointToKey[outpoint := key];
      currentTotalSupply := SatAdd128(currentTotalSupply, output.value);
    }

    method ApplyUtxoTransaction(tx: Tx, utxo: UtxoSet, undo: BlockUndo) returns (ok: bool, undo1: BlockUndo)
      modifies this`currentTotalSupply, this`outpointToKey, this`pruneMarkers, this`pendingUpdates, utxo
      ensures match RunWork(old(WorkOf(utxo, undo)), Ops(tx))
              case None => !ok
              case Some(w) => ok && WorkOf(utxo, undo1) == w
    {
      ghost var creates := Creates(tx.id, tx.outputs, 0);
      ok, undo1 := SpendInputs(tx.inputs, utxo, undo, creates);
      if ok {
        undo1 := CreateOutputs(tx.id, tx.outputs, utxo, undo1);
      }
    }

    /** The input loop; `creates` is what the caller has still to do. */
    method SpendInputs(inputs: seq<OutPoint>, utxo: UtxoSet, undo: BlockUndo, ghost creates: seq<Op>)
      returns (ok: bool, undo1: BlockUndo)
      modifies this`currentTotalSupply, this`outpointToKey, this`pruneMarkers, utxo
      ensures RunWork(old(WorkOf(utxo, undo)), Spends(inputs) + creates) ==
              if ok then RunWork(WorkOf(utxo, undo1), creates) else None
    {
      ghost var w0 := WorkOf(utxo, undo);
      undo1 := undo;
      var i := 0;
      assert inputs[0..] == inputs;
      while i < |inputs|
        invariant 0 <= i <= |inputs|
        invariant RunWork(WorkOf(utxo, undo1), Spends(inputs[i..]) + creates) == RunWork(w0, Spends(inputs) + creates)
      {
        ghost var ops := Spends(inputs[i..]) + creates;
        assert ops[0] == Spend(inputs[i]);
        assert ops[1..] == Spends(inputs[i + 1..]) + creates;
        ok, undo1 := SpendInput(inputs[i], utxo, undo1);
        if !ok {
          return;
        }
        i := i + 1;
      }
      assert Spends(inputs[i..]) + creates == creates;
      ok := true;
    }

    method CreateOutputs(id: Hash, outputs: seq<TxOutput>, utxo: UtxoSet, undo: BlockUndo) returns (undo1: BlockUndo)
      modifies this`currentTotalSupply, this`outpointToKey, this`pendingUpdates, utxo
      ensures RunWork(old(WorkOf(utxo, undo)), Creates(id, outputs, 0)) == Some(WorkOf(utxo, undo1))
    {
      ghost var w0 := WorkOf(utxo, undo);
      undo1 := undo;
      var j := 0;
      assert outputs[0..] == outputs;
      while j < |outputs|
        invariant 0 <= j <= |outputs|
        invariant RunWork(WorkOf(utxo, undo1), Creates(id, outputs[j..], j)) == RunWork(w0, Creates(id, outputs, 0))
      {
        ghost var ops := Creates(id, outputs[j..], j);
        assert ops[0] == Create(OutputPoint(id, j), outputs[j]);
        assert ops[1..] == Creates(id, outputs[j + 1..], j + 1);
        undo1 := CreateOutput(OutputPoint(id, j), outputs[j], utxo, undo1);
        j := j + 1;
      }
    }

    method ApplyContractTransition(tx: Tx, utxo: UtxoSet, undo: BlockUndo) returns (ok: bool, undo1: BlockUndo)
      requires IsContract(tx)
      modifies this`currentTotalSupply, this`outpointToKey, this`pruneMarkers, this`pendingUpdates,
               this`tree, this`blockGasFees, utxo
      ensures match ApplyTx(env, old(WorkOf(utxo, undo)), tx)
              case None => !ok
              case Some(w) => ok && WorkOf(utxo, undo1) == w
    {
      undo1 := undo;
      var cost := 0;
      var i := 0;
      assert tx.payload[0..] == tx.payload;
      while i < |tx.payload|
        invariant 0 <= i <= |tx.payload|
        invariant cost + PayloadCost(tx.payload[i..]) == PayloadCost(tx.payload)
      {
        assert tx.payload[i..][1..] == tx.payload[i + 1..];
        cost := cost + if tx.payload[i] == 0 then 4 else 16;
        i := i + 1;
      }
      if tx.gasLimit < SatAdd64(21_000, cost) {
        return false, undo;
      }
      match env.vm(tx.payload, tree, tx.gasLimit)
      case VmErr => return false, undo;
      case VmOk(gasUsed, newTree) =>
        tree := newTree;
        var fee := GasFeeWitness(SatMul128(gasUsed, tx.maxFeePerGas));
        blockGasFees := blockGasFees + [fee];
        undo1 := undo1.(fees := undo1.fees + [fee]);
        ok, undo1 := ApplyUtxoTransaction(tx, utxo, undo1);
    }

    method ApplyTransaction(tx: Tx, utxo: UtxoSet, undo: BlockUndo) returns (ok: bool, undo1: BlockUndo)
      modifies this`currentTotalSupply, this`outpointToKey, this`pruneMarkers, this`pendingUpdates,
               this`tree, this`blockGasFees, utxo
      ensures match ApplyTx(env, old(WorkOf(utxo, undo)), tx)
              case None => !ok
              case Some(w) => ok && WorkOf(utxo, undo1) == w
    {
      if tx.payload == [] && !tx.contract {
        ok, undo1 := ApplyUtxoTransaction(tx, utxo, undo);
      } else {
        ok, undo1 := ApplyContractTransition(tx, utxo, undo);
      }
    }

    /** The tree's own checks: anti-burn before, supply cap after the updates. */
    method ApplyStateTransition(updates: seq<(Key, Leaf)>, newTotalSupply: nat) returns (ok: bool)
      modifies this`tree
      ensures match Transition(old(tree), updates, newTotalSupply)
              case None => !ok
              case Some(t) => ok && tree == t
      ensures ok <==>
                && newTotalSupply <= 600_000_000_000_000_000
                && forall i :: 0 <= i < |updates| && updates[i].1.OutputLeaf? ==> updates[i].1.out.owner != 0
      ensures ok ==> Lookup(tree, TotalSupplyKey) == Some(SupplyLeaf(newTotalSupply))
      ensures ok ==> forall i :: 0 <= i < |updates| && WrittenLast(updates, i) && updates[i].0 != TotalSupplyKey ==>
                                   Lookup(tree, updates[i].0) == Some(updates[i].1)
      ensures ok ==> forall k :: k != TotalSupplyKey && !Writes(updates, k) ==> Lookup(tree, k) == Lookup(old(tree), k)
    {
      TransitionIff(tree, updates, newTotalSupply);
      var i := 0;
      while i < |updates|
        invariant 0 <= i <= |updates| && tree == old(tree)
        invariant !Burns(updates[..i])
      {
        if updates[i].1.OutputLeaf? && updates[i].1.out.owner == BURN_ADDRESS {
          return false;
        }
        assert updates[..i + 1] == updates[..i] + [updates[i]];
        i := i + 1;
      }
      assert updates[..i] == updates;
      i := 0;
      while i < |updates|
        invariant 0 <= i <= |updates|
        invariant tree == InsertAll(old(tree), updates[..i])
      {
        assert updates[..i + 1][..i] == updates[..i];
        tree := tree[updates[i].0 := updates[i].1];
        i := i + 1;
      }
      assert updates[..i] == updates;
      tree := tree[TotalSupplyKey := SupplyLeaf(newTotalSupply)];
      ok := newTotalSupply <= MAX_GLOBAL_SUPPLY;
    }

    method ApplyTransactions(txs: seq<Tx>, utxo: UtxoSet) returns (ok: bool, undo: BlockUndo)
      modifies this`currentTotalSupply, this`outpointToKey, this`pruneMarkers, this`pendingUpdates,
               this`tree, this`blockGasFees, utxo
      ensures match ApplyTxs(env, old(WorkOf(utxo, EMPTY_UNDO)), txs)
              case None => !ok
              case Some(w) => ok && WorkOf(utxo, undo) == w
    {
      undo := EMPTY_UNDO;
      var i := 0;
      assert txs[0..] == txs;
      while i < |txs|
        invariant 0 <= i <= |txs|
        invariant ApplyTxs(env, WorkOf(utxo, undo), txs[i..]) == ApplyTxs(env, old(WorkOf(utxo, EMPTY_UNDO)), txs)
      {
        assert txs[i..][1..] == txs[i + 1..];
        ok, undo := ApplyTransaction(txs[i], utxo, undo);
        if !ok {
          return;
        }
        i := i + 1;
      }
      ok := true;
    }

    method TakeBackup(utxo: UtxoSet) returns (b: Backup)
      ensures Holds(b, State(utxo))
    {
      b := Backup(tree, currentHeight, currentTotalSupply, blockGasFees, pendingUpdates, pruneMarkers,
                  outpointToKey, utxo.utxos, currentBlockHash);
    }

    method RestoreBackup(b: Backup, utxo: UtxoSet)
      modifies this`tree, this`currentHeight, this`currentTotalSupply, this`blockGasFees, this`pendingUpdates,
               this`pruneMarkers, this`outpointToKey, this`currentBlockHash, utxo
      ensures Holds(b, State(utxo))
    {
      tree := b.tree;
      currentHeight := b.height;
      currentTotalSupply := b.supply;
      blockGasFees := b.fees;
      pendingUpdates := b.pending;
      pruneMarkers := b.markers;
      outpointToKey := b.keys;
      utxo.utxos := b.utxos;
      currentBlockHash := b.tip;
    }

    method ApplyBlock(block: Block, utxo: UtxoSet) returns (outcome: Outcome)
      modifies this, utxo
      ensures (State(utxo), outcome) == ChainState.ApplyBlock(env, old(State(utxo)), block)
      ensures outcome == Failed ==> State(utxo) == old(State(utxo))
    {
      var backup := TakeBackup(utxo);
      var ok, undo := RunBlock(block, utxo);
      if ok {
        outcome := CommitBlock(block, undo);
      } else {
        RestoreBackup(backup, utxo);
        outcome := Failed;
      }
    }

    /** The transactions and the state transition; a failure leaves a state half changed. */
    method RunBlock(block: Block, utxo: UtxoSet) returns (ok: bool, undo: BlockUndo)
      modifies this`currentTotalSupply, this`outpointToKey, this`pruneMarkers, this`pendingUpdates,
               this`tree, this`blockGasFees, utxo
      ensures match ApplyTxs(env, Begin(old(State(utxo))), block.txs)
              case None => !ok
              case Some(w) =>
                match Transition(w.tree, w.pending, w.books.supply)
                case None => !ok
                case Some(t) => ok && WorkOf(utxo, undo) == w.(tree := t)
    {
      pendingUpdates := [];
      blockGasFees := [];
      assert WorkOf(utxo, EMPTY_UNDO) == Begin(old(State(utxo)));
      ok, undo := ApplyTransactions(block.txs, utxo);
      if ok {
        ok := ApplyStateTransition(pendingUpdates, currentTotalSupply);
      }
    }

    /** Height and tip move first; then the parent's snapshot is read, which panics if there is none. */
    method CommitBlock(block: Block, undo: BlockUndo) returns (outcome: Outcome)
      modifies this`currentHeight, this`currentBlockHash, this`snapshots, this`snapshotStorages, this`blockUndoData
      ensures currentHeight == old(currentHeight) + 1 && currentBlockHash == Some(block.id)
      ensures old(currentHeight) >= |old(snapshots)| ==>
                && outcome == Panicked && snapshots == old(snapshots)
                && snapshotStorages == old(snapshotStorages) && blockUndoData == old(blockUndoData)
      ensures old(currentHeight) < |old(snapshots)| ==>
                && outcome == Done
                && snapshots == old(snapshots) + [Snapshot(old(currentHeight) + 1, env.rootOf(tree), currentTotalSupply,
                                                           blockGasFees, Some(block.id))]
                && snapshotStorages == old(snapshotStorages) + [tree]
                && blockUndoData == old(blockUndoData)[block.id := undo]
    {
      var snapshotHeight := currentHeight;
      currentHeight := currentHeight + 1;
      currentBlockHash := Some(block.id);
      var newRoot := env.rootOf(tree);
      if snapshotHeight >= |snapshots| {
        return Panicked;
      }
      snapshots := snapshots + [Snapshot(currentHeight, newRoot, currentTotalSupply, blockGasFees, currentBlockHash)];
      snapshotStorages := snapshotStorages + [tree];
      blockUndoData := blockUndoData[block.id := undo];
      outcome := Done;
    }

    method ValidateBlockStateful(block: Block, utxo: UtxoSet) returns (ok: bool)
      ensures ok == ChainState.Valid(env, State(utxo), block)
      ensures ok <==>
                && (forall i :: 0 <= i < |block.txs| ==>
                      block.txs[i].inputs == [] || PaysItsWay(utxo.utxos, block.txs[i]))
                && (block.declaredRoot == None || block.txs == [] || block.declaredRoot == Some(env.rootOf(tree)))
    {
      ValidIff(env, State(utxo), block);
      var u := utxo.utxos;
      var i := 0;
      while i < |block.txs|
        invariant 0 <= i <= |block.txs|
        invariant forall k :: 0 <= k < i ==> IsCoinbase(block.txs[k]) || TxInputsLive(u, block.txs[k])
      {
        var tx := block.txs[i];
        var j := 0;
        while j < |tx.inputs|
          invariant 0 <= j <= |tx.inputs|
          invariant forall k :: 0 <= k < j ==> tx.inputs[k] in u
        {
          if tx.inputs[j] !in u {
            assert !TxValid(u, tx);
            return false;
          }
          j := j + 1;
        }
        i := i + 1;
      }

      if block.declaredRoot.Some? {
        i := 0;
        while i < |block.txs|
          invariant 0 <= i <= |block.txs|
          invariant i > 0 ==> block.declaredRoot.value == env.rootOf(tree)
        {
          if block.declaredRoot.value != env.rootOf(tree) && block.txs != [] {
            return false;
          }
          i := i + 1;
        }
      }

      i := 0;
      while i < |block.txs|
        invariant 0 <= i <= |block.txs|
        invariant forall k :: 0 <= k < i ==> TxValid(u, block.txs[k])
      {
        var tx := block.txs[i];
        if tx.inputs != [] {
          var totalInput, j := 0, 0;
          while j < |tx.inputs|
            invariant 0 <= j <= |tx.inputs| && totalInput == InputSum(u, tx.inputs[..j])
          {
            assert tx.inputs[..j + 1][..j] == tx.inputs[..j];
            if tx.inputs[j] in u {
              totalInput := SatAdd64(totalInput, u[tx.inputs[j]].value);
            }
            j := j + 1;
          }
          assert tx.inputs[..j] == tx.inputs;
          var totalOutput, m := 0, 0;
          while m < |tx.outputs|
            invariant 0 <= m <= |tx.outputs| && totalOutput == OutputSum(tx.outputs[..m])
          {
            assert tx.outputs[..m + 1][..m] == tx.outputs[..m];
            totalOutput := SatAdd64(totalOutput, tx.outputs[m].value);
            m := m + 1;
          }
          assert tx.outputs[..m] == tx.outputs;
          var gasFee := SatMul128(tx.gasLimit, tx.maxFeePerGas);
          if totalInput < SatAdd64(totalOutput, gasFee % TWO_64) {
            assert !TxValid(u, tx);
            return false;
          }
        }
        i := i + 1;
      }
      ok := true;
    }

    method ConnectBlock(block: Block, utxo: UtxoSet) returns (outcome: Outcome)
      modifies this, utxo
      ensures (State(utxo), outcome) == Connect(env, old(State(utxo)), block)
      ensures outcome == Failed ==> State(utxo) == old(State(utxo))
    {
      var ok := ValidateBlockStateful(block, utxo);
      if !ok {
        return Failed;
      }
      outcome := ApplyBlock(block, utxo);
    }

    method DisconnectBlock(block: Block, utxo: UtxoSet) returns (outcome: Outcome)
      modifies this, utxo
      ensures (State(utxo), outcome) == Disconnect(old(State(utxo)), block)
      ensures outcome == if block.id in old(blockUndoData) then Done else Failed
      ensures outcome == Failed ==> State(utxo) == old(State(utxo))
      ensures currentBlockHash == old(currentBlockHash) && pruneMarkers == old(pruneMarkers)
      ensures pendingUpdates == old(pendingUpdates)
      ensures blockUndoData == old(blockUndoData) - {block.id}
    {
      if block.id !in blockUndoData {
        return Failed;
      }
      ReverseOperations(blockUndoData[block.id], utxo);
      currentHeight := SatSub(currentHeight, 1);
      snapshots := Pop(snapshots, 1);
      snapshotStorages := Pop(snapshotStorages, 1);
      blockUndoData := blockUndoData - {block.id};
      outcome := Done;
    }

    method ReverseOperations(u: BlockUndo, utxo: UtxoSet)
      modifies this`outpointToKey, this`tree, this`currentTotalSupply, this`blockGasFees, utxo
      ensures utxo.utxos == UndoUtxo(old(utxo.utxos), u.ledger)
      ensures outpointToKey == RestoreKeys(old(outpointToKey) - Elems(u.ledger.created), u.ledger.spent)
      ensures tree == UndoTree(old(tree), u.tree)
      ensures currentTotalSupply == UndoSupply(old(currentTotalSupply), u.ledger.delta)
      ensures blockGasFees == Pop(old(blockGasFees), |u.fees|)
    {
      RemoveCreated(u.ledger.created, utxo);
      RestoreSpent(u.ledger.spent, utxo);
      ReverseTree(u.tree);
      if u.ledger.delta > 0 {
        currentTotalSupply := SatSub(currentTotalSupply, u.ledger.delta);
      } else {
        currentTotalSupply := SatAdd128(currentTotalSupply, -u.ledger.delta);
      }
      PopFees(|u.fees|);
    }

    method PopFees(n: nat)
      modifies this`blockGasFees
      ensures blockGasFees == Pop(old(blockGasFees), n)
    {
      var i := 0;
      while i < n
        invariant 0 <= i <= n && blockGasFees == Pop(old(blockGasFees), i)
      {
        if blockGasFees != [] {
          blockGasFees := blockGasFees[..|blockGasFees| - 1];
        }
        i := i + 1;
      }
    }

    method RemoveCreated(created: seq<OutPoint>, utxo: UtxoSet)
      modifies this`outpointToKey, utxo
      ensures utxo.utxos == old(utxo.utxos) - Elems(created)
      ensures outpointToKey == old(outpointToKey) - Elems(created)
    {
      var i := 0;
      while i < |created|
        invariant 0 <= i <= |created|
        invariant utxo.utxos == old(utxo.utxos) - Elems(created[..i])
        invariant outpointToKey == old(outpointToKey) - Elems(created[..i])
      {
        assert created[..i + 1] == created[..i] + [created[i]];
        assert Elems(created[..i + 1]) == Elems(created[..i]) + {created[i]};
        utxo.utxos := utxo.utxos - {created[i]};
        outpointToKey := outpointToKey - {created[i]};
        i := i + 1;
      }
      assert created[..i] == created;
    }

    method RestoreSpent(spent: seq<(OutPoint, TxOutput)>, utxo: UtxoSet)
      modifies this`outpointToKey, utxo
      ensures utxo.utxos == Restore(old(utxo.utxos), spent)
      ensures outpointToKey == RestoreKeys(old(outpointToKey), spent)
    {
      var i := 0;
      while i < |spent|
        invariant 0 <= i <= |spent|
        invariant utxo.utxos == Restore(old(utxo.utxos), spent[..i])
        invariant outpointToKey == RestoreKeys(old(outpointToKey), spent[..i])
      {
        assert spent[..i + 1][..i] == spent[..i];
        utxo.utxos := utxo.utxos[spent[i].0 := spent[i].1];
        outpointToKey := outpointToKey[spent[i].0 := RestoredKey(spent[i].0)];
        i := i + 1;
      }
      assert spent[..i] == spent;
    }

    method ReverseTree(updates: seq<(Key, Option<Leaf>)>)
      modifies this`tree
      ensures tree == UndoTree(old(tree), updates)
    {
      var i := |updates|;
      assert updates[..i] == updates;
      while i > 0
        invariant 0 <= i <= |updates|
        invariant UndoTree(tree, updates[..i]) == UndoTree(old(tree), updates)
      {
        assert updates[..i][..i - 1] == updates[..i - 1];
        var (key, oldValue) := updates[i - 1];
        tree := tree[key := if oldValue.Some? then oldValue.value else BytesLeaf([])];
        i := i - 1;
      }
    }

    method HasSnapshotAt(target: nat) returns (found: bool)
      ensures found == HasSnapshot(snapshots, target)
    {
      var i := 0;
      while i < |snapshots| && snapshots[i].height != target
        invariant 0 <= i <= |snapshots| && forall j :: 0 <= j < i ==> snapshots[j].height != target
      {
        i := i + 1;
      }
      found := i < |snapshots|;
    }

    /** A failure after the truncation leaves the stacks truncated. */
    method RollbackState(target: nat, ghost utxo: UtxoSet) returns (outcome: Outcome)
      modifies this`snapshots, this`snapshotStorages, this`currentHeight, this`tree, this`currentTotalSupply, this`blockGasFees
      ensures (State(utxo), outcome) == ChainState.RollbackState(env, old(State(utxo)), target)
    {
      if target > currentHeight {
        return Failed;
      }
      var found := HasSnapshotAt(target);
      if !found {
        return Failed;
      }
      snapshots := Truncate(snapshots, target + 1);
      snapshotStorages := Truncate(snapshotStorages, target + 1);
      currentHeight := target;
      if target >= |snapshotStorages| {
        return Failed;
      }
      tree := snapshotStorages[target];
      if target >= |snapshots| {
        return Panicked;
      }
      currentTotalSupply := snapshots[target].supply;
      blockGasFees := snapshots[target].fees;
      outcome := if env.rootOf(tree) == snapshots[target].root then Done else Failed;
    }

    /** Puts six fields back when the bare rollback fails; the root is compared once more when it does not. */
    method Rollback(target: nat, ghost utxo: UtxoSet) returns (outcome: Outcome)
      modifies this`snapshots, this`snapshotStorages, this`currentHeight, this`tree, this`currentTotalSupply, this`blockGasFees
      ensures (State(utxo), outcome) == ChainState.Rollback(env, old(State(utxo)), target)
    {
      if target > currentHeight {
        return Failed;
      }
      var backupTree, backupHeight, backupSnapshots := tree, currentHeight, snapshots;
      var backupStorages, backupSupply, backupFees := snapshotStorages, currentTotalSupply, blockGasFees;
      outcome := RollbackState(target, utxo);
      if outcome == Failed || (outcome == Done && env.rootOf(tree) != snapshots[target].root) {
        tree := backupTree;
        currentHeight := backupHeight;
        snapshots := backupSnapshots;
        snapshotStorages := backupStorages;
        currentTotalSupply := backupSupply;
        blockGasFees := backupFees;
        outcome := Failed;
      }
    }

    /** The leading blocks with undo data are disconnected, the others connected. */
    method SplitPlan(dag: Dag, plan: seq<Hash>) returns (disconnect: seq<Block>, connect: seq<Block>)
      ensures disconnect + connect == KnownBlocks(dag, plan)
      ensures |disconnect| == AppliedPrefix(blockUndoData.Keys, KnownBlocks(dag, plan))
    {
      disconnect, connect := [], [];
      var foundDivergence := false;
      var i := 0;
      while i < |plan|
        invariant 0 <= i <= |plan|
        invariant KnownBlocks(dag, plan[..i]) == disconnect + connect
        invariant forall k :: 0 <= k < |disconnect| ==> disconnect[k].id in blockUndoData
        invariant foundDivergence <==> connect != []
        invariant foundDivergence ==> connect[0].id !in blockUndoData
      {
        assert plan[..i + 1][..i] == plan[..i];
        if plan[i] in dag {
          var b := dag[plan[i]];
          if !foundDivergence && b.id in blockUndoData {
            disconnect := disconnect + [b];
          } else {
            foundDivergence := true;
            connect := connect + [b];
          }
        }
        i := i + 1;
      }
      assert plan[..i] == plan;
      PrefixSplit(blockUndoData.Keys, disconnect, connect);
    }

    method PerformReorganization(dag: Dag, utxo: UtxoSet, plan: seq<Hash>) returns (outcome: Outcome)
      modifies this, utxo
      ensures (State(utxo), outcome) == Perform(env, old(State(utxo)), KnownBlocks(dag, plan))
    {
      ghost var known := KnownBlocks(dag, plan);
      var disconnect, connect := SplitPlan(dag, plan);
      assert known[..|disconnect|] == disconnect && known[|disconnect|..] == connect;
      outcome := DisconnectBlocks(disconnect, utxo);
      if outcome == Done {
        outcome := ConnectBlocks(connect, utxo);
      }
    }

    method DisconnectBlocks(blocks: seq<Block>, utxo: UtxoSet) returns (outcome: Outcome)
      modifies this, utxo
      ensures (State(utxo), outcome) == DisconnectAll(old(State(utxo)), blocks)
    {
      var d := |blocks|;
      assert blocks[..d] == blocks;
      while d > 0
        invariant 0 <= d <= |blocks|
        invariant DisconnectAll(State(utxo), blocks[..d]) == DisconnectAll(old(State(utxo)), blocks)
      {
        assert blocks[..d][..d - 1] == blocks[..d - 1];
        outcome := DisconnectBlock(blocks[d - 1], utxo);
        if outcome != Done {
          return;
        }
        d := d - 1;
      }
      outcome := Done;
    }

    method ConnectBlocks(blocks: seq<Block>, utxo: UtxoSet) returns (outcome: Outcome)
      modifies this, utxo
      ensures (State(utxo), outcome) == ConnectAll(env, old(State(utxo)), blocks)
    {
      var c := 0;
      assert blocks[c..] == blocks;
      while c < |blocks|
        invariant 0 <= c <= |blocks|
        invariant ConnectAll(env, State(utxo), blocks[c..]) == ConnectAll(env, old(State(utxo)), blocks)
      {
        assert blocks[c..][1..] == blocks[c + 1..];
        outcome := ConnectBlock(blocks[c], utxo);
        if outcome != Done {
          return;
        }
        c := c + 1;
      }
      outcome := Done;
    }

    /** What a failing reorganization puts back; nothing else moves. */
    method RestoreChain(height: nat, supply: nat, fees: seq<GasFee>, tip: Option<Hash>, utxos: UtxoMap, utxo: UtxoSet)
      modifies this`currentHeight, this`currentTotalSupply, this`blockGasFees, this`currentBlockHash, utxo
      ensures State(utxo) ==
              old(State(utxo)).(utxo := utxos, supply := supply, height := height, fees := fees, tip := tip)
    {
      currentHeight := height;
      currentTotalSupply := supply;
      blockGasFees := fees;
      currentBlockHash := tip;
      utxo.utxos := utxos;
    }

    /** `plan` is what the consensus layer answered: nothing if it refused or could not plan. */
    method ReorganizeChain(dag: Dag, utxo: UtxoSet, plan: Option<seq<Hash>>) returns (outcome: Outcome)
      modifies this, utxo
      ensures plan.None? ==> outcome == Failed && State(utxo) == old(State(utxo))
      ensures plan.Some? ==> (State(utxo), outcome) == Reorganize(env, old(State(utxo)), KnownBlocks(dag, plan.value))
      ensures outcome == Failed ==> utxo.utxos == old(utxo.utxos) && currentTotalSupply == old(currentTotalSupply)
      ensures outcome == Failed ==> currentHeight == old(currentHeight) && currentBlockHash == old(currentBlockHash)
      ensures outcome == Failed ==> blockGasFees == old(blockGasFees)
      ensures outcome == Done ==>
                var known := KnownBlocks(dag, plan.value);
                currentBlockHash ==
                if AllIn(old(blockUndoData.Keys), known) then old(currentBlockHash) else Some(known[|known| - 1].id)
    {
      ghost var s0 := State(utxo);
      if plan.None? {
        return Failed;
      }
      var height, supply, fees, tip := currentHeight, currentTotalSupply, blockGasFees, currentBlockHash;
      var utxoSnapshot := utxo.utxos;
      outcome := PerformReorganization(dag, utxo, plan.value);
      if outcome == Failed {
        RestoreChain(height, supply, fees, tip, utxoSnapshot, utxo);
      }
      if outcome == Done {
        ReorganizedTip(env, s0, KnownBlocks(dag, plan.value));
      }
    }
  }
}
