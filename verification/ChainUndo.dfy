/** What disconnecting a block takes back: exactly which fields return to their values before the block. */
module ChainUndo {
  import opened Basics
  import opened Ledger
  import opened ChainState

  // ----- the books of a block application -----

  function PendingOf(ops: seq<Op>): seq<(Key, Leaf)> {
    if ops == [] then []
    else
      (match ops[0]
       case Spend(o) => []
       case Create(o, out) => [(KeyOf(o), OutputLeaf(out))]) + PendingOf(ops[1..])
  }

  lemma {:induction false} PendingAppend(xs: seq<Op>, ys: seq<Op>)
    ensures PendingOf(xs + ys) == PendingOf(xs) + PendingOf(ys)
  {
    if xs == [] {
      assert xs + ys == ys;
    } else {
      assert (xs + ys)[1..] == xs[1..] + ys;
      PendingAppend(xs[1..], ys);
    }
  }

  /** A working state can make the run exactly when its books can. */
  lemma {:induction false} WorkRuns(w: Work, ops: seq<Op>)
    ensures RunWork(w, ops).Some? <==> Run(w.books, ops).Some?
    ensures RunWork(w, ops).Some? ==> RunWork(w, ops).value.books == Run(w.books, ops).value
    decreases ops
  {
    if ops != [] && StepWork(w, ops[0]).Some? {
      WorkRuns(StepWork(w, ops[0]).value, ops[1..]);
    }
  }

  lemma {:induction false} WorkPends(w: Work, ops: seq<Op>)
    requires RunWork(w, ops).Some?
    ensures var w1 := RunWork(w, ops).value;
            && w1.pending == w.pending + PendingOf(ops)
            && w1.tree == w.tree && w1.fees == w.fees && w1.feesAdded == w.feesAdded
    decreases ops
  {
    if ops == [] {
    } else {
      var w1, rest := StepWork(w, ops[0]).value, PendingOf(ops[1..]);
      WorkPends(w1, ops[1..]);
      var first := if ops[0].Create? then [(KeyOf(ops[0].o), OutputLeaf(ops[0].out))] else [];
      assert PendingOf(ops) == first + rest && w1.pending == w.pending + first;
      Assoc(w.pending, first, rest);
    }
  }

  lemma WorkBooks(w: Work, ops: seq<Op>)
    ensures RunWork(w, ops).Some? <==> Run(w.books, ops).Some?
    ensures RunWork(w, ops).Some? ==>
              var w1 := RunWork(w, ops).value;
              && w1.books == Run(w.books, ops).value
              && w1.pending == w.pending + PendingOf(ops)
              && w1.tree == w.tree && w1.fees == w.fees && w1.feesAdded == w.feesAdded
  {
    WorkRuns(w, ops);
    if RunWork(w, ops).Some? {
      WorkPends(w, ops);
    }
  }

  ghost predicate BooksAfter(w: Work, ops: seq<Op>, w1: Work) {
    && Run(w.books, ops) == Some(w1.books)
    && w1.pending == w.pending + PendingOf(ops)
    && |w1.fees| - |w1.feesAdded| == |w.fees| - |w.feesAdded|
    && (w.fees == w.feesAdded ==> w1.fees == w1.feesAdded)
  }

  lemma TxBooks(env: Env, w: Work, tx: Tx)
    requires ApplyTx(env, w, tx).Some?
    ensures BooksAfter(w, Ops(tx), ApplyTx(env, w, tx).value)
  {
    WorkBooks(Entered(env, w, tx), Ops(tx));
  }

  lemma {:induction false} BlockBooks(env: Env, w: Work, txs: seq<Tx>)
    requires ApplyTxs(env, w, txs).Some?
    ensures BooksAfter(w, BlockOps(txs), ApplyTxs(env, w, txs).value)
    decreases txs
  {
    if txs == [] {
    } else {
      var ops, rest := Ops(txs[0]), BlockOps(txs[1..]);
      var w1 := ApplyTx(env, w, txs[0]).value;
      TxBooks(env, w, txs[0]);
      BlockBooks(env, w1, txs[1..]);
      BooksCompose(w, ops, w1, rest, ApplyTxs(env, w, txs).value);
    }
  }

  lemma BooksCompose(w: Work, ops: seq<Op>, w1: Work, rest: seq<Op>, w2: Work)
    requires BooksAfter(w, ops, w1) && BooksAfter(w1, rest, w2)
    ensures BooksAfter(w, ops + rest, w2)
  {
    RunAppend(w.books, ops, rest);
    PendingAppend(ops, rest);
    Assoc(w.pending, PendingOf(ops), PendingOf(rest));
  }

  /** The working state once a contract has run: only the tree and the fees have moved. */
  ghost function Entered(env: Env, w: Work, tx: Tx): (w0: Work)
    requires ApplyTx(env, w, tx).Some?
    ensures ApplyTx(env, w, tx) == RunWork(w0, Ops(tx))
    ensures w0.books == w.books && w0.pending == w.pending && w0.keys == w.keys && w0.treeUndo == w.treeUndo
    ensures w0.markers == w.markers
    ensures |w0.fees| - |w0.feesAdded| == |w.fees| - |w.feesAdded|
    ensures w.fees == w.feesAdded ==> w0.fees == w0.feesAdded
    ensures !IsContract(tx) ==> w0 == w
  {
    if !IsContract(tx) then w
    else
      var r := env.vm(tx.payload, w.tree, tx.gasLimit);
      var fee := GasFeeWitness(SatMul128(r.gasUsed, tx.maxFeePerGas));
      w.(tree := r.tree, fees := w.fees + [fee], feesAdded := w.feesAdded + [fee])
  }

  /** The books of `b` opened on a UTXO map and a supply. */
  function OpenBooks(u: UtxoMap, supply: nat, b: Block): Option<Books> {
    Run(Books(u, supply, NO_UNDO), BlockOps(b.txs))
  }

  /** What an applied block did to the fields the ledger is made of. */
  lemma ApplyDone(env: Env, s: Core, b: Block)
    requires ApplyBlock(env, s, b).1 == Done
    ensures var s1 := ApplyBlock(env, s, b).0;
            var books := OpenBooks(s.utxo, s.supply, b);
            && books.Some? && s1.utxo == books.value.utxo && s1.supply == books.value.supply
            && s1.supply <= MAX_GLOBAL_SUPPLY && !Burns(PendingOf(BlockOps(b.txs)))
            && s1.height == s.height + 1 && s.height < |s.snapshots|
            && s1.snapshots[..|s.snapshots|] == s.snapshots && |s1.snapshots| == |s.snapshots| + 1
            && s1.snapshots[|s.snapshots|].height == s1.height && s1.snapshots[|s.snapshots|].supply == s1.supply
            && |s1.storages| == |s.storages| + 1 && s1.storages[..|s.storages|] == s.storages
            && b.id in s1.undo && s1.undo == s.undo[b.id := s1.undo[b.id]]
            && s1.undo[b.id].ledger == books.value.undo
            && s1.fees == s1.undo[b.id].fees
  {
    BlockBooks(env, Begin(s), b.txs);
    var w := ApplyTxs(env, Begin(s), b.txs).value;
    assert [] + PendingOf(BlockOps(b.txs)) == PendingOf(BlockOps(b.txs));
    assert w.pending == PendingOf(BlockOps(b.txs));
    assert w.fees == w.feesAdded;
  }

  // ----- undo -----

  /** The supply covers the UTXO set and respects the cap. */
  ghost predicate Backed(u: UtxoMap, supply: nat) {
    Total(u) <= supply <= MAX_GLOBAL_SUPPLY
  }

  lemma {:induction false} CreatedValueAppend(xs: seq<Op>, ys: seq<Op>)
    ensures CreatedValue(xs + ys) == CreatedValue(xs) + CreatedValue(ys)
  {
    if xs == [] {
      assert xs + ys == ys;
    } else {
      assert (xs + ys)[1..] == xs[1..] + ys;
      CreatedValueAppend(xs[1..], ys);
    }
  }

  lemma {:induction false} CreatesBound(id: Hash, outputs: seq<TxOutput>, index: nat)
    ensures CreatedValue(Creates(id, outputs, index)) <= |outputs| * TWO_64
  {
    if outputs == [] {
    } else {
      CreatesBound(id, outputs[1..], index + 1);
    }
  }

  lemma {:induction false} SpendsCreateNothing(inputs: seq<OutPoint>)
    ensures CreatedValue(Spends(inputs)) == 0
  {
    if inputs == [] {
    } else {
      SpendsCreateNothing(inputs[1..]);
    }
  }

  lemma {:induction false} CreatedValueBound(txs: seq<Tx>)
    ensures CreatedValue(BlockOps(txs)) <= OutputCount(txs) * TWO_64
  {
    if txs == [] {
    } else {
      var tx := txs[0];
      CreatedValueAppend(Ops(tx), BlockOps(txs[1..]));
      CreatedValueAppend(Spends(tx.inputs), Creates(tx.id, tx.outputs, 0));
      SpendsCreateNothing(tx.inputs);
      CreatesBound(tx.id, tx.outputs, 0);
      CreatedValueBound(txs[1..]);
    }
  }

  /**
   Applying a block to a backed state never saturates: the supply moves by exactly the recorded delta, the delta
   fits a signed 128-bit integer, and the supply runs ahead of the UTXO total by the value written over.
   */
  lemma NoSaturation(u: UtxoMap, supply: nat, b: Block)
    requires Backed(u, supply) && OpenBooks(u, supply, b).Some?
    ensures var books := OpenBooks(u, supply, b).value;
            && books.supply == supply + books.undo.delta
            && -TWO_64 < books.undo.delta < TWO_128 / 2
            && books.supply - Total(books.utxo) == supply - Total(u) + Overwritten(u, BlockOps(b.txs))
  {
    CreatedValueBound(b.txs);
    RunBalance(Books(u, supply, NO_UNDO), BlockOps(b.txs));
  }

  /**
   Disconnecting a block that was just applied to a backed state takes back the supply, height, snapshots,
   storages and undo records in every case, and the UTXO set exactly when the block is undoable.
   */
  lemma DisconnectAfterApply(env: Env, s: Core, b: Block)
    requires Backed(s.utxo, s.supply) && b.id !in s.undo
    requires ApplyBlock(env, s, b).1 == Done
    ensures var s1 := ApplyBlock(env, s, b).0;
            var (s2, outcome) := Disconnect(s1, b);
            && outcome == Done
            && s2.supply == s.supply && s2.height == s.height && s2.undo == s.undo
            && s2.snapshots == s.snapshots && s2.storages == s.storages && s2.fees == []
            && (s2.utxo == s.utxo <==> Undoable(s.utxo, s1.undo[b.id].ledger))
  {
    ApplyDone(env, s, b);
    NoSaturation(s.utxo, s.supply, b);
    BooksRemember(s.utxo, s.supply, b);
    UndoExact(s.utxo, OpenBooks(s.utxo, s.supply, b).value);
    assert (s.undo[b.id := ApplyBlock(env, s, b).0.undo[b.id]]) - {b.id} == s.undo;
  }

  /**
   Undoing any recorded block: one height, one snapshot and one stored tree less, as far as there are any, as many fees
   less as the block had added, the supply moved against the recorded delta within its bounds, and tip, prune markers
   and pending updates as they are.
   */
  lemma DisconnectLeaves(s: Core, b: Block)
    requires b.id in s.undo
    ensures var (s1, u) := (Disconnect(s, b).0, s.undo[b.id]);
            && Disconnect(s, b).1 == Done && s1.undo == s.undo - {b.id}
            && s1.tip == s.tip && s1.markers == s.markers && s1.pending == s.pending
            && s1.height == (if s.height == 0 then 0 else s.height - 1)
            && Shorter(s.snapshots, s1.snapshots, 1) && Shorter(s.storages, s1.storages, 1)
            && Shorter(s.fees, s1.fees, |u.fees|)
            && (0 <= s.supply - u.ledger.delta < TWO_128 ==> s1.supply == s.supply - u.ledger.delta)
            && (s.supply < u.ledger.delta ==> s1.supply == 0)
            && (s.supply - u.ledger.delta >= TWO_128 && u.ledger.delta <= 0 ==> s1.supply == TWO_128 - 1)
    ensures b.id !in s.undo - {b.id}
  {
  }

  ghost predicate Shorter<T>(s: seq<T>, s1: seq<T>, n: nat) {
    s1 <= s && |s1| == if n <= |s| then |s| - n else 0
  }

  lemma BooksRemember(u: UtxoMap, supply: nat, b: Block)
    requires OpenBooks(u, supply, b).Some?
    ensures Remembers(u, OpenBooks(u, supply, b).value)
  {
    RunRemembers(u, Books(u, supply, NO_UNDO), BlockOps(b.txs));
  }

  lemma {:induction false} ValidInputsLive(u: UtxoMap, txs: seq<Tx>)
    requires BooksValid(u, txs)
    ensures InputsLive(u, BlockOps(txs))
  {
    if txs == [] {
    } else {
      var tx := txs[0];
      assert TxValid(u, tx);
      SpendsAreInputs(tx.inputs);
      CreatesSpendNothing(tx.id, tx.outputs, 0);
      assert forall i :: 0 <= i < |txs[1..]| ==> txs[1..][i] == txs[i + 1];
      ValidInputsLive(u, txs[1..]);
    }
  }

  lemma {:induction false} SpendsAreInputs(inputs: seq<OutPoint>)
    ensures |Spends(inputs)| == |inputs|
    ensures forall i :: 0 <= i < |inputs| ==> Spends(inputs)[i] == Spend(inputs[i])
  {
    if inputs == [] {
    } else {
      SpendsAreInputs(inputs[1..]);
    }
  }

  lemma {:induction false} CreatesSpendNothing(id: Hash, outputs: seq<TxOutput>, index: nat)
    ensures forall i :: 0 <= i < |Creates(id, outputs, index)| ==> Creates(id, outputs, index)[i].Create?
  {
    if outputs == [] {
    } else {
      CreatesSpendNothing(id, outputs[1..], index + 1);
    }
  }

  /**
   Undo inverts connect: `connect_block` checks every input against the set before the block, so with fresh
   output ids what a block spends and what it creates never meet, and the UTXO set comes back exactly.
   */
  lemma DisconnectAfterConnect(env: Env, s: Core, b: Block)
    requires Backed(s.utxo, s.supply) && b.id !in s.undo
    requires Fresh(s.utxo, BlockOps(b.txs))
    requires Connect(env, s, b).1 == Done
    ensures var (s2, outcome) := Disconnect(Connect(env, s, b).0, b);
            && outcome == Done
            && s2.utxo == s.utxo && s2.supply == s.supply && s2.height == s.height && s2.undo == s.undo
            && s2.snapshots == s.snapshots && s2.storages == s.storages
  {
    ValidInputsLive(s.utxo, b.txs);
    ApplyDone(env, s, b);
    FreshUndoable(s.utxo, s.supply, BlockOps(b.txs));
    DisconnectAfterApply(env, s, b);
  }

  // ----- the outpoint-to-key map -----

  ghost predicate KeysMatch(u: UtxoMap, keys: map<OutPoint, Key>) {
    keys.Keys == u.Keys && forall o :: o in keys ==> keys[o] == KeyOf(o)
  }

  lemma {:induction false} RunKeys(w: Work, ops: seq<Op>)
    requires KeysMatch(w.books.utxo, w.keys) && RunWork(w, ops).Some?
    ensures var w1 := RunWork(w, ops).value; KeysMatch(w1.books.utxo, w1.keys)
    decreases ops
  {
    if ops == [] {
    } else {
      RunKeys(StepWork(w, ops[0]).value, ops[1..]);
    }
  }

  lemma {:induction false} BlockKeys(env: Env, w: Work, txs: seq<Tx>)
    requires KeysMatch(w.books.utxo, w.keys) && ApplyTxs(env, w, txs).Some?
    ensures var w1 := ApplyTxs(env, w, txs).value; KeysMatch(w1.books.utxo, w1.keys)
    decreases txs
  {
    if txs == [] {
    } else {
      var w0 := Entered(env, w, txs[0]);
      RunKeys(w0, Ops(txs[0]));
      BlockKeys(env, RunWork(w0, Ops(txs[0])).value, txs[1..]);
    }
  }

  lemma {:induction false} RestoredKeyLookup(keys: map<OutPoint, Key>, spent: seq<(OutPoint, TxOutput)>, o: OutPoint)
    ensures o in RestoreKeys(keys, spent) <==> o in keys || IsSpent(spent, o)
    ensures o in RestoreKeys(keys, spent) ==>
              RestoreKeys(keys, spent)[o] == if IsSpent(spent, o) then RestoredKey(o) else keys[o]
  {
    if spent == [] {
    } else {
      var front, e := spent[..|spent| - 1], spent[|spent| - 1];
      RestoredKeyLookup(keys, front, o);
      SpentSnoc(front, e, o);
      assert front + [e] == spent;
    }
  }

  /**
   The outpoint-to-key map, unlike the UTXO set, comes back only when every index the block spent reads the same
   in both byte orders: the restored keys are derived from the other byte order.
   */
  lemma KeysRestoredIff(env: Env, s: Core, b: Block)
    requires KeysMatch(s.utxo, s.keys) && Fresh(s.utxo, BlockOps(b.txs))
    requires Connect(env, s, b).1 == Done
    ensures var s1 := Connect(env, s, b).0;
            Disconnect(s1, b).0.keys == s.keys <==>
              forall o :: IsSpent(s1.undo[b.id].ledger.spent, o) ==> BigEndian(o.1) == LittleEndian(o.1)
  {
    ApplyDone(env, s, b);
    BlockKeys(env, Begin(s), b.txs);
    ValidInputsLive(s.utxo, b.txs);
    BooksRemember(s.utxo, s.supply, b);
    FreshUndoable(s.utxo, s.supply, BlockOps(b.txs));
    var s1 := Connect(env, s, b).0;
    KeysBack(s.utxo, s.keys, OpenBooks(s.utxo, s.supply, b).value, s1.keys);
  }

  lemma KeysBack(u: UtxoMap, keys: map<OutPoint, Key>, books: Books, keys1: map<OutPoint, Key>)
    requires KeysMatch(u, keys) && KeysMatch(books.utxo, keys1)
    requires Remembers(u, books) && Undoable(u, books.undo)
    ensures RestoreKeys(keys1 - Elems(books.undo.created), books.undo.spent) == keys <==>
              forall o :: IsSpent(books.undo.spent, o) ==> BigEndian(o.1) == LittleEndian(o.1)
  {
    var undo := books.undo;
    var back := RestoreKeys(keys1 - Elems(undo.created), undo.spent);
    forall o
      ensures o in back <==> o in keys
      ensures o in back ==> back[o] == if IsSpent(undo.spent, o) then RestoredKey(o) else KeyOf(o)
      ensures IsSpent(undo.spent, o) ==> o in keys
    {
      RestoredKeyLookup(keys1 - Elems(undo.created), undo.spent, o);
      if o in undo.created {
        assert UndoableAt(u, undo, o);
      } else {
        assert RemembersAt(u, books, o);
      }
    }
    assert back.Keys == keys.Keys;
    if back == keys {
      forall o | IsSpent(undo.spent, o)
        ensures BigEndian(o.1) == LittleEndian(o.1)
      {
        assert back[o] == RestoredKey(o) && keys[o] == KeyOf(o);
      }
    } else {
      var o :| o in keys && back[o] != keys[o];
      assert BigEndian(o.1) != LittleEndian(o.1);
    }
  }

  /** Index 0 survives, index 1 does not. */
  lemma ByteOrderMatters()
    ensures BigEndian(0) == LittleEndian(0) && BigEndian(1) != LittleEndian(1)
    ensures forall i :: 0 < i < 0x100_0000 && i % 256 != 0 ==> BigEndian(i) != LittleEndian(i)
  {
    forall i | 0 < i < 0x100_0000 && i % 256 != 0
      ensures BigEndian(i) != LittleEndian(i)
    {
      assert BigEndian(i)[0] == 0 && LittleEndian(i)[0] != 0;
    }
    assert BigEndian(1)[0] == 0 && LittleEndian(1)[0] == 1;
  }

  /** Different outpoints have different tree keys: an index fits its four bytes. */
  lemma KeysDiffer(o: OutPoint, p: OutPoint)
    ensures KeyOf(o) == KeyOf(p) <==> o == p
    ensures RestoredKey(o) == RestoredKey(p) <==> o == p
  {
    BytesDetermine(o.1);
    BytesDetermine(p.1);
  }

  lemma BytesDetermine(i: U32)
    ensures BigEndian(i)[3] + 256 * (BigEndian(i)[2] + 256 * (BigEndian(i)[1] + 256 * BigEndian(i)[0])) == i
    ensures LittleEndian(i)[0] + 256 * (LittleEndian(i)[1] + 256 * (LittleEndian(i)[2] + 256 * LittleEndian(i)[3])) == i
  {
    SecondByte(i);
    ThirdByte(i);
    TopByte(i);
    assert i == i % 256 + 256 * (i / 0x100);
  }

  lemma SecondByte(i: nat)
    ensures i / 0x100 == i / 0x100 % 256 + 256 * (i / 0x1_0000)
  {
  }

  lemma ThirdByte(i: nat)
    ensures i / 0x1_0000 == i / 0x1_0000 % 256 + 256 * (i / 0x100_0000)
  {
  }

  lemma TopByte(i: U32)
    ensures i / 0x100_0000 == i / 0x100_0000 % 256
  {
  }

  // ----- the key tree -----

  function TreeUndoOf(tree: Tree, updates: seq<(Key, Leaf)>): seq<(Key, Option<Leaf>)> {
    seq(|updates|, i requires 0 <= i < |updates| => (updates[i].0, Lookup(tree, updates[i].0)))
  }

  /** The tree did not move, and these updates were noted with the values it holds. */
  ghost predicate NotesAfter(w: Work, updates: seq<(Key, Leaf)>, w1: Work) {
    w1.tree == w.tree && w1.treeUndo == w.treeUndo + TreeUndoOf(w.tree, updates)
  }

  lemma NotesCompose(w: Work, xs: seq<(Key, Leaf)>, w1: Work, ys: seq<(Key, Leaf)>, w2: Work)
    requires NotesAfter(w, xs, w1) && NotesAfter(w1, ys, w2)
    ensures NotesAfter(w, xs + ys, w2)
  {
    TreeUndoAppend(w.tree, xs, ys);
    Assoc(w.treeUndo, TreeUndoOf(w.tree, xs), TreeUndoOf(w.tree, ys));
  }

  lemma {:induction false} WorkTreeUndo(w: Work, ops: seq<Op>)
    requires RunWork(w, ops).Some?
    ensures NotesAfter(w, PendingOf(ops), RunWork(w, ops).value)
    decreases ops
  {
    if ops == [] {
    } else {
      var w1, rest := StepWork(w, ops[0]).value, PendingOf(ops[1..]);
      WorkTreeUndo(w1, ops[1..]);
      var first := if ops[0].Create? then [(KeyOf(ops[0].o), OutputLeaf(ops[0].out))] else [];
      assert PendingOf(ops) == first + rest;
      assert NotesAfter(w, first, w1);
      NotesCompose(w, first, w1, rest, RunWork(w, ops).value);
    }
  }

  lemma {:induction false} BlockTreeUndo(env: Env, w: Work, txs: seq<Tx>)
    requires ApplyTxs(env, w, txs).Some?
    requires forall i :: 0 <= i < |txs| ==> !IsContract(txs[i])
    ensures NotesAfter(w, PendingOf(BlockOps(txs)), ApplyTxs(env, w, txs).value)
    decreases txs
  {
    if txs == [] {
    } else {
      var ops, rest := Ops(txs[0]), BlockOps(txs[1..]);
      var w1, w2 := ApplyTx(env, w, txs[0]).value, ApplyTxs(env, w, txs).value;
      WorkTreeUndo(w, ops);
      BlockTreeUndo(env, w1, txs[1..]);
      NotesCompose(w, PendingOf(ops), w1, PendingOf(rest), w2);
      PendingAppend(ops, rest);
    }
  }

  lemma TreeUndoAppend(tree: Tree, xs: seq<(Key, Leaf)>, ys: seq<(Key, Leaf)>)
    ensures TreeUndoOf(tree, xs + ys) == TreeUndoOf(tree, xs) + TreeUndoOf(tree, ys)
  {
  }

  lemma WritesSnoc(front: seq<(Key, Leaf)>, last: (Key, Leaf), k: Key)
    ensures Writes(front + [last], k) <==> last.0 == k || Writes(front, k)
  {
    var all := front + [last];
    assert all[|front|] == last;
    assert forall i :: 0 <= i < |front| ==> all[i] == front[i];
  }

  lemma {:induction false} UndoTreeLookup(tree: Tree, base: Tree, updates: seq<(Key, Leaf)>, k: Key)
    ensures Lookup(UndoTree(tree, TreeUndoOf(base, updates)), k) ==
              if !Writes(updates, k) then Lookup(tree, k)
              else if k in base then Some(base[k]) else Some(BytesLeaf([]))
    decreases updates
  {
    if updates == [] {
    } else {
      var all := TreeUndoOf(base, updates);
      var n := |updates| - 1;
      var front, last := updates[..n], updates[n];
      assert all[..n] == TreeUndoOf(base, front);
      var prior := if last.0 in base then base[last.0] else BytesLeaf([]);
      assert UndoTree(tree, all) == UndoTree(tree[last.0 := prior], TreeUndoOf(base, front));
      UndoTreeLookup(tree[last.0 := prior], base, front, k);
      WritesSnoc(front, last, k);
      assert front + [last] == updates;
    }
  }

  /**
   Undoing a block of plain transfers brings back the value of every tree key that had one, except the
   total-supply key, which keeps the disconnected block's supply. A created key that had no value ends up
   with an empty one, so there the tree differs from the one before.
   */
  lemma TreeBack(env: Env, s: Core, b: Block, k: Key)
    requires Connect(env, s, b).1 == Done
    requires forall i :: 0 <= i < |b.txs| ==> !IsContract(b.txs[i])
    ensures var s1 := Connect(env, s, b).0;
            var tree := Disconnect(s1, b).0.tree;
            Lookup(tree, k) ==
              if k == TotalSupplyKey then Some(SupplyLeaf(s1.supply))
              else if k in s.tree then Some(s.tree[k])
              else if Writes(PendingOf(BlockOps(b.txs)), k) then Some(BytesLeaf([]))
              else None
  {
    var updates := PendingOf(BlockOps(b.txs));
    var s1 := Connect(env, s, b).0;
    ConnectedTree(env, s, b);
    assert Disconnect(s1, b).0.tree == UndoTree(s1.tree, s1.undo[b.id].tree);
    UndoTreeLookup(s1.tree, s.tree, updates, k);
    NeverTheSupplyKey(BlockOps(b.txs));
    if !Writes(updates, k) {
      InsertAllLookup(s.tree, updates, k);
    }
  }

  /** The working state a connected block leaves behind: its tree with the updates, and what it noted. */
  lemma ConnectedWork(env: Env, s: Core, b: Block) returns (w: Work)
    requires Connect(env, s, b).1 == Done
    ensures ApplyTxs(env, Begin(s), b.txs) == Some(w) && w.pending == PendingOf(BlockOps(b.txs))
    ensures var s1 := Connect(env, s, b).0;
            && s1.tree == InsertAll(w.tree, w.pending)[TotalSupplyKey := SupplyLeaf(s1.supply)]
            && b.id in s1.undo && s1.undo[b.id].tree == w.treeUndo
  {
    w := ApplyTxs(env, Begin(s), b.txs).value;
    BlockBooks(env, Begin(s), b.txs);
    assert [] + PendingOf(BlockOps(b.txs)) == PendingOf(BlockOps(b.txs));
  }

  lemma ConnectedTree(env: Env, s: Core, b: Block)
    requires Connect(env, s, b).1 == Done
    requires forall i :: 0 <= i < |b.txs| ==> !IsContract(b.txs[i])
    ensures var s1 := Connect(env, s, b).0;
            var updates := PendingOf(BlockOps(b.txs));
            && s1.tree == InsertAll(s.tree, updates)[TotalSupplyKey := SupplyLeaf(s1.supply)]
            && b.id in s1.undo && s1.undo[b.id].tree == TreeUndoOf(s.tree, updates)
  {
    var w := ConnectedWork(env, s, b);
    BlockTreeUndo(env, Begin(s), b.txs);
    assert [] + TreeUndoOf(s.tree, w.pending) == TreeUndoOf(s.tree, w.pending);
  }

  lemma {:induction false} NeverTheSupplyKey(ops: seq<Op>)
    ensures !Writes(PendingOf(ops), TotalSupplyKey)
  {
    if ops == [] {
    } else {
      NeverTheSupplyKey(ops[1..]);
    }
  }

  /** For plain transfers the whole tree comes back exactly when every key written existed and the supply is the same. */
  lemma PlainTreeBackIff(env: Env, s: Core, b: Block)
    requires Connect(env, s, b).1 == Done
    requires forall i :: 0 <= i < |b.txs| ==> !IsContract(b.txs[i])
    ensures var s1 := Connect(env, s, b).0;
            Disconnect(s1, b).0.tree == s.tree <==>
              && (forall k :: Writes(PendingOf(BlockOps(b.txs)), k) ==> k in s.tree)
              && Lookup(s.tree, TotalSupplyKey) == Some(SupplyLeaf(s1.supply))
  {
    var s1 := Connect(env, s, b).0;
    var tree := Disconnect(s1, b).0.tree;
    forall k
      ensures Lookup(tree, k) ==
              if k == TotalSupplyKey then Some(SupplyLeaf(s1.supply))
              else if k in s.tree then Some(s.tree[k])
              else if Writes(PendingOf(BlockOps(b.txs)), k) then Some(BytesLeaf([]))
              else None
    {
      TreeBack(env, s, b, k);
    }
    NeverTheSupplyKey(BlockOps(b.txs));
    SameTree(tree, s.tree);
  }

  lemma SameTree(t: Tree, u: Tree)
    ensures t == u <==> forall k :: Lookup(t, k) == Lookup(u, k)
  {
    if forall k :: Lookup(t, k) == Lookup(u, k) {
      forall k
        ensures k in t <==> k in u
        ensures k in t ==> t[k] == u[k]
      {
        assert Lookup(t, k) == Lookup(u, k);
      }
      assert t.Keys == u.Keys;
    }
  }

  // ----- the key tree under contracts -----

  ghost predicate Notes(updates: seq<(Key, Option<Leaf>)>, k: Key) {
    exists i :: 0 <= i < |updates| && updates[i].0 == k
  }

  function Prior(noted: Option<Leaf>): Leaf {
    if noted.Some? then noted.value else BytesLeaf([])
  }

  /** The oldest value noted for a key. */
  ghost function FirstPrior(updates: seq<(Key, Option<Leaf>)>, k: Key): Leaf
    requires Notes(updates, k)
  {
    var n := |updates| - 1;
    if Notes(updates[..n], k) then FirstPrior(updates[..n], k) else Prior(updates[n].1)
  }

  lemma {:induction false} UndoTreeFirst(tree: Tree, updates: seq<(Key, Option<Leaf>)>, k: Key)
    ensures Lookup(UndoTree(tree, updates), k) ==
              if Notes(updates, k) then Some(FirstPrior(updates, k)) else Lookup(tree, k)
    decreases updates
  {
    if updates == [] {
    } else {
      var n := |updates| - 1;
      UndoTreeFirst(tree[updates[n].0 := Prior(updates[n].1)], updates[..n], k);
      assert Notes(updates, k) <==> updates[n].0 == k || Notes(updates[..n], k) by {
        assert forall i :: 0 <= i < n ==> updates[..n][i] == updates[i];
      }
    }
  }

  /** One undo entry for every pending update, under the same key. */
  ghost predicate NotesMatch(w: Work) {
    |w.treeUndo| == |w.pending| && forall i :: 0 <= i < |w.pending| ==> w.treeUndo[i].0 == w.pending[i].0
  }

  lemma {:induction false} RunNotes(w: Work, ops: seq<Op>)
    requires NotesMatch(w) && RunWork(w, ops).Some?
    ensures NotesMatch(RunWork(w, ops).value)
    decreases ops
  {
    if ops == [] {
    } else {
      RunNotes(StepWork(w, ops[0]).value, ops[1..]);
    }
  }

  lemma {:induction false} BlockNotes(env: Env, w: Work, txs: seq<Tx>)
    requires NotesMatch(w) && ApplyTxs(env, w, txs).Some?
    ensures NotesMatch(ApplyTxs(env, w, txs).value)
    decreases txs
  {
    if txs == [] {
    } else {
      RunNotes(Entered(env, w, txs[0]), Ops(txs[0]));
      BlockNotes(env, ApplyTx(env, w, txs[0]).value, txs[1..]);
    }
  }

  /** The tree as the virtual machine left it. */
  function MachineTree(env: Env, s: Core, b: Block): Tree {
    match ApplyTxs(env, Begin(s), b.txs)
    case None => s.tree
    case Some(w) => w.tree
  }

  /**
   Any block, contracts included: what the machine wrote is in no undo entry and stays, except under the keys of
   created outputs, which get the value they had when the first of these outputs was created.
   */
  lemma MachineWritesStay(env: Env, s: Core, b: Block, k: Key)
    requires Connect(env, s, b).1 == Done
    ensures var s1 := Connect(env, s, b).0;
            && b.id in s1.undo
            && (Notes(s1.undo[b.id].tree, k) <==> Writes(PendingOf(BlockOps(b.txs)), k))
            && Lookup(Disconnect(s1, b).0.tree, k) ==
                 if Notes(s1.undo[b.id].tree, k) then Some(FirstPrior(s1.undo[b.id].tree, k))
                 else if k == TotalSupplyKey then Some(SupplyLeaf(s1.supply))
                 else Lookup(MachineTree(env, s, b), k)
  {
    var s1, updates := Connect(env, s, b).0, PendingOf(BlockOps(b.txs));
    ConnectedNotes(env, s, b, k);
    UndoTreeFirst(s1.tree, s1.undo[b.id].tree, k);
    if !Writes(updates, k) {
      InsertAllLookup(MachineTree(env, s, b), updates, k);
    }
  }

  lemma ConnectedNotes(env: Env, s: Core, b: Block, k: Key)
    requires Connect(env, s, b).1 == Done
    ensures var s1, updates := Connect(env, s, b).0, PendingOf(BlockOps(b.txs));
            && b.id in s1.undo && (Notes(s1.undo[b.id].tree, k) <==> Writes(updates, k))
            && s1.tree == InsertAll(MachineTree(env, s, b), updates)[TotalSupplyKey := SupplyLeaf(s1.supply)]
  {
    var w := ConnectedWork(env, s, b);
    BlockNotes(env, Begin(s), b.txs);
    SameNotes(w, k);
  }

  lemma SameNotes(w: Work, k: Key)
    requires NotesMatch(w)
    ensures Notes(w.treeUndo, k) <==> Writes(w.pending, k)
  {
  }

  /**
   The exact condition under which undoing a block restores the tree: the machine changed no key outside the created
   outputs, every noted value is the one from before the block, and the supply is the same.
   */
  lemma TreeBackIff(env: Env, s: Core, b: Block)
    requires Connect(env, s, b).1 == Done
    ensures var s1 := Connect(env, s, b).0;
            && b.id in s1.undo
            && var notes := s1.undo[b.id].tree;
               Disconnect(s1, b).0.tree == s.tree <==>
                 && (forall k :: Notes(notes, k) ==> Lookup(s.tree, k) == Some(FirstPrior(notes, k)))
                 && (forall k :: !Notes(notes, k) && k != TotalSupplyKey ==>
                       Lookup(MachineTree(env, s, b), k) == Lookup(s.tree, k))
                 && Lookup(s.tree, TotalSupplyKey) == Some(SupplyLeaf(s1.supply))
  {
    var s1 := Connect(env, s, b).0;
    var tree := Disconnect(s1, b).0.tree;
    NeverTheSupplyKey(BlockOps(b.txs));
    MachineWritesStay(env, s, b, TotalSupplyKey);
    var notes := s1.undo[b.id].tree;
    forall k
      ensures Lookup(tree, k) ==
              if Notes(notes, k) then Some(FirstPrior(notes, k))
              else if k == TotalSupplyKey then Some(SupplyLeaf(s1.supply))
              else Lookup(MachineTree(env, s, b), k)
    {
      MachineWritesStay(env, s, b, k);
    }
    SameTree(tree, s.tree);
  }
}
