/**
 The chain state machine as pure transitions: what applying, connecting and disconnecting a block and
 reorganizing the chain do to every field of the state manager and to the UTXO set.
 */
module ChainState {
  import opened Basics
  import opened Ledger

  /** The most outputs a block in memory can hold: an output takes 40 bytes of a 64-bit address space. */
  const MAX_OUTPUTS: nat := 0x0800_0000_0000_0000

  /**
   A tree key is the digest of a transaction id followed by four index bytes, the all-zero key that stores the
   total supply, or any other 32-byte value a contract may write. Digests are collision-free here.
   */
  datatype Key = Digest(id: Hash, index: seq<nat>) | TotalSupplyKey | ContractKey(n: nat)

  datatype Leaf = OutputLeaf(out: TxOutput) | SupplyLeaf(amount: nat) | BytesLeaf(bytes: seq<nat>)

  type Tree = map<Key, Leaf>

  type Root = nat

  datatype PruneMarker = PruneMarker(epoch: nat, timestamp: nat)

  datatype GasFee = GasFee(total: nat, miner: nat, fullnode: nat)

  datatype Snapshot = Snapshot(height: nat, root: Root, supply: nat, fees: seq<GasFee>, tip: Option<Hash>)

  datatype BlockUndo = BlockUndo(ledger: Undo, tree: seq<(Key, Option<Leaf>)>, fees: seq<GasFee>)

  const EMPTY_UNDO := BlockUndo(NO_UNDO, [], [])

  /** `declaredRoot` is the root a block that carries Verkle proofs commits to. */
  datatype AnyBlock = AnyBlock(id: Hash, txs: seq<Tx>, declaredRoot: Option<Root>)

  function OutputCount(txs: seq<Tx>): nat {
    if txs == [] then 0 else |txs[0].outputs| + OutputCount(txs[1..])
  }

  type Block = b: AnyBlock | OutputCount(b.txs) <= MAX_OUTPUTS witness AnyBlock(0, [], None)

  datatype VmResult = VmOk(gasUsed: U64, tree: Tree) | VmErr

  /** What lies outside this model: the virtual machine and the tree commitment. */
  datatype Env = Env(vm: (seq<nat>, Tree, U64) -> VmResult, rootOf: Tree -> Root)

  datatype Outcome = Done | Failed | Panicked

  datatype Core = Core(
    utxo: UtxoMap, supply: nat, tree: Tree, height: nat,
    snapshots: seq<Snapshot>, storages: seq<Tree>,
    markers: map<OutPoint, PruneMarker>, keys: map<OutPoint, Key>,
    fees: seq<GasFee>, pending: seq<(Key, Leaf)>,
    undo: map<Hash, BlockUndo>, tip: Option<Hash>)

  /** The state a node starts with. */
  function Genesis(env: Env, tree: Tree): Core {
    Core(map[], 0, tree, 0, [Snapshot(0, env.rootOf(tree), 0, [], None)], [tree],
         map[], map[], [], [], map[], None)
  }

  // ----- tree keys -----

  function BigEndian(i: nat): seq<nat> {
    [i / 0x100_0000 % 256, i / 0x1_0000 % 256, i / 0x100 % 256, i % 256]
  }

  function LittleEndian(i: nat): seq<nat> {
    [i % 256, i / 0x100 % 256, i / 0x1_0000 % 256, i / 0x100_0000 % 256]
  }

  /** The key an output is stored under. */
  function KeyOf(o: OutPoint): Key {
    Digest(o.0, BigEndian(o.1))
  }

  /** The key `disconnect_block` recreates for a restored output: the index bytes are in the other order. */
  function RestoredKey(o: OutPoint): Key {
    Digest(o.0, LittleEndian(o.1))
  }

  function Lookup(tree: Tree, k: Key): Option<Leaf> {
    if k in tree then Some(tree[k]) else None
  }

  // ----- applying a block -----

  /** What a block application works on: the fields it changes and the undo record it collects. */
  datatype Work = Work(books: Books, tree: Tree, keys: map<OutPoint, Key>, markers: map<OutPoint, PruneMarker>,
                       pending: seq<(Key, Leaf)>, fees: seq<GasFee>,
                       treeUndo: seq<(Key, Option<Leaf>)>, feesAdded: seq<GasFee>)

  function StepWork(w: Work, op: Op): Option<Work> {
    match Step(w.books, op)
    case None => None
    case Some(b) =>
      match op
      case Spend(o) => Some(w.(books := b, keys := w.keys - {o}, markers := w.markers - {o}))
      case Create(o, out) =>
        var k := KeyOf(o);
        Some(w.(books := b, keys := w.keys[o := k], pending := w.pending + [(k, OutputLeaf(out))],
                treeUndo := w.treeUndo + [(k, Lookup(w.tree, k))]))
  }

  function RunWork(w: Work, ops: seq<Op>): Option<Work>
    decreases ops
  {
    if ops == [] then Some(w)
    else
      match StepWork(w, ops[0])
      case None => None
      case Some(w1) => RunWork(w1, ops[1..])
  }

  function PayloadCost(payload: seq<nat>): nat {
    if payload == [] then 0 else (if payload[0] == 0 then 4 else 16) + PayloadCost(payload[1..])
  }

  function RequiredGas(payload: seq<nat>): nat {
    SatAdd64(21_000, PayloadCost(payload))
  }

  function SatMul128(a: nat, b: nat): nat {
    if a * b < TWO_128 then a * b else TWO_128 - 1
  }

  /** The 80/20 split. */
  function GasFeeWitness(total: nat): GasFee {
    var miner := total * 80 / 100;
    GasFee(total, miner, SatSub(total, miner))
  }

  predicate IsContract(tx: Tx) {
    tx.payload != [] || tx.contract
  }

  function ApplyTx(env: Env, w: Work, tx: Tx): Option<Work> {
    if !IsContract(tx) then RunWork(w, Ops(tx))
    else if tx.gasLimit < RequiredGas(tx.payload) then None
    else
      match env.vm(tx.payload, w.tree, tx.gasLimit)
      case VmErr => None
      case VmOk(gasUsed, tree) =>
        var fee := GasFeeWitness(SatMul128(gasUsed, tx.maxFeePerGas));
        RunWork(w.(tree := tree, fees := w.fees + [fee], feesAdded := w.feesAdded + [fee]), Ops(tx))
  }

  function ApplyTxs(env: Env, w: Work, txs: seq<Tx>): Option<Work>
    decreases txs
  {
    if txs == [] then Some(w)
    else
      match ApplyTx(env, w, txs[0])
      case None => None
      case Some(w1) => ApplyTxs(env, w1, txs[1..])
  }

  predicate Burns(pending: seq<(Key, Leaf)>) {
    exists i :: 0 <= i < |pending| && pending[i].1.OutputLeaf? && pending[i].1.out.owner == BURN_ADDRESS
  }

  function InsertAll(tree: Tree, updates: seq<(Key, Leaf)>): Tree {
    if updates == [] then tree
    else
      var last := updates[|updates| - 1];
      InsertAll(tree, updates[..|updates| - 1])[last.0 := last.1]
  }

  /** The anti-burn and supply-cap checks, and the tree they let through. */
  function Transition(tree: Tree, pending: seq<(Key, Leaf)>, supply: nat): Option<Tree> {
    if Burns(pending) || supply > MAX_GLOBAL_SUPPLY then None
    else Some(InsertAll(tree, pending)[TotalSupplyKey := SupplyLeaf(supply)])
  }

  ghost predicate Writes(updates: seq<(Key, Leaf)>, k: Key) {
    exists i :: 0 <= i < |updates| && updates[i].0 == k
  }

  ghost predicate WrittenLast(updates: seq<(Key, Leaf)>, i: nat)
    requires i < |updates|
  {
    forall j :: i < j < |updates| ==> updates[j].0 != updates[i].0
  }

  lemma {:induction false} InsertAllLookup(tree: Tree, updates: seq<(Key, Leaf)>, k: Key)
    requires !Writes(updates, k)
    ensures Lookup(InsertAll(tree, updates), k) == Lookup(tree, k)
  {
    if updates == [] {
    } else {
      var front := updates[..|updates| - 1];
      assert forall i :: 0 <= i < |front| ==> front[i] == updates[i];
      InsertAllLookup(tree, front, k);
    }
  }

  lemma {:induction false} InsertAllLast(tree: Tree, updates: seq<(Key, Leaf)>, i: nat)
    requires i < |updates| && WrittenLast(updates, i)
    ensures Lookup(InsertAll(tree, updates), updates[i].0) == Some(updates[i].1)
  {
    if i < |updates| - 1 {
      var front := updates[..|updates| - 1];
      assert WrittenLast(front, i);
      assert front[i] == updates[i];
      InsertAllLast(tree, front, i);
    }
  }

  /**
   The tree's checks, spelled out: an update passes exactly when the supply is within the cap and no output goes to the
   burn address. Then every key holds what was written to it last, and the supply key the new supply.
   */
  lemma TransitionIff(tree: Tree, pending: seq<(Key, Leaf)>, supply: nat)
    ensures Transition(tree, pending, supply).Some? <==>
              && supply <= 600_000_000_000_000_000
              && forall i :: 0 <= i < |pending| && pending[i].1.OutputLeaf? ==> pending[i].1.out.owner != 0
    ensures Transition(tree, pending, supply).Some? ==>
              var t := Transition(tree, pending, supply).value;
              && Lookup(t, TotalSupplyKey) == Some(SupplyLeaf(supply))
              && (forall i :: 0 <= i < |pending| && WrittenLast(pending, i) && pending[i].0 != TotalSupplyKey ==>
                    Lookup(t, pending[i].0) == Some(pending[i].1))
              && (forall k :: k != TotalSupplyKey && !Writes(pending, k) ==> Lookup(t, k) == Lookup(tree, k))
  {
    if Transition(tree, pending, supply).Some? {
      var t := Transition(tree, pending, supply).value;
      forall i | 0 <= i < |pending| && WrittenLast(pending, i) && pending[i].0 != TotalSupplyKey
        ensures Lookup(t, pending[i].0) == Some(pending[i].1)
      {
        InsertAllLast(tree, pending, i);
      }
      forall k | k != TotalSupplyKey && !Writes(pending, k)
        ensures Lookup(t, k) == Lookup(tree, k)
      {
        InsertAllLookup(tree, pending, k);
      }
    }
  }

  function Begin(s: Core): Work {
    Work(Books(s.utxo, s.supply, NO_UNDO), s.tree, s.keys, s.markers, [], [], [], [])
  }

  /** The state with the fields of a finished block application written back. */
  function WriteBack(s: Core, w: Work, tree: Tree, b: Block): Core {
    s.(utxo := w.books.utxo, supply := w.books.supply, tree := tree, keys := w.keys, markers := w.markers,
       pending := w.pending, fees := w.fees, height := s.height + 1, tip := Some(b.id))
  }

  /**
   A failing transaction or state transition leaves the state as it was. The read of the parent's snapshot
   comes after the changes, so a missing snapshot panics with them in place.
   */
  function ApplyBlock(env: Env, s: Core, b: Block): (Core, Outcome) {
    match ApplyTxs(env, Begin(s), b.txs)
    case None => (s, Failed)
    case Some(w) =>
      match Transition(w.tree, w.pending, w.books.supply)
      case None => (s, Failed)
      case Some(tree) =>
        var s1 := WriteBack(s, w, tree, b);
        if s.height >= |s.snapshots| then (s1, Panicked)
        else
          var snapshot := Snapshot(s1.height, env.rootOf(tree), s1.supply, s1.fees, s1.tip);
          (s1.(snapshots := s.snapshots + [snapshot], storages := s.storages + [tree],
               undo := s.undo[b.id := BlockUndo(w.books.undo, w.treeUndo, w.feesAdded)]), Done)
  }

  // ----- validation before connecting -----

  predicate IsCoinbase(tx: Tx) {
    tx.inputs == []
  }

  /** Inputs found in the set are added up, clamped to 64 bits. */
  function InputSum(u: UtxoMap, inputs: seq<OutPoint>): nat {
    if inputs == [] then 0
    else
      var front, last := inputs[..|inputs| - 1], inputs[|inputs| - 1];
      if last in u then SatAdd64(InputSum(u, front), u[last].value) else InputSum(u, front)
  }

  function OutputSum(outputs: seq<TxOutput>): nat {
    if outputs == [] then 0
    else SatAdd64(OutputSum(outputs[..|outputs| - 1]), outputs[|outputs| - 1].value)
  }

  /** The declared gas fee: a clamped 128-bit product cut down to its low 64 bits. */
  function DeclaredFee(tx: Tx): nat {
    SatMul128(tx.gasLimit, tx.maxFeePerGas) % TWO_64
  }

  predicate TxInputsLive(u: UtxoMap, tx: Tx) {
    forall i :: 0 <= i < |tx.inputs| ==> tx.inputs[i] in u
  }

  predicate TxCovered(u: UtxoMap, tx: Tx) {
    InputSum(u, tx.inputs) >= SatAdd64(OutputSum(tx.outputs), DeclaredFee(tx))
  }

  predicate TxValid(u: UtxoMap, tx: Tx) {
    IsCoinbase(tx) || (TxInputsLive(u, tx) && TxCovered(u, tx))
  }

  /** The part of the validation that reads the UTXO set. */
  predicate BooksValid(u: UtxoMap, txs: seq<Tx>) {
    forall i :: 0 <= i < |txs| ==> TxValid(u, txs[i])
  }

  /** A block with proofs must declare the current root, unless it is empty. */
  predicate RootValid(root: Root, b: Block) {
    b.declaredRoot.None? || b.txs == [] || b.declaredRoot.value == root
  }

  predicate Valid(env: Env, s: Core, b: Block) {
    BooksValid(s.utxo, b.txs) && RootValid(env.rootOf(s.tree), b)
  }

  function Connect(env: Env, s: Core, b: Block): (Core, Outcome) {
    if Valid(env, s, b) then ApplyBlock(env, s, b) else (s, Failed)
  }

  // ----- disconnecting -----

  function RestoreKeys(keys: map<OutPoint, Key>, spent: seq<(OutPoint, TxOutput)>): map<OutPoint, Key> {
    if spent == [] then keys
    else
      var last := spent[|spent| - 1];
      RestoreKeys(keys, spent[..|spent| - 1])[last.0 := RestoredKey(last.0)]
  }

  /** Old values are written back last to first; a key that did not exist gets an empty value. */
  function UndoTree(tree: Tree, updates: seq<(Key, Option<Leaf>)>): Tree
    decreases updates
  {
    if updates == [] then tree
    else
      var last := updates[|updates| - 1];
      var prior := if last.1.Some? then last.1.value else BytesLeaf([]);
      UndoTree(tree[last.0 := prior], updates[..|updates| - 1])
  }

  function Pop<T>(s: seq<T>, n: nat): seq<T> {
    if |s| < n then [] else s[..|s| - n]
  }

  function Disconnect(s: Core, b: Block): (Core, Outcome) {
    if b.id !in s.undo then (s, Failed)
    else
      var u := s.undo[b.id];
      (s.(utxo := UndoUtxo(s.utxo, u.ledger),
          keys := RestoreKeys(s.keys - Elems(u.ledger.created), u.ledger.spent),
          tree := UndoTree(s.tree, u.tree),
          supply := UndoSupply(s.supply, u.ledger.delta),
          fees := Pop(s.fees, |u.fees|),
          height := SatSub(s.height, 1),
          snapshots := Pop(s.snapshots, 1),
          storages := Pop(s.storages, 1),
          undo := s.undo - {b.id}), Done)
  }

  // ----- rollback -----

  function Truncate<T>(s: seq<T>, n: nat): seq<T> {
    if n <= |s| then s[..n] else s
  }

  predicate HasSnapshot(snapshots: seq<Snapshot>, height: nat) {
    exists i :: 0 <= i < |snapshots| && snapshots[i].height == height
  }

  /** The bare rollback: a failure after the truncation leaves the stacks truncated. */
  function RollbackState(env: Env, s: Core, target: nat): (Core, Outcome) {
    if target > s.height || !HasSnapshot(s.snapshots, target) then (s, Failed)
    else
      var s1 := s.(snapshots := Truncate(s.snapshots, target + 1), storages := Truncate(s.storages, target + 1), height := target);
      if target >= |s1.storages| then (s1, Failed)
      else
        var s2 := s1.(tree := s1.storages[target]);
        if target >= |s1.snapshots| then (s2, Panicked)
        else
          var snapshot := s1.snapshots[target];
          var s3 := s2.(supply := snapshot.supply, fees := snapshot.fees);
          (s3, if env.rootOf(s3.tree) == snapshot.root then Done else Failed)
  }

  /** The rollback with its backup of the six fields it touches. */
  function Rollback(env: Env, s: Core, target: nat): (Core, Outcome) {
    var (s1, o) := RollbackState(env, s, target);
    if o == Failed
    then (s1.(tree := s.tree, height := s.height, snapshots := s.snapshots, storages := s.storages, supply := s.supply,
              fees := s.fees), Failed)
    else (s1, o)
  }

  // ----- reorganization -----

  /** The DAG files every block under its own header id. */
  type Dag = d: map<Hash, Block> | forall h :: h in d ==> d[h].id == h witness map[]

  /** The blocks of a plan the DAG knows. */
  function KnownBlocks(dag: Dag, plan: seq<Hash>): seq<Block> {
    if plan == [] then []
    else
      var front, last := KnownBlocks(dag, plan[..|plan| - 1]), plan[|plan| - 1];
      if last in dag then front + [dag[last]] else front
  }

  /** How many leading blocks of a plan have undo data; these get disconnected, the rest connected. */
  function AppliedPrefix(undo: set<Hash>, blocks: seq<Block>): (n: nat)
    ensures n <= |blocks|
  {
    if blocks == [] || blocks[0].id !in undo then 0 else 1 + AppliedPrefix(undo, blocks[1..])
  }

  /** Last block first. */
  function DisconnectAll(s: Core, blocks: seq<Block>): (Core, Outcome)
    decreases blocks
  {
    if blocks == [] then (s, Done)
    else
      var (s1, o) := Disconnect(s, blocks[|blocks| - 1]);
      if o != Done then (s1, o) else DisconnectAll(s1, blocks[..|blocks| - 1])
  }

  function ConnectAll(env: Env, s: Core, blocks: seq<Block>): (Core, Outcome)
    decreases blocks
  {
    if blocks == [] then (s, Done)
    else
      var (s1, o) := Connect(env, s, blocks[0]);
      if o != Done then (s1, o) else ConnectAll(env, s1, blocks[1..])
  }

  function Perform(env: Env, s: Core, blocks: seq<Block>): (Core, Outcome) {
    var n := AppliedPrefix(s.undo.Keys, blocks);
    var (s1, o) := DisconnectAll(s, blocks[..n]);
    if o != Done then (s1, o) else ConnectAll(env, s1, blocks[n..])
  }

  /** A failed reorganization puts back the UTXO set, supply, height, fees and tip, and nothing else. */
  function Reorganize(env: Env, s: Core, blocks: seq<Block>): (Core, Outcome) {
    var (s1, o) := Perform(env, s, blocks);
    if o == Failed
    then (s1.(utxo := s.utxo, supply := s.supply, height := s.height, fees := s.fees, tip := s.tip), Failed)
    else (s1, o)
  }

  // ----- plans -----

  /** Known blocks keep their places in the plan; hashes the DAG does not hold are skipped. */
  lemma {:induction false} KnownInOrder(dag: Dag, plan: seq<Hash>, more: seq<Hash>)
    ensures KnownBlocks(dag, plan + more) == KnownBlocks(dag, plan) + KnownBlocks(dag, more)
    ensures |more| == 1 ==> KnownBlocks(dag, more) == if more[0] in dag then [dag[more[0]]] else []
  {
    if more == [] {
      assert plan + more == plan;
    } else {
      var n := |more| - 1;
      assert (plan + more)[..|plan| + n] == plan + more[..n];
      KnownInOrder(dag, plan, more[..n]);
    }
  }

  ghost predicate AllIn(ids: set<Hash>, blocks: seq<Block>) {
    forall k :: 0 <= k < |blocks| ==> blocks[k].id in ids
  }

  lemma {:induction false} AllApplied(undo: set<Hash>, blocks: seq<Block>)
    ensures AppliedPrefix(undo, blocks) == |blocks| <==> AllIn(undo, blocks)
  {
    if blocks == [] {
    } else {
      AllApplied(undo, blocks[1..]);
      assert forall k :: 0 <= k < |blocks[1..]| ==> blocks[1..][k] == blocks[k + 1];
      assert AppliedPrefix(undo, blocks) == |blocks| <==> blocks[0].id in undo && AppliedPrefix(undo, blocks[1..]) == |blocks[1..]|;
    }
  }

  lemma {:induction false} TipStays(s: Core, blocks: seq<Block>)
    ensures DisconnectAll(s, blocks).0.tip == s.tip
    decreases blocks
  {
    if blocks == [] {
    } else {
      var n := |blocks| - 1;
      if Disconnect(s, blocks[n]).1 == Done {
        TipStays(Disconnect(s, blocks[n]).0, blocks[..n]);
      }
    }
  }

  lemma {:induction false} TipIsLast(env: Env, s: Core, blocks: seq<Block>)
    requires ConnectAll(env, s, blocks).1 == Done
    ensures ConnectAll(env, s, blocks).0.tip == if blocks == [] then s.tip else Some(blocks[|blocks| - 1].id)
    decreases blocks
  {
    if blocks == [] {
    } else {
      var s1 := Connect(env, s, blocks[0]).0;
      TipIsLast(env, s1, blocks[1..]);
      assert s1.tip == Some(blocks[0].id);
    }
  }

  /** A successful reorganization that connects anything has the last block of the plan as its tip. */
  lemma ReorganizedTip(env: Env, s: Core, blocks: seq<Block>)
    requires Reorganize(env, s, blocks).1 == Done
    ensures Reorganize(env, s, blocks).0.tip ==
            if AllIn(s.undo.Keys, blocks) then s.tip else Some(blocks[|blocks| - 1].id)
  {
    var n := AppliedPrefix(s.undo.Keys, blocks);
    AllApplied(s.undo.Keys, blocks);
    TipStays(s, blocks[..n]);
    TipIsLast(env, DisconnectAll(s, blocks[..n]).0, blocks[n..]);
  }

  lemma {:induction false} PrefixSplit(undo: set<Hash>, applied: seq<Block>, rest: seq<Block>)
    requires forall k :: 0 <= k < |applied| ==> applied[k].id in undo
    requires rest != [] ==> rest[0].id !in undo
    ensures AppliedPrefix(undo, applied + rest) == |applied|
  {
    if applied == [] {
      assert applied + rest == rest;
    } else {
      assert (applied + rest)[1..] == applied[1..] + rest;
      PrefixSplit(undo, applied[1..], rest);
    }
  }
}
