/** Chains of blocks: replaying them, rolling them back, and reorganizing from one to another. */
module ChainReorg {
  import opened Basics
  import opened Ledger
  import opened ChainState
  import opened ChainUndo

  /** The part of the state that a chain of blocks determines. */
  datatype Account = Account(utxo: UtxoMap, supply: nat, height: nat)

  const GENESIS := Account(map[], 0, 0)

  function View(s: Core): Account {
    Account(s.utxo, s.supply, s.height)
  }

  /** One block connected, as a function of the UTXO set and supply alone. */
  function Grow(a: Account, b: Block): Option<Account> {
    if !BooksValid(a.utxo, b.txs) || Burns(PendingOf(BlockOps(b.txs))) then None
    else
      match OpenBooks(a.utxo, a.supply, b)
      case None => None
      case Some(books) =>
        if books.supply > MAX_GLOBAL_SUPPLY then None
        else Some(Account(books.utxo, books.supply, a.height + 1))
  }

  /** The plain replay of a chain from genesis. */
  function Fold(chain: seq<Block>): Option<Account> {
    if chain == [] then Some(GENESIS)
    else
      match Fold(chain[..|chain| - 1])
      case None => None
      case Some(a) => Grow(a, chain[|chain| - 1])
  }

  lemma FoldSnoc(chain: seq<Block>, b: Block)
    ensures Fold(chain + [b]) == match Fold(chain) case None => None case Some(a) => Grow(a, b)
  {
    assert (chain + [b])[..|chain|] == chain;
  }

  lemma {:induction false} FoldPrefix(chain: seq<Block>, n: nat)
    requires n <= |chain| && Fold(chain).Some?
    ensures Fold(chain[..n]).Some?
  {
    if n < |chain| {
      var front := chain[..|chain| - 1];
      FoldPrefix(front, n);
      assert front[..n] == chain[..n];
    } else {
      assert chain[..n] == chain;
    }
  }

  /** Every replayable chain ends in a backed account as high as the chain is long. */
  lemma {:induction false} FoldBacked(chain: seq<Block>)
    requires Fold(chain).Some?
    ensures var a := Fold(chain).value; Backed(a.utxo, a.supply) && a.height == |chain|
  {
    if chain == [] {
    } else {
      var front, b := chain[..|chain| - 1], chain[|chain| - 1];
      FoldBacked(front);
      var a := Fold(front).value;
      NoSaturation(a.utxo, a.supply, b);
    }
  }

  // ----- connecting and replaying -----

  lemma ConnectGrows(env: Env, s: Core, b: Block)
    requires Connect(env, s, b).1 == Done
    ensures Grow(View(s), b) == Some(View(Connect(env, s, b).0))
  {
    ApplyDone(env, s, b);
  }

  predicate IsPlain(b: Block) {
    b.declaredRoot.None? && forall i :: 0 <= i < |b.txs| ==> !IsContract(b.txs[i])
  }

  lemma {:induction false} PlainApplies(env: Env, w: Work, txs: seq<Tx>)
    requires forall i :: 0 <= i < |txs| ==> !IsContract(txs[i])
    ensures ApplyTxs(env, w, txs) == RunWork(w, BlockOps(txs))
    decreases txs
  {
    if txs == [] {
    } else {
      RunWorkAppend(w, Ops(txs[0]), BlockOps(txs[1..]));
      if RunWork(w, Ops(txs[0])).Some? {
        PlainApplies(env, RunWork(w, Ops(txs[0])).value, txs[1..]);
      }
    }
  }

  lemma {:induction false} RunWorkAppend(w: Work, xs: seq<Op>, ys: seq<Op>)
    ensures RunWork(w, xs + ys) == match RunWork(w, xs) case None => None case Some(w1) => RunWork(w1, ys)
    decreases xs
  {
    if xs == [] {
      assert xs + ys == ys;
    } else {
      assert (xs + ys)[1..] == xs[1..] + ys;
      if StepWork(w, xs[0]).Some? {
        RunWorkAppend(StepWork(w, xs[0]).value, xs[1..], ys);
      }
    }
  }

  /** Applying a block of plain transfers is running its books. */
  lemma PlainWork(env: Env, s: Core, b: Block)
    requires forall i :: 0 <= i < |b.txs| ==> !IsContract(b.txs[i])
    ensures var work, books := ApplyTxs(env, Begin(s), b.txs), OpenBooks(s.utxo, s.supply, b);
            && (work.Some? <==> books.Some?)
            && (work.Some? ==> work.value.books == books.value && work.value.pending == PendingOf(BlockOps(b.txs)))
  {
    PlainApplies(env, Begin(s), b.txs);
    WorkBooks(Begin(s), BlockOps(b.txs));
    assert [] + PendingOf(BlockOps(b.txs)) == PendingOf(BlockOps(b.txs));
  }

  /** A block of plain transfers connects exactly when the replay accepts it. */
  lemma PlainConnectIff(env: Env, s: Core, b: Block)
    requires IsPlain(b) && s.height < |s.snapshots|
    ensures Connect(env, s, b).1 == Done <==> Grow(View(s), b).Some?
  {
    PlainWork(env, s, b);
  }

  // ----- the state against a chain -----

  ghost predicate DistinctIds(chain: seq<Block>) {
    forall i, j :: 0 <= i < j < |chain| ==> chain[i].id != chain[j].id
  }

  /** The undo data the replay of `prefix` followed by `b` records for `b`. */
  function Record(prefix: seq<Block>, b: Block): Undo {
    match Fold(prefix)
    case None => NO_UNDO
    case Some(a) =>
      match OpenBooks(a.utxo, a.supply, b)
      case None => NO_UNDO
      case Some(books) => books.undo
  }

  ghost predicate RecordRightAt(undo: map<Hash, BlockUndo>, chain: seq<Block>, i: nat)
    requires i < |chain|
  {
    chain[i].id in undo ==> undo[chain[i].id].ledger == Record(chain[..i], chain[i])
  }

  ghost predicate RecordsRight(undo: map<Hash, BlockUndo>, chain: seq<Block>) {
    forall i :: 0 <= i < |chain| ==> RecordRightAt(undo, chain, i)
  }

  /** The state is the one the chain leads to, and whatever undo data it holds for the chain is right. */
  ghost predicate Tracks(s: Core, chain: seq<Block>) {
    Fold(chain) == Some(View(s)) && DistinctIds(chain) && RecordsRight(s.undo, chain)
  }

  /** Undo data is present for every block from position `from` on. */
  ghost predicate Recorded(s: Core, chain: seq<Block>, from: nat) {
    forall i :: from <= i < |chain| ==> chain[i].id in s.undo
  }

  ghost predicate SnapshotAt(s: Core, chain: seq<Block>, i: nat)
    requires i < |s.snapshots| && i <= |chain|
  {
    && s.snapshots[i].height == i && Fold(chain[..i]).Some?
    && s.snapshots[i].supply == Fold(chain[..i]).value.supply
  }

  ghost predicate SnapshotsFollow(s: Core, chain: seq<Block>) {
    && |s.snapshots| == |chain| + 1 == |s.storages|
    && forall i :: 0 <= i <= |chain| ==> SnapshotAt(s, chain, i)
  }

  ghost predicate ReversibleAt(chain: seq<Block>, i: nat)
    requires i < |chain|
  {
    Fold(chain[..i]).Some? && Undoable(Fold(chain[..i]).value.utxo, Record(chain[..i], chain[i]))
  }

  /** Every block from position `from` on can be undone exactly where it stands. */
  ghost predicate Reversible(chain: seq<Block>, from: nat) {
    forall i :: from <= i < |chain| ==> ReversibleAt(chain, i)
  }

  ghost predicate FreshAt(chain: seq<Block>, i: nat)
    requires i < |chain|
  {
    Fold(chain[..i]).Some? ==> Fresh(Fold(chain[..i]).value.utxo, BlockOps(chain[i].txs))
  }

  ghost predicate FreshChain(chain: seq<Block>) {
    forall i :: 0 <= i < |chain| ==> FreshAt(chain, i)
  }

  lemma GrowUndoable(a: Account, b: Block)
    requires Grow(a, b).Some? && Fresh(a.utxo, BlockOps(b.txs))
    ensures Undoable(a.utxo, OpenBooks(a.utxo, a.supply, b).value.undo)
  {
    ValidInputsLive(a.utxo, b.txs);
    FreshUndoable(a.utxo, a.supply, BlockOps(b.txs));
  }

  lemma GrowthAt(chain: seq<Block>, i: nat)
    requires Fold(chain).Some? && i < |chain|
    ensures Fold(chain[..i]).Some? && Grow(Fold(chain[..i]).value, chain[i]).Some?
    ensures Fold(chain[..i + 1]) == Grow(Fold(chain[..i]).value, chain[i])
  {
    FoldPrefix(chain, i + 1);
    var c := chain[..i + 1];
    assert c[..|c| - 1] == chain[..i] && c[|c| - 1] == chain[i];
  }

  lemma FreshReversible(chain: seq<Block>)
    requires Fold(chain).Some? && FreshChain(chain)
    ensures Reversible(chain, 0)
  {
    forall i | 0 <= i < |chain|
      ensures ReversibleAt(chain, i)
    {
      assert FreshAt(chain, i);
      GrowthAt(chain, i);
      GrowUndoable(Fold(chain[..i]).value, chain[i]);
    }
  }

  lemma SnocFacts(chain: seq<Block>, b: Block)
    ensures forall i :: 0 <= i <= |chain| ==> (chain + [b])[..i] == chain[..i]
    ensures forall i :: 0 <= i < |chain| ==> (chain + [b])[i] == chain[i]
    ensures (chain + [b])[|chain|] == b && chain[..|chain|] == chain
  {
  }

  lemma ConnectTracks(env: Env, s: Core, chain: seq<Block>, b: Block)
    requires Tracks(s, chain) && DistinctIds(chain + [b])
    requires Connect(env, s, b).1 == Done
    ensures var s1 := Connect(env, s, b).0;
            && Tracks(s1, chain + [b]) && s1.undo.Keys == s.undo.Keys + {b.id}
            && (SnapshotsFollow(s, chain) ==> SnapshotsFollow(s1, chain + [b]))
  {
    var s1 := Connect(env, s, b).0;
    ConnectGrows(env, s, b);
    ApplyDone(env, s, b);
    FoldSnoc(chain, b);
    FoldBacked(chain);
    RecordsSnoc(s.undo, s1.undo, chain, b);
    if SnapshotsFollow(s, chain) {
      ConnectSnapshots(s, s1, chain, b);
    }
  }

  /** Recording the last block leaves the records of the others right. */
  lemma RecordsSnoc(undo: map<Hash, BlockUndo>, undo1: map<Hash, BlockUndo>, chain: seq<Block>, b: Block)
    requires RecordsRight(undo, chain) && DistinctIds(chain + [b])
    requires b.id in undo1 && undo1 == undo[b.id := undo1[b.id]] && undo1[b.id].ledger == Record(chain, b)
    ensures RecordsRight(undo1, chain + [b])
  {
    SnocFacts(chain, b);
    forall i | 0 <= i < |chain + [b]|
      ensures RecordRightAt(undo1, chain + [b], i)
    {
      if i < |chain| {
        assert (chain + [b])[i].id != (chain + [b])[|chain|].id;
        assert RecordRightAt(undo, chain, i);
      }
    }
  }

  /** A plain block the replay accepts connects and keeps everything in step. */
  lemma {:induction false} PlainConnectTracks(env: Env, s: Core, chain: seq<Block>, b: Block)
    requires Tracks(s, chain) && SnapshotsFollow(s, chain) && Recorded(s, chain, 0) && DistinctIds(chain + [b])
    requires IsPlain(b) && Grow(View(s), b).Some?
    ensures var (s1, outcome) := Connect(env, s, b);
            && outcome == Done && View(s1) == Grow(View(s), b).value
            && Tracks(s1, chain + [b]) && SnapshotsFollow(s1, chain + [b]) && Recorded(s1, chain + [b], 0)
  {
    FoldBacked(chain);
    PlainConnectIff(env, s, b);
    ConnectGrows(env, s, b);
    ConnectTracks(env, s, chain, b);
  }

  lemma ConnectSnapshots(s: Core, s1: Core, chain: seq<Block>, b: Block)
    requires SnapshotsFollow(s, chain) && Fold(chain + [b]).Some? && s1.supply == Fold(chain + [b]).value.supply
    requires s1.height == |chain| + 1
    requires |s1.snapshots| == |s.snapshots| + 1 && s1.snapshots[..|s.snapshots|] == s.snapshots
    requires s1.snapshots[|s.snapshots|].height == s1.height && s1.snapshots[|s.snapshots|].supply == s1.supply
    requires |s1.storages| == |s.storages| + 1
    ensures SnapshotsFollow(s1, chain + [b])
  {
    SnocFacts(chain, b);
    forall i | 0 <= i <= |chain + [b]|
      ensures SnapshotAt(s1, chain + [b], i)
    {
      if i <= |chain| {
        assert SnapshotAt(s, chain, i);
        assert s1.snapshots[i] == s1.snapshots[..|s.snapshots|][i] == s.snapshots[i];
      } else {
        assert (chain + [b])[..i] == chain + [b];
      }
    }
  }

  /** Disconnecting the tip leads back to the chain without it. */
  lemma DisconnectTracks(s: Core, chain: seq<Block>, b: Block)
    requires Tracks(s, chain + [b]) && b.id in s.undo && ReversibleAt(chain + [b], |chain|)
    ensures var (s1, outcome) := Disconnect(s, b);
            && outcome == Done && Tracks(s1, chain) && s1.undo == s.undo - {b.id}
            && (SnapshotsFollow(s, chain + [b]) ==> SnapshotsFollow(s1, chain))
  {
    var s1 := Disconnect(s, b).0;
    SnocFacts(chain, b);
    FoldSnoc(chain, b);
    FoldBacked(chain);
    FoldBacked(chain + [b]);
    var a := Fold(chain).value;
    var books := OpenBooks(a.utxo, a.supply, b).value;
    assert s.undo[b.id].ledger == books.undo by {
      assert RecordRightAt(s.undo, chain + [b], |chain|);
    }
    assert Undoable(a.utxo, books.undo);
    NoSaturation(a.utxo, a.supply, b);
    BooksRemember(a.utxo, a.supply, b);
    UndoExact(a.utxo, books);
    assert View(s1) == a;
    forall i | 0 <= i < |chain|
      ensures RecordRightAt(s1.undo, chain, i)
    {
      assert RecordRightAt(s.undo, chain + [b], i);
    }
    assert DistinctIds(chain) by {
      forall i, j | 0 <= i < j < |chain|
        ensures chain[i].id != chain[j].id
      {
        assert (chain + [b])[i].id != (chain + [b])[j].id;
      }
    }
    if SnapshotsFollow(s, chain + [b]) {
      forall i | 0 <= i <= |chain|
        ensures SnapshotAt(s1, chain, i)
      {
        assert SnapshotAt(s, chain + [b], i);
        assert s1.snapshots[i] == s.snapshots[i];
        assert (chain + [b])[..i] == chain[..i];
      }
    }
  }

  // ----- whole suffixes -----

  ghost function Ids(blocks: seq<Block>): set<Hash> {
    set i | 0 <= i < |blocks| :: blocks[i].id
  }

  lemma IdsSnoc(front: seq<Block>, b: Block)
    ensures Ids(front + [b]) == Ids(front) + {b.id}
    ensures Ids([b] + front) == {b.id} + Ids(front)
  {
    var all, flip := front + [b], [b] + front;
    assert forall i :: 0 <= i < |front| ==> all[i] == front[i] && flip[i + 1] == front[i];
    assert all[|front|] == b && flip[0] == b;
  }

  lemma SuffixFacts(s: Core, chain: seq<Block>, b: Block, s1: Core, from: nat)
    requires DistinctIds(chain + [b]) && from <= |chain|
    requires Recorded(s, chain + [b], from) && Reversible(chain + [b], from)
    requires s1.undo == s.undo - {b.id}
    ensures b.id in s.undo && ReversibleAt(chain + [b], |chain|)
    ensures Recorded(s1, chain, from) && Reversible(chain, from)
  {
    SnocFacts(chain, b);
    assert (chain + [b])[|chain|].id in s.undo;
    forall i | from <= i < |chain|
      ensures chain[i].id in s1.undo
    {
      assert (chain + [b])[i].id in s.undo;
      assert (chain + [b])[i].id != (chain + [b])[|chain|].id;
    }
    forall i | from <= i < |chain|
      ensures ReversibleAt(chain, i)
    {
      assert ReversibleAt(chain + [b], i);
    }
  }

  lemma PeelTip(s: Core, chain: seq<Block>, b: Block, from: nat)
    requires from <= |chain|
    requires Tracks(s, chain + [b]) && Recorded(s, chain + [b], from) && Reversible(chain + [b], from)
    ensures var (s1, outcome) := Disconnect(s, b);
            && outcome == Done && s1.undo == s.undo - {b.id}
            && Tracks(s1, chain) && Recorded(s1, chain, from) && Reversible(chain, from)
            && (SnapshotsFollow(s, chain + [b]) ==> SnapshotsFollow(s1, chain))
  {
    SuffixFacts(s, chain, b, s.(undo := s.undo - {b.id}), from);
    DisconnectTracks(s, chain, b);
    assert Recorded(Disconnect(s, b).0, chain, from);
  }

  /** Disconnecting `list`, last block first, takes a state that follows base + drop back to one that follows base. */
  ghost predicate Unwinds(s: Core, base: seq<Block>, drop: seq<Block>, list: seq<Block>) {
    var (s1, outcome) := DisconnectAll(s, list);
    && outcome == Done && Tracks(s1, base) && s1.undo == s.undo - Ids(drop)
    && (SnapshotsFollow(s, base + drop) ==> SnapshotsFollow(s1, base))
    && Recorded(s, list, 0)
  }

  /** A suffix listed in chain order unwinds. */
  lemma {:induction false} DisconnectSuffix(s: Core, base: seq<Block>, drop: seq<Block>)
    requires Tracks(s, base + drop) && Recorded(s, base + drop, |base|) && Reversible(base + drop, |base|)
    ensures Unwinds(s, base, drop, drop)
    decreases drop
  {
    if drop == [] {
      assert base + drop == base;
      assert s.undo - Ids(drop) == s.undo;
    } else {
      var front, b := drop[..|drop| - 1], drop[|drop| - 1];
      assert drop == front + [b];
      assert base + drop == (base + front) + [b];
      PeelTip(s, base + front, b, |base|);
      DisconnectSuffix(Disconnect(s, b).0, base, front);
      IdsSnoc(front, b);
      MinusMinus(s.undo, {b.id}, Ids(front));
      RecordedSuffix(s, base, drop);
    }
  }

  lemma RecordedSuffix(s: Core, base: seq<Block>, drop: seq<Block>)
    requires Recorded(s, base + drop, |base|)
    ensures Recorded(s, drop, 0)
  {
    assert forall k :: 0 <= k < |drop| ==> (base + drop)[|base| + k] == drop[k];
  }

  lemma MinusMinus<K, V>(m: map<K, V>, a: set<K>, b: set<K>)
    ensures (m - a) - b == m - (b + a)
  {
  }

  lemma DistinctPrefix(chain: seq<Block>, more: seq<Block>)
    requires DistinctIds(chain + more)
    ensures DistinctIds(chain)
  {
    assert forall i :: 0 <= i < |chain| ==> chain[i] == (chain + more)[i];
  }

  lemma ConnectFirst(env: Env, s: Core, base: seq<Block>, b: Block, rest: seq<Block>)
    requires Tracks(s, base) && DistinctIds((base + [b]) + rest)
    requires Connect(env, s, b).1 == Done
    ensures var s1 := Connect(env, s, b).0;
            && Tracks(s1, base + [b]) && s1.undo.Keys == s.undo.Keys + {b.id}
            && (SnapshotsFollow(s, base) ==> SnapshotsFollow(s1, base + [b]))
  {
    DistinctPrefix(base + [b], rest);
    ConnectTracks(env, s, base, b);
  }

  lemma {:induction false} ConnectSuffix(env: Env, s: Core, base: seq<Block>, blocks: seq<Block>)
    requires Tracks(s, base) && DistinctIds(base + blocks)
    requires ConnectAll(env, s, blocks).1 == Done
    ensures var s1 := ConnectAll(env, s, blocks).0;
            && Tracks(s1, base + blocks)
            && (SnapshotsFollow(s, base) ==> SnapshotsFollow(s1, base + blocks))
    decreases blocks
  {
    if blocks == [] {
      assert base + blocks == base;
    } else {
      var b, rest := blocks[0], blocks[1..];
      assert blocks == [b] + rest;
      assert base + blocks == (base + [b]) + rest;
      ConnectFirst(env, s, base, b, rest);
      assert ConnectAll(env, s, blocks) == ConnectAll(env, Connect(env, s, b).0, rest);
      ConnectSuffix(env, Connect(env, s, b).0, base + [b], rest);
    }
  }

  /** A list of recorded blocks followed by a block without undo data is split exactly there. */
  lemma PlanSplits(s: Core, list: seq<Block>, add: seq<Block>)
    requires Recorded(s, list, 0) && (add != [] ==> add[0].id !in s.undo)
    ensures AppliedPrefix(s.undo.Keys, list + add) == |list|
    ensures (list + add)[..|list|] == list && (list + add)[|list|..] == add
  {
    PrefixSplit(s.undo.Keys, list, add);
  }

  /** A successful reorganization whose list unwinds leaves what replaying base + add from genesis gives. */
  lemma UnwoundThenReplayed(env: Env, s: Core, base: seq<Block>, drop: seq<Block>, list: seq<Block>, add: seq<Block>)
    requires Unwinds(s, base, drop, list)
    requires DistinctIds(base + add) && (add != [] ==> add[0].id !in s.undo)
    requires Perform(env, s, list + add).1 == Done
    ensures var s1 := Perform(env, s, list + add).0;
            && Fold(base + add) == Some(View(s1)) && Tracks(s1, base + add)
            && (SnapshotsFollow(s, base + drop) ==> SnapshotsFollow(s1, base + add))
  {
    PlanSplits(s, list, add);
    ConnectSuffix(env, DisconnectAll(s, list).0, base, add);
  }

  /** For plain transfers it also succeeds exactly when that replay exists. */
  lemma UnwoundPlainIff(env: Env, s: Core, base: seq<Block>, drop: seq<Block>, list: seq<Block>, add: seq<Block>)
    requires Unwinds(s, base, drop, list) && SnapshotsFollow(s, base + drop)
    requires DistinctIds(base + add) && (add != [] ==> add[0].id !in s.undo)
    requires forall i :: 0 <= i < |add| ==> IsPlain(add[i])
    ensures Perform(env, s, list + add).1 == Done <==> Fold(base + add).Some?
  {
    PlanSplits(s, list, add);
    PlainConnectAllIff(env, DisconnectAll(s, list).0, base, add);
  }

  /**
   Reorganization equals replay when the plan lists the dropped blocks in chain order, the order
   `perform_reorganization` reverses: a successful one leaves exactly what replaying base + add from genesis gives,
   and its snapshots record the supplies of that replay.
   */
  lemma ReorganizationIsReplay(env: Env, s: Core, base: seq<Block>, drop: seq<Block>, add: seq<Block>)
    requires Tracks(s, base + drop) && Recorded(s, base + drop, |base|) && Reversible(base + drop, |base|)
    requires DistinctIds(base + add) && (add != [] ==> add[0].id !in s.undo)
    requires Perform(env, s, drop + add).1 == Done
    ensures var s1 := Perform(env, s, drop + add).0;
            && Fold(base + add) == Some(View(s1)) && Tracks(s1, base + add)
            && (SnapshotsFollow(s, base + drop) ==> SnapshotsFollow(s1, base + add))
  {
    DisconnectSuffix(s, base, drop);
    UnwoundThenReplayed(env, s, base, drop, drop, add);
  }

  lemma PlainReorganizationIff(env: Env, s: Core, base: seq<Block>, drop: seq<Block>, add: seq<Block>)
    requires Tracks(s, base + drop) && Recorded(s, base + drop, |base|) && Reversible(base + drop, |base|)
    requires SnapshotsFollow(s, base + drop)
    requires DistinctIds(base + add) && (add != [] ==> add[0].id !in s.undo)
    requires forall i :: 0 <= i < |add| ==> IsPlain(add[i])
    ensures Perform(env, s, drop + add).1 == Done <==> Fold(base + add).Some?
  {
    DisconnectSuffix(s, base, drop);
    UnwoundPlainIff(env, s, base, drop, drop, add);
  }

  lemma {:induction false} PlainConnectAllIff(env: Env, s: Core, base: seq<Block>, blocks: seq<Block>)
    requires Tracks(s, base) && SnapshotsFollow(s, base) && DistinctIds(base + blocks)
    requires forall i :: 0 <= i < |blocks| ==> IsPlain(blocks[i])
    ensures ConnectAll(env, s, blocks).1 == Done <==> Fold(base + blocks).Some?
    decreases blocks
  {
    if blocks == [] {
      assert base + blocks == base;
    } else {
      var b, rest := blocks[0], blocks[1..];
      FoldBacked(base);
      PlainConnectIff(env, s, b);
      FoldSnoc(base, b);
      assert base + blocks == (base + [b]) + rest;
      if Connect(env, s, b).1 == Done {
        DistinctPrefix(base + [b], rest);
        ConnectTracks(env, s, base, b);
        PlainConnectAllIff(env, Connect(env, s, b).0, base + [b], rest);
      } else {
        assert (base + blocks)[..|base| + 1] == base + [b];
        if Fold(base + blocks).Some? {
          FoldPrefix(base + blocks, |base| + 1);
        }
      }
    }
  }
}
