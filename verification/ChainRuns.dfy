/**
 Whole runs of the chain state machine: connects, tip disconnects and reorganizations in any order, successful or
 failed, starting from an empty chain. Reorganizations take the list the planner makes, or one in chain order.
 */
module ChainRuns {
  import opened Basics
  import opened Ledger
  import opened ChainState
  import opened ChainUndo
  import opened ChainReorg
  import opened PlannerReorg
  import opened ReorgLeftovers

  datatype Action =
    | ConnectTip(b: Block)
    | DisconnectTip
    | ReorgTip(drop: nat, add: seq<Block>, tipFirst: bool)   // drop the last blocks of the chain, then connect others

  /** `chain` is the chain the state is on; `intact` says that no reorganization has failed so far. */
  datatype Run = Running(s: Core, chain: seq<Block>, intact: bool) | Halted(wasIntact: bool)

  function Start(env: Env, tree: Tree): Run {
    Running(Genesis(env, tree), [], true)
  }

  /** The blocks to drop as a plan lists them: the planner puts the tip first. */
  function Listed(drop: seq<Block>, tipFirst: bool): seq<Block> {
    if tipFirst then Reverse(drop) else drop
  }

  function Act(env: Env, r: Run, x: Action): Run {
    if r.Halted? then r
    else
      match x
      case ConnectTip(b) =>
        var (s1, o) := Connect(env, r.s, b);
        if o == Panicked then Halted(r.intact)
        else Running(s1, if o == Done then r.chain + [b] else r.chain, r.intact)
      case DisconnectTip =>
        if r.chain == [] then r
        else
          var n := |r.chain| - 1;
          var (s1, o) := Disconnect(r.s, r.chain[n]);
          Running(s1, if o == Done then r.chain[..n] else r.chain, r.intact)
      case ReorgTip(drop, add, tipFirst) =>
        if drop > |r.chain| then r
        else
          var n := |r.chain| - drop;
          var (s1, o) := Reorganize(env, r.s, Listed(r.chain[n..], tipFirst) + add);
          if o == Panicked then Halted(r.intact)
          else if o == Done then Running(s1, r.chain[..n] + add, r.intact)
          else Running(s1, r.chain, false)
  }

  function RunAll(env: Env, r: Run, xs: seq<Action>): Run {
    if xs == [] then r else Act(env, RunAll(env, r, xs[..|xs| - 1]), xs[|xs| - 1])
  }

  /**
   What callers owe: blocks that join the chain have new ids and fresh outputs, and a reorganization drops blocks that
   still have undo data (none of them has, if an earlier reorganization that dropped them failed). A plan that has the
   tip first and succeeds must settle; a plan that fails owes nothing more.
   */
  ghost predicate Admissible(env: Env, r: Run, x: Action) {
    r.Halted? ||
    match x
    case ConnectTip(b) => DistinctIds(r.chain + [b]) && FreshAt(r.chain + [b], |r.chain|)
    case DisconnectTip => true
    case ReorgTip(drop, add, tipFirst) =>
      drop <= |r.chain| ==>
        var n := |r.chain| - drop;
        && Recorded(r.s, r.chain, n)
        && DistinctIds(r.chain + add)
        && (add != [] ==> add[0].id !in r.s.undo)
        && (Reorganize(env, r.s, Listed(r.chain[n..], tipFirst) + add).1 == Done ==>
              SuccessOwes(r.chain[..n], r.chain[n..], add, tipFirst))
  }

  ghost predicate SuccessOwes(base: seq<Block>, drop: seq<Block>, add: seq<Block>, tipFirst: bool) {
    FreshChain(base + add) && (tipFirst ==> FreshDrop(base, drop) && Settles(base, drop, add))
  }

  ghost predicate AllAdmissible(env: Env, r: Run, xs: seq<Action>) {
    forall k :: 0 <= k < |xs| ==> AdmissibleAt(env, r, xs, k)
  }

  ghost predicate AdmissibleAt(env: Env, r: Run, xs: seq<Action>, k: nat)
    requires k < |xs|
  {
    Admissible(env, RunAll(env, r, xs[..k]), xs[k])
  }

  /** What every run keeps. */
  ghost predicate Inv(r: Run) {
    match r
    case Halted(wasIntact) => !wasIntact
    case Running(s, chain, intact) =>
      && Tracks(s, chain) && FreshChain(chain)
      && (intact ==> SnapshotsFollow(s, chain) && Recorded(s, chain, 0))
  }

  // ----- steps -----

  lemma FreshSnoc(chain: seq<Block>, b: Block)
    requires FreshChain(chain) && FreshAt(chain + [b], |chain|)
    ensures FreshChain(chain + [b])
  {
    SnocFacts(chain, b);
    forall i | 0 <= i < |chain + [b]|
      ensures FreshAt(chain + [b], i)
    {
      if i < |chain| {
        assert FreshAt(chain, i);
      }
    }
  }

  lemma FreshPrefix(chain: seq<Block>, n: nat)
    requires FreshChain(chain) && n <= |chain|
    ensures FreshChain(chain[..n])
  {
    forall i | 0 <= i < n
      ensures FreshAt(chain[..n], i)
    {
      assert FreshAt(chain, i);
      assert chain[..n][..i] == chain[..i];
    }
  }

  lemma ConnectStep(env: Env, r: Run, b: Block)
    requires r.Running? && Inv(r) && Admissible(env, r, ConnectTip(b))
    ensures Inv(Act(env, r, ConnectTip(b)))
  {
    var (s1, o) := Connect(env, r.s, b);
    FoldBacked(r.chain);
    if o == Done {
      ConnectTracks(env, r.s, r.chain, b);
      FreshSnoc(r.chain, b);
      RecordedSnoc(r.s, s1, r.chain, b);
    }
  }

  lemma RecordedSnoc(s: Core, s1: Core, chain: seq<Block>, b: Block)
    requires s1.undo.Keys == s.undo.Keys + {b.id}
    ensures Recorded(s, chain, 0) ==> Recorded(s1, chain + [b], 0)
  {
  }

  lemma DisconnectStep(env: Env, r: Run)
    requires r.Running? && Inv(r)
    ensures Inv(Act(env, r, DisconnectTip))
  {
    if r.chain != [] {
      var n := |r.chain| - 1;
      var front, b := r.chain[..n], r.chain[n];
      assert r.chain == front + [b];
      if b.id in r.s.undo {
        FreshReversible(r.chain);
        assert ReversibleAt(r.chain, n);
        DisconnectTracks(r.s, front, b);
        FreshPrefix(r.chain, n);
        if r.intact {
          RecordedFront(r.s, Disconnect(r.s, b).0, front, b);
        }
      }
    }
  }

  lemma RecordedFront(s: Core, s1: Core, front: seq<Block>, b: Block)
    requires Recorded(s, front + [b], 0) && DistinctIds(front + [b]) && s1.undo == s.undo - {b.id}
    ensures Recorded(s1, front, 0)
  {
    forall i | 0 <= i < |front|
      ensures front[i].id in s1.undo
    {
      assert (front + [b])[i].id in s.undo;
      assert (front + [b])[i].id != (front + [b])[|front|].id;
    }
  }

  /** Whatever connecting a list of blocks comes to, undo data moves only under the ids of that list. */
  lemma {:induction false} ConnectAllFrame(env: Env, s: Core, blocks: seq<Block>, h: Hash)
    requires forall i :: 0 <= i < |blocks| ==> blocks[i].id != h
    ensures var s1 := ConnectAll(env, s, blocks).0;
            (h in s1.undo <==> h in s.undo) && (h in s.undo ==> s1.undo[h] == s.undo[h])
    decreases blocks
  {
    if blocks == [] {
    } else {
      var (s1, o) := Connect(env, s, blocks[0]);
      if o == Done {
        ApplyDone(env, s, blocks[0]);
        ConnectAllFrame(env, s1, blocks[1..], h);
      }
    }
  }

  /** Blocks connected to a state that has a snapshot above its height never panic. */
  lemma {:induction false} NoPanic(env: Env, s: Core, blocks: seq<Block>)
    requires s.height < |s.snapshots|
    ensures ConnectAll(env, s, blocks).1 != Panicked
    decreases blocks
  {
    if blocks == [] {
    } else if Connect(env, s, blocks[0]).1 == Done {
      ApplyDone(env, s, blocks[0]);
      NoPanic(env, Connect(env, s, blocks[0]).0, blocks[1..]);
    }
  }

  /** Disconnecting any list never makes undo data up. */
  lemma {:induction false} DisconnectAllFrame(s: Core, list: seq<Block>, h: Hash)
    ensures var s1 := DisconnectAll(s, list).0;
            h in s1.undo ==> h in s.undo && s1.undo[h] == s.undo[h]
    decreases list
  {
    if list == [] {
    } else {
      var n := |list| - 1;
      if Disconnect(s, list[n]).1 == Done {
        DisconnectAllFrame(Disconnect(s, list[n]).0, list[..n], h);
      }
    }
  }

  /** Disconnecting different blocks with undo data lowers height and stacks by their number. */
  lemma {:induction false} DisconnectAllStacks(s: Core, list: seq<Block>)
    requires DistinctIds(list) && Recorded(s, list, 0)
    ensures var (s1, outcome) := DisconnectAll(s, list);
            && outcome == Done && s1.height == SatSub(s.height, |list|)
            && |s1.snapshots| == SatSub(|s.snapshots|, |list|)
    decreases list
  {
    if list == [] {
    } else {
      var n := |list| - 1;
      var front, b := list[..n], list[n];
      assert list == front + [b];
      RecordedFront(s, Disconnect(s, b).0, front, b);
      DistinctPrefix(front, [b]);
      DisconnectAllStacks(Disconnect(s, b).0, front);
    }
  }

  lemma DistinctFromLater(chain: seq<Block>, add: seq<Block>, i: nat)
    requires DistinctIds(chain + add) && i < |chain|
    ensures forall k :: 0 <= k < |add| ==> add[k].id != chain[i].id
  {
    forall k | 0 <= k < |add|
      ensures add[k].id != chain[i].id
    {
      assert (chain + add)[|chain| + k] == add[k] && (chain + add)[i] == chain[i];
    }
  }

  /**
   After a failed reorganization, whatever its plan, the state follows the old chain again, up to its snapshots and
   undo data.
   */
  lemma FailedReorgTracks(env: Env, s: Core, chain: seq<Block>, plan: seq<Block>)
    requires Tracks(s, chain) && Reorganize(env, s, plan).1 == Failed
    requires DistinctIds(chain + plan[AppliedPrefix(s.undo.Keys, plan)..])
    ensures Tracks(Reorganize(env, s, plan).0, chain)
  {
    var n := AppliedPrefix(s.undo.Keys, plan);
    var sd, s1 := DisconnectAll(s, plan[..n]).0, Reorganize(env, s, plan).0;
    forall i | 0 <= i < |chain|
      ensures RecordRightAt(s1.undo, chain, i)
    {
      DistinctFromLater(chain, plan[n..], i);
      DisconnectAllFrame(s, plan[..n], chain[i].id);
      ConnectAllFrame(env, sd, plan[n..], chain[i].id);
      assert RecordRightAt(s.undo, chain, i);
    }
  }

  lemma DistinctPieces(base: seq<Block>, drop: seq<Block>, add: seq<Block>)
    requires DistinctIds((base + drop) + add)
    ensures DistinctIds(base + add)
  {
    var all := (base + drop) + add;
    forall i, j | 0 <= i < j < |base + add|
      ensures (base + add)[i].id != (base + add)[j].id
    {
      var i1 := if i < |base| then i else i + |drop|;
      var j1 := if j < |base| then j else j + |drop|;
      assert all[i1] == (base + add)[i] && all[j1] == (base + add)[j];
    }
  }

  lemma ListedFacts(s: Core, base: seq<Block>, drop: seq<Block>, tipFirst: bool)
    requires DistinctIds(base + drop) && Recorded(s, base + drop, |base|)
    ensures var list := Listed(drop, tipFirst);
            |list| == |drop| && DistinctIds(list) && Recorded(s, list, 0)
  {
    DropDistinct(base, drop);
    RecordedSuffix(s, base, drop);
    if tipFirst {
      RecordedReverse(s, base, drop);
      ReverseAll(drop);
    }
  }

  lemma ReorgDone(env: Env, s: Core, base: seq<Block>, drop: seq<Block>, add: seq<Block>, tipFirst: bool)
    requires Tracks(s, base + drop) && Recorded(s, base + drop, |base|) && FreshChain(base + drop)
    requires DistinctIds((base + drop) + add) && (add != [] ==> add[0].id !in s.undo)
    requires Reorganize(env, s, Listed(drop, tipFirst) + add).1 == Done && SuccessOwes(base, drop, add, tipFirst)
    ensures var s1 := Reorganize(env, s, Listed(drop, tipFirst) + add).0;
            && Tracks(s1, base + add)
            && (SnapshotsFollow(s, base + drop) ==> SnapshotsFollow(s1, base + add))
  {
    DistinctPieces(base, drop, add);
    if tipFirst {
      PlannedReplaysIff(env, s, base, drop, add);
    } else {
      FreshReversible(base + drop);
      assert Reversible(base + drop, |base|);
      ReorganizationIsReplay(env, s, base, drop, add);
    }
  }

  lemma ReorgUndoData(env: Env, s: Core, base: seq<Block>, drop: seq<Block>, add: seq<Block>, tipFirst: bool)
    requires Tracks(s, base + drop) && Recorded(s, base + drop, 0) && FreshChain(base + drop)
    requires DistinctIds((base + drop) + add) && (add != [] ==> add[0].id !in s.undo)
    requires Reorganize(env, s, Listed(drop, tipFirst) + add).1 == Done
    ensures Recorded(Reorganize(env, s, Listed(drop, tipFirst) + add).0, base + add, 0)
  {
    ListedFacts(s, base, drop, tipFirst);
    PlanSplits(s, Listed(drop, tipFirst), add);
    if tipFirst {
      TipFirstView(s, base, drop);
    } else {
      FreshReversible(base + drop);
      assert Reversible(base + drop, |base|);
      DisconnectSuffix(s, base, drop);
    }
    ReorgRecords(env, s, DisconnectAll(s, Listed(drop, tipFirst)).0, base, drop, add);
  }

  /** While snapshots follow the chain no reorganization panics. */
  lemma ReorgNoPanic(env: Env, s: Core, chain: seq<Block>, list: seq<Block>, add: seq<Block>)
    requires Tracks(s, chain) && SnapshotsFollow(s, chain)
    requires DistinctIds(list) && Recorded(s, list, 0) && |list| <= |chain| && (add != [] ==> add[0].id !in s.undo)
    ensures Reorganize(env, s, list + add).1 != Panicked
  {
    FoldBacked(chain);
    PlanSplits(s, list, add);
    DisconnectAllStacks(s, list);
    NoPanic(env, DisconnectAll(s, list).0, add);
  }

  lemma ReorgStep(env: Env, r: Run, drop: nat, add: seq<Block>, tipFirst: bool)
    requires r.Running? && Inv(r) && Admissible(env, r, ReorgTip(drop, add, tipFirst)) && drop <= |r.chain|
    ensures Inv(Act(env, r, ReorgTip(drop, add, tipFirst)))
  {
    var n := |r.chain| - drop;
    var base, tail := r.chain[..n], r.chain[n..];
    var list := Listed(tail, tipFirst);
    assert r.chain == base + tail;
    ListedFacts(r.s, base, tail, tipFirst);
    PlanSplits(r.s, list, add);
    match Reorganize(env, r.s, list + add).1
    case Failed => FailedReorgTracks(env, r.s, r.chain, list + add);
    case Done =>
      ReorgDone(env, r.s, base, tail, add, tipFirst);
      if r.intact {
        ReorgUndoData(env, r.s, base, tail, add, tipFirst);
      }
    case Panicked =>
      if r.intact {
        ReorgNoPanic(env, r.s, r.chain, list, add);
      }
  }

  lemma {:induction false} ConnectAllRecords(env: Env, s: Core, blocks: seq<Block>, i: nat)
    requires ConnectAll(env, s, blocks).1 == Done && i < |blocks|
    requires DistinctIds(blocks)
    ensures blocks[i].id in ConnectAll(env, s, blocks).0.undo
    decreases blocks
  {
    var (s1, o) := Connect(env, s, blocks[0]);
    ApplyDone(env, s, blocks[0]);
    var rest := blocks[1..];
    assert DistinctIds(rest) by {
      assert forall k :: 0 <= k < |rest| ==> rest[k] == blocks[k + 1];
    }
    if i > 0 {
      ConnectAllRecords(env, s1, rest, i - 1);
    } else {
      ConnectAllFrame(env, s1, rest, blocks[0].id);
    }
  }

  lemma ReorgRecords(env: Env, s: Core, sd: Core, base: seq<Block>, drop: seq<Block>, add: seq<Block>)
    requires Recorded(s, base + drop, 0) && DistinctIds((base + drop) + add)
    requires sd.undo == s.undo - Ids(drop)
    requires ConnectAll(env, sd, add).1 == Done
    ensures Recorded(ConnectAll(env, sd, add).0, base + add, 0)
  {
    var all, s1 := (base + drop) + add, ConnectAll(env, sd, add).0;
    assert forall k :: 0 <= k < |add| ==> all[|base + drop| + k] == add[k];
    forall i | 0 <= i < |base + add|
      ensures (base + add)[i].id in s1.undo
    {
      if i < |base| {
        assert all[i] == base[i] && (base + drop)[i] == base[i];
        assert base[i].id in s.undo;
        assert base[i].id !in Ids(drop) by {
          assert forall k :: 0 <= k < |drop| ==> all[|base| + k] == drop[k];
        }
        ConnectAllFrame(env, sd, add, base[i].id);
      } else {
        assert DistinctIds(add);
        ConnectAllRecords(env, sd, add, i - |base|);
      }
    }
  }

  lemma {:induction false} RunsKeepInv(env: Env, tree: Tree, xs: seq<Action>)
    requires AllAdmissible(env, Start(env, tree), xs)
    ensures Inv(RunAll(env, Start(env, tree), xs))
  {
    var r0 := Start(env, tree);
    if xs == [] {
      assert SnapshotAt(r0.s, [], 0);
    } else {
      var front, x := xs[..|xs| - 1], xs[|xs| - 1];
      forall k | 0 <= k < |front|
        ensures AdmissibleAt(env, r0, front, k)
      {
        assert AdmissibleAt(env, r0, xs, k);
        assert front[..k] == xs[..k];
      }
      RunsKeepInv(env, tree, front);
      assert AdmissibleAt(env, r0, xs, |xs| - 1);
      var r := RunAll(env, r0, front);
      if r.Running? {
        match x
        case ConnectTip(b) => ConnectStep(env, r, b);
        case DisconnectTip => DisconnectStep(env, r);
        case ReorgTip(drop, add, tipFirst) =>
          if drop <= |r.chain| {
            ReorgStep(env, r, drop, add, tipFirst);
          }
      }
    }
  }

  lemma {:induction false} FreshChainConserves(chain: seq<Block>)
    requires Fold(chain).Some? && FreshChain(chain)
    ensures Fold(chain).value.supply == Total(Fold(chain).value.utxo)
  {
    if chain == [] {
    } else {
      var n := |chain| - 1;
      FreshPrefix(chain, n);
      FreshChainConserves(chain[..n]);
      assert FreshAt(chain, n);
      var a := Fold(chain[..n]).value;
      FoldBacked(chain[..n]);
      NoSaturation(a.utxo, a.supply, chain[n]);
      FreshOverwritesNothing(a.utxo, BlockOps(chain[n].txs));
    }
  }

  /**
   Conservation over whole runs: after any run of connects, tip disconnects and reorganizations, successful or failed,
   the supply is the sum of the UTXO values and within the cap, and the state is the replay of its chain. While no
   reorganization has failed, snapshot i is at height i with the supply of that height, and nothing panics.
   */
  lemma RunsConserveSupply(env: Env, tree: Tree, xs: seq<Action>)
    requires AllAdmissible(env, Start(env, tree), xs)
    ensures var r := RunAll(env, Start(env, tree), xs);
            match r
            case Halted(wasIntact) => !wasIntact
            case Running(s, chain, intact) =>
              && s.supply == Total(s.utxo) <= MAX_GLOBAL_SUPPLY
              && Fold(chain) == Some(View(s)) && s.height == |chain|
              && (intact ==> SnapshotsFollow(s, chain))
  {
    RunsKeepInv(env, tree, xs);
    var r := RunAll(env, Start(env, tree), xs);
    if r.Running? {
      FoldBacked(r.chain);
      FreshChainConserves(r.chain);
    }
  }

  // ----- after a failed reorganization -----

  /** How many blocks of a list connect before one is refused. */
  function Accepted(env: Env, s: Core, blocks: seq<Block>): (k: nat)
    ensures k <= |blocks|
    decreases blocks
  {
    if blocks == [] || Connect(env, s, blocks[0]).1 != Done then 0
    else 1 + Accepted(env, Connect(env, s, blocks[0]).0, blocks[1..])
  }

  lemma {:induction false} AcceptedSnapshots(env: Env, s: Core, blocks: seq<Block>)
    requires ConnectAll(env, s, blocks).1 == Failed
    ensures |ConnectAll(env, s, blocks).0.snapshots| == |s.snapshots| + Accepted(env, s, blocks)
    decreases blocks
  {
    if Connect(env, s, blocks[0]).1 == Done {
      ApplyDone(env, s, blocks[0]);
      AcceptedSnapshots(env, Connect(env, s, blocks[0]).0, blocks[1..]);
    }
  }

  /** The blocks before the refused one connect, and the refused one adds nothing. */
  lemma {:induction false} AcceptedConnect(env: Env, s: Core, blocks: seq<Block>)
    requires ConnectAll(env, s, blocks).1 == Failed
    ensures var k := Accepted(env, s, blocks);
            && k < |blocks|
            && ConnectAll(env, s, blocks[..k]) == (ConnectAll(env, s, blocks).0, Done)
            && Connect(env, ConnectAll(env, s, blocks[..k]).0, blocks[k]).1 == Failed
    decreases blocks
  {
    var (s1, o) := Connect(env, s, blocks[0]);
    if o == Done {
      var rest := blocks[1..];
      AcceptedConnect(env, s1, rest);
      var k := Accepted(env, s1, rest);
      assert blocks[..k + 1][1..] == rest[..k];
      assert blocks[..k + 1][0] == blocks[0];
    } else {
      ConnectFailsWhole(env, s, blocks[0]);
    }
  }

  lemma ConnectFailsWhole(env: Env, s: Core, b: Block)
    ensures Connect(env, s, b).1 == Failed ==> Connect(env, s, b).0 == s
  {
  }

  /** Blocks with undo data can all be undone exactly when no two of them are the same. */
  lemma {:induction false} DroppableIff(s: Core, list: seq<Block>)
    requires Recorded(s, list, 0)
    ensures DisconnectAll(s, list).1 == if DistinctIds(list) then Done else Failed
    decreases list
  {
    if list == [] {
    } else {
      var n := |list| - 1;
      var front, b := list[..n], list[n];
      var s1 := Disconnect(s, b).0;
      assert list == front + [b];
      if i :| 0 <= i < n && front[i].id == b.id {
        assert list[i].id == list[n].id;
        MissingUndo(s1, front, i);
      } else {
        assert Recorded(s1, front, 0) by {
          assert forall i :: 0 <= i < n ==> front[i] == list[i] && list[i].id in s.undo;
        }
        DroppableIff(s1, front);
        assert DistinctIds(list) <==> DistinctIds(front) by {
          assert forall i :: 0 <= i < n ==> list[i] == front[i];
        }
      }
    }
  }

  lemma {:induction false} MissingUndo(s: Core, list: seq<Block>, i: nat)
    requires i < |list| && list[i].id !in s.undo
    ensures DisconnectAll(s, list).1 == Failed
    decreases list
  {
    var n := |list| - 1;
    if i < n && list[n].id in s.undo {
      MissingUndo(Disconnect(s, list[n]).0, list[..n], i);
    }
  }

  lemma {:induction false} AppliedRecorded(undo: set<Hash>, blocks: seq<Block>)
    ensures forall i :: 0 <= i < AppliedPrefix(undo, blocks) ==> blocks[i].id in undo
  {
    if blocks == [] || blocks[0].id !in undo {
    } else {
      AppliedRecorded(undo, blocks[1..]);
      assert forall i :: 0 <= i < |blocks[1..]| ==> blocks[1..][i] == blocks[i + 1];
    }
  }

  /** The fields a failed reorganization puts back, and no others. */
  ghost predicate PutBack(s: Core, left: Core, s1: Core) {
    && s1.utxo == s.utxo && s1.supply == s.supply && s1.height == s.height && s1.fees == s.fees && s1.tip == s.tip
    && s1.tree == left.tree && s1.keys == left.keys && s1.markers == left.markers && s1.pending == left.pending
    && s1.undo == left.undo && s1.snapshots == left.snapshots && s1.storages == left.storages
  }

  /**
   After a failed reorganization, whatever the plan and the state: UTXO set, supply, height, fees and tip are as before;
   tree, keys, markers, pending updates, undo data, snapshots and stored trees stay as the dropped blocks and the new
   blocks accepted before the refused one left them. A plan that drops one block twice fails while dropping.
   */
  lemma FailureLeaves(env: Env, s: Core, plan: seq<Block>)
    requires Reorganize(env, s, plan).1 == Failed
    ensures var n := AppliedPrefix(s.undo.Keys, plan);
            var s1, sd := Reorganize(env, s, plan).0, DisconnectAll(s, plan[..n]).0;
            if DistinctIds(plan[..n])
            then
              var k := Accepted(env, sd, plan[n..]);
              var (sk, outcome) := ConnectAll(env, sd, plan[n..][..k]);
              && outcome == Done && PutBack(s, sk, s1)
              && n + k < |plan| && Connect(env, sk, plan[n + k]).1 == Failed
              && |s1.snapshots| == SatSub(|s.snapshots|, n) + k
            else PutBack(s, sd, s1)
  {
    var n := AppliedPrefix(s.undo.Keys, plan);
    AppliedRecorded(s.undo.Keys, plan);
    DroppableIff(s, plan[..n]);
    if DistinctIds(plan[..n]) {
      var sd := DisconnectAll(s, plan[..n]).0;
      AcceptedConnect(env, sd, plan[n..]);
      AcceptedSnapshots(env, sd, plan[n..]);
      DisconnectAllStacks(s, plan[..n]);
    }
  }

  /**
   What a failed reorganization leaves behind: UTXO set, supply and height are back, the dropped snapshots are not.
   The next acceptable block connects if at least as many new blocks had been accepted as were dropped, and panics if
   fewer were.
   */
  lemma FailedReorgThenPanicIff(env: Env, s: Core, chain: seq<Block>, list: seq<Block>, add: seq<Block>, next: Block)
    requires Tracks(s, chain) && SnapshotsFollow(s, chain)
    requires DistinctIds(list) && Recorded(s, list, 0) && |list| <= |chain| && (add != [] ==> add[0].id !in s.undo)
    requires Reorganize(env, s, list + add).1 == Failed
    requires IsPlain(next) && Grow(View(s), next).Some?
    ensures var s1 := Reorganize(env, s, list + add).0;
            && View(s1) == View(s)
            && Connect(env, s1, next).1 ==
               if Accepted(env, DisconnectAll(s, list).0, add) < |list| then Panicked else Done
  {
    PlanSplits(s, list, add);
    FoldBacked(chain);
    var sd, s1 := DisconnectAll(s, list).0, Reorganize(env, s, list + add).0;
    DisconnectAllStacks(s, list);
    AcceptedSnapshots(env, sd, add);
    assert |s1.snapshots| == |chain| - |list| + 1 + Accepted(env, sd, add) && s1.height == |chain|;
    if |s1.snapshots| <= s1.height {
      PlainPanics(env, s1, next);
    } else {
      PlainConnectIff(env, s1, next);
    }
  }

  lemma PlainPanics(env: Env, s: Core, b: Block)
    requires IsPlain(b) && Grow(View(s), b).Some? && |s.snapshots| <= s.height
    ensures Connect(env, s, b).1 == Panicked
  {
    PlainWork(env, s, b);
  }
}
