/** Rollback to an earlier height by snapshot, against undo block by block. */
module ChainRollback {
  import opened Ledger
  import opened ChainState

  /** One snapshot and one stored tree per height, each snapshot committing to its tree. */
  ghost predicate StacksRight(env: Env, s: Core) {
    && |s.snapshots| == |s.storages| == s.height + 1
    && forall i :: 0 <= i < |s.snapshots| ==> SnapshotRight(env, s, i)
  }

  ghost predicate SnapshotRight(env: Env, s: Core, i: nat)
    requires i < |s.snapshots| == |s.storages|
  {
    s.snapshots[i].height == i && s.snapshots[i].root == env.rootOf(s.storages[i])
  }

  /** The working tree, supply and fees are those of the newest snapshot. */
  ghost predicate AtTop(s: Core)
    requires |s.snapshots| == |s.storages| == s.height + 1
  {
    s.tree == s.storages[s.height] && s.supply == s.snapshots[s.height].supply && s.fees == s.snapshots[s.height].fees
  }

  /** Connecting, undoing and rolling back keep the stacks in step with the height. */
  lemma StacksKept(env: Env, s: Core, b: Block, target: nat)
    requires StacksRight(env, s)
    ensures Connect(env, s, b).1 == Done ==> StacksRight(env, Connect(env, s, b).0) && AtTop(Connect(env, s, b).0)
    ensures s.height > 0 ==> StacksRight(env, Disconnect(s, b).0)
    ensures StacksRight(env, Rollback(env, s, target).0)
  {
    ConnectKeepsStacks(env, s, b);
    UndoKeepsStacks(env, s, b, target);
  }

  lemma UndoKeepsStacks(env: Env, s: Core, b: Block, target: nat)
    requires StacksRight(env, s)
    ensures s.height > 0 ==> StacksRight(env, Disconnect(s, b).0)
    ensures StacksRight(env, Rollback(env, s, target).0)
  {
    if s.height > 0 {
      PrefixKeepsStacks(env, s, Disconnect(s, b).0);
    }
    RollbackIff(env, s, target);
    PrefixKeepsStacks(env, s, Rollback(env, s, target).0);
  }

  lemma ConnectKeepsStacks(env: Env, s: Core, b: Block)
    requires StacksRight(env, s)
    ensures Connect(env, s, b).1 == Done ==> StacksRight(env, Connect(env, s, b).0) && AtTop(Connect(env, s, b).0)
  {
    if Connect(env, s, b).1 == Done {
      var s1 := Connect(env, s, b).0;
      forall i | 0 <= i < |s1.snapshots|
        ensures SnapshotRight(env, s1, i)
      {
        assert i < |s.snapshots| ==> SnapshotRight(env, s, i);
      }
    }
  }

  lemma PrefixKeepsStacks(env: Env, s: Core, s1: Core)
    requires StacksRight(env, s)
    requires s1.height + 1 == |s1.snapshots| == |s1.storages|
    requires s1.snapshots <= s.snapshots && s1.storages <= s.storages
    ensures StacksRight(env, s1)
  {
    forall i | 0 <= i < |s1.snapshots|
      ensures SnapshotRight(env, s1, i)
    {
      assert SnapshotRight(env, s, i);
    }
  }

  /**
   With the stacks in step a rollback succeeds exactly for heights up to the current one, and then tree, supply, fees,
   height and stacks are those of that height, while the UTXO set, keys, undo data and tip stay; a refused rollback
   changes nothing.
   */
  lemma RollbackIff(env: Env, s: Core, target: nat)
    requires StacksRight(env, s)
    ensures Rollback(env, s, target).1 == (if target <= s.height then Done else Failed)
    ensures Rollback(env, s, target).0 ==
              if target > s.height then s
              else s.(tree := s.storages[target], supply := s.snapshots[target].supply, fees := s.snapshots[target].fees,
                      height := target, snapshots := s.snapshots[..target + 1], storages := s.storages[..target + 1])
  {
    if target <= s.height {
      assert SnapshotRight(env, s, target);
    }
  }

  /**
   The bare rollback in any state: refused without a change above the height and for heights no snapshot names; otherwise
   it succeeds exactly when both stacks reach up to the target and the stored tree there has the snapshot's root. Both
   stacks are cut to the target whatever comes of it.
   */
  lemma BareRollback(env: Env, s: Core, target: nat)
    ensures var (s1, outcome) := RollbackState(env, s, target);
            if target > s.height || (forall i :: 0 <= i < |s.snapshots| ==> s.snapshots[i].height != target)
            then (s1, outcome) == (s, Failed)
            else
              && (outcome == Done <==>
                    && target < |s.storages| && target < |s.snapshots|
                    && env.rootOf(s.storages[target]) == s.snapshots[target].root)
              && (outcome == Panicked <==> target < |s.storages| && target >= |s.snapshots|)
  {
  }

  lemma BareRollbackLeaves(env: Env, s: Core, target: nat)
    requires target <= s.height && exists i :: 0 <= i < |s.snapshots| && s.snapshots[i].height == target
    ensures var s1 := RollbackState(env, s, target).0;
            && s1.height == target && s1.utxo == s.utxo && s1.undo == s.undo && s1.tip == s.tip
            && s1.snapshots == (if target < |s.snapshots| then s.snapshots[..target + 1] else s.snapshots)
            && s1.storages == (if target < |s.storages| then s.storages[..target + 1] else s.storages)
            && s1.tree == (if target < |s.storages| then s.storages[target] else s.tree)
    ensures var s1 := RollbackState(env, s, target).0;
            if target < |s.storages| && target < |s.snapshots|
            then s1.supply == s.snapshots[target].supply && s1.fees == s.snapshots[target].fees
            else s1.supply == s.supply && s1.fees == s.fees
  {
  }

  /** In any state at all a failing rollback is atomic. */
  lemma FailedRollbackChangesNothing(env: Env, s: Core, target: nat)
    ensures Rollback(env, s, target).1 == Failed ==> Rollback(env, s, target).0 == s
  {
  }

  /**
   Rolling one connected block back brings the exact tree, supply, fees, height and stacks back, which undoing the
   block does not do for the tree; but the UTXO set, the outpoint keys, the undo data and the tip stay the block's.
   */
  lemma RollbackAfterConnect(env: Env, s: Core, b: Block)
    requires StacksRight(env, s) && AtTop(s) && Connect(env, s, b).1 == Done
    ensures var s1 := Connect(env, s, b).0;
            Rollback(env, s1, s.height) ==
              (s1.(tree := s.tree, supply := s.supply, fees := s.fees, height := s.height,
                   snapshots := s.snapshots, storages := s.storages), Done)
  {
    var s1 := Connect(env, s, b).0;
    StacksKept(env, s, b, s.height);
    RollbackIff(env, s1, s.height);
    assert s1.snapshots[..s.height + 1] == s.snapshots && s1.storages[..s.height + 1] == s.storages;
  }

  /** Rollback keeps supply equal to the UTXO total exactly when the blocks rolled back had not changed the supply. */
  lemma RollbackConservesIff(env: Env, s: Core, target: nat)
    requires StacksRight(env, s) && target <= s.height && s.supply == Total(s.utxo)
    ensures var s1 := Rollback(env, s, target).0; s1.supply == Total(s1.utxo) <==> s.snapshots[target].supply == s.supply
  {
    RollbackIff(env, s, target);
  }
}
