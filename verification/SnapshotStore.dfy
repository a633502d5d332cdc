/**
The snapshot store: its operations on the storage root it shares with other stores. The root keeps,
as a ghost, every state its disk goes through, so that the contracts can speak of a crash between
any two writes.
*/
module SnapshotStore {
  import opened WorkspaceTree
  import opened SnapshotCapture
  import opened SnapshotRestore
  import opened SnapshotDiff
  import opened SnapshotRetention
  import opened Options

  datatype Outcome = Done | UnknownSnapshot | StillProtected | NotProtected | InvalidBlobs | UnreadablePath

  function Manifests(disk: Disk): map<nat, Manifest> {
    map id | id in Loaded(disk) :: disk[id].manifest.manifest
  }

  class SnapshotRoot {
    var disk: Disk
    var allocator: Option<nat>
    var leases: map<nat, nat>
    ghost var issued: seq<nat>
    ghost var history: seq<Disk>

    ghost function View(): Root
      reads this
    {
      Root(disk, allocator, leases, issued)
    }

    ghost predicate Valid()
      reads this
    {
      Inv(View())
    }

    constructor ()
      ensures Valid() && disk == map[] && leases == map[]
    {
      disk, allocator, leases := map[], None, map[];
      issued, history := [], [];
    }

    /** One write: the disk changes, and the history remembers. */
    method Put(id: nat, d: SnapshotDirectory)
      modifies this`disk, this`history
      ensures disk == old(disk)[id := d]
      ensures history == old(history) + [disk]
    {
      disk := disk[id := d];
      history := history + [disk];
    }

    method RemoveDirectory(id: nat)
      modifies this`disk, this`history
      ensures disk == old(disk) - {id}
      ensures history == old(history) + [disk]
    {
      disk := disk - {id};
      history := history + [disk];
    }

    /** Since `earlier`, the disk has never shown more of snapshot `id` than a capture under way. */
    ghost predicate OnlyHalfCaptured(earlier: seq<Disk>, before: Disk, id: nat)
      reads this
    {
      && earlier <= history
      && forall k :: |earlier| <= k < |history| ==> HalfCaptured(before, history[k], id)
    }

    method PutHalf(id: nat, d: SnapshotDirectory, ghost earlier: seq<Disk>, ghost before: Disk)
      requires !d.manifest.Complete? && OnlyHalfCaptured(earlier, before, id)
      requires disk == before || (id in disk && disk == before[id := disk[id]])
      modifies this`disk, this`history
      ensures disk == before[id := d] && OnlyHalfCaptured(earlier, before, id)
    {
      Put(id, d);
      assert disk == before[id := d];
      assert HalfCaptured(before, disk, id);
    }

    /** Blobs in some order, each first in part. */
    method StoreBlobs(id: nat, contents: map<Path, Bytes>, ghost earlier: seq<Disk>, ghost before: Disk)
      requires disk == before[id := SnapshotDirectory(Missing, map[])] && OnlyHalfCaptured(earlier, before, id)
      modifies this`disk, this`history
      ensures disk == before[id := SnapshotDirectory(Missing, contents)] && OnlyHalfCaptured(earlier, before, id)
    {
      var blobs: map<Path, Bytes> := map[];
      var remaining := contents.Keys;
      while remaining != {}
        invariant remaining <= contents.Keys
        invariant blobs == map p | p in contents && p !in remaining :: contents[p]
        invariant disk == before[id := SnapshotDirectory(Missing, blobs)]
        invariant OnlyHalfCaptured(earlier, before, id)
        decreases remaining
      {
        var p :| p in remaining;
        var cut: nat :| cut <= |contents[p]|;
        PutHalf(id, SnapshotDirectory(Missing, blobs[p := contents[p][..cut]]), earlier, before);
        blobs := blobs[p := contents[p]];
        PutHalf(id, SnapshotDirectory(Missing, blobs), earlier, before);
        remaining := remaining - {p};
      }
      assert blobs == contents;
    }

    /** The directory, then the blobs, then the manifest, first in part. */
    method StoreSnapshot(id: nat, s: Snapshot)
      requires id !in disk
      modifies this`disk, this`history
      ensures disk == old(disk)[id := Stored(s)]
      ensures old(history) <= history
      ensures forall k :: |old(history)| <= k < |history| ==>
                HalfCaptured(old(disk), history[k], id) || history[k] == disk
    {
      ghost var earlier, before := history, disk;
      PutHalf(id, SnapshotDirectory(Missing, map[]), earlier, before);
      StoreBlobs(id, s.blobs, earlier, before);
      PutHalf(id, SnapshotDirectory(Torn, s.blobs), earlier, before);
      Put(id, SnapshotDirectory(Complete(s.manifest), s.blobs));
      assert disk == before[id := Stored(s)];
    }

    /** A capture that fails after `written`, and perhaps a part of the manifest, went to disk: all of it is removed. */
    method StoreAndRemove(id: nat, written: map<Path, Bytes>, torn: bool)
      requires id !in disk
      modifies this`disk, this`history
      ensures disk == old(disk) && OnlyHalfCaptured(old(history), old(disk), id)
    {
      ghost var earlier, before := history, disk;
      PutHalf(id, SnapshotDirectory(Missing, map[]), earlier, before);
      StoreBlobs(id, written, earlier, before);
      if torn {
        PutHalf(id, SnapshotDirectory(Torn, written), earlier, before);
      }
      ghost var half, now := disk, history;
      RemoveSnapshot(id);
      assert disk == before;
      forall k | |earlier| <= k < |history| ensures HalfCaptured(before, history[k], id) {
        if k < |now| {
          assert history[k] == now[k];
        } else {
          HalfRemovedIsHalfCaptured(before, half, history[k], id);
        }
      }
    }

    /** Removing a snapshot: its blobs and its manifest in some order, the directory last. */
    method RemoveSnapshot(id: nat)
      requires id in disk
      modifies this`disk, this`history
      ensures disk == old(disk) - {id}
      ensures old(history) <= history
      ensures forall k :: |old(history)| <= k < |history| ==> HalfRemoved(old(disk), history[k], id)
    {
      ghost var before := disk;
      var current := disk[id];
      while current.manifest != Missing || current.blobs != map[]
        invariant disk == before[id := current] && LostPart(before[id], current)
        invariant old(history) <= history
        invariant forall k :: |old(history)| <= k < |history| ==> HalfRemoved(before, history[k], id)
        decreases if current.manifest == Missing then 0 else 1, current.blobs.Keys
      {
        var manifestNext: bool :| manifestNext ==> current.manifest != Missing;
        if manifestNext || current.blobs == map[] {
          current := current.(manifest := Missing);
        } else {
          var p :| p in current.blobs;
          current := current.(blobs := current.blobs - {p});
        }
        Put(id, current);
      }
      RemoveDirectory(id);
    }

    /** Since `earlier`, the disk has shown nothing worse than a pruning under way. */
    ghost predicate OnlyHalfPruned(earlier: seq<Disk>, before: Disk, held: set<nat>, cap: nat)
      reads this
    {
      && earlier <= history
      && forall k :: |earlier| <= k < |history| ==> HalfPruned(before, history[k], held, cap)
    }

    /** One removal inside a pruning that started from `before` and has taken `removed` out. */
    method RemovePruned(id: nat, ghost earlier: seq<Disk>, ghost before: Disk, ghost removed: set<nat>,
                        ghost held: set<nat>, ghost cap: nat)
      requires OnlyHalfPruned(earlier, before, held, cap) && disk == before - removed
      requires OldestExcess(Loaded(before), held, cap, removed + {id})
      requires id !in removed && forall gone :: gone in removed ==> gone < id
      modifies this`disk, this`history
      ensures disk == before - (removed + {id}) && OnlyHalfPruned(earlier, before, held, cap)
    {
      ghost var now := history;
      RemoveSnapshot(id);
      assert (before - removed) - {id} == before - (removed + {id});
      forall k | |earlier| <= k < |history| ensures HalfPruned(before, history[k], held, cap) {
        if k < |now| {
          assert history[k] == now[k];
        } else {
          HalfRemovedIsHalfPruned(before, removed, history[k], id, held, cap);
        }
      }
    }

    /** The pruning loop has gone through the first `i` ids, and has `left` snapshots still to drop. */
    ghost predicate PrunedSoFar(earlier: seq<Disk>, before: Disk, ordered: seq<nat>, i: int, held: set<nat>,
                                left: int, cap: nat)
      reads this
    {
      && 0 <= i <= |ordered| && left >= 0
      && DroppedBefore(ordered, i, held) <= Loaded(before)
      && |DroppedBefore(ordered, i, held)| + left + cap == |Loaded(before)|
      && disk == before - DroppedBefore(ordered, i, held)
      && OnlyHalfPruned(earlier, before, held, cap)
    }

    method RemoveUnlessHeld(ordered: seq<nat>, i: nat, protectedIds: set<nat>, left: nat, ghost cap: nat,
                            ghost earlier: seq<Disk>, ghost before: Disk, ghost held: set<nat>)
      returns (left': nat)
      requires PrunedSoFar(earlier, before, ordered, i, held, left, cap) && i < |ordered| && left > 0
      requires Increasing(ordered) && forall id :: id in Loaded(before) <==> id in ordered
      requires forall id :: id in Loaded(before) ==> (id in protectedIds <==> id in held)
      modifies this`disk, this`history
      ensures PrunedSoFar(earlier, before, ordered, i + 1, held, left', cap)
    {
      DroppedStep(ordered, i, held);
      left' := left;
      if ordered[i] !in protectedIds {
        DroppedIsOldestExcess(Loaded(before), ordered, i + 1, held, cap);
        RemovePruned(ordered[i], earlier, before, DroppedBefore(ordered, i, held), held, cap);
        left' := left - 1;
      }
    }

    /** Go through the ids from the oldest, dropping `excess` of those that are not protected. */
    method RemoveOldest(ordered: seq<nat>, protectedIds: set<nat>, excess: nat, ghost held: set<nat>, ghost cap: nat)
      requires |Loaded(disk)| == cap + excess && excess > 0
      requires Increasing(ordered) && forall id :: id in Loaded(disk) <==> id in ordered
      requires forall id :: id in Loaded(disk) ==> (id in protectedIds <==> id in held)
      modifies this`disk, this`history
      ensures Prunes(old(disk), disk, held, cap)
      ensures OnlyHalfPruned(old(history), old(disk), held, cap)
    {
      ghost var before, earlier := disk, history;
      assert before - DroppedBefore(ordered, 0, held) == before;
      var left := excess;
      var i := 0;
      while i < |ordered| && left > 0
        invariant PrunedSoFar(earlier, before, ordered, i, held, left, cap)
      {
        left := RemoveUnlessHeld(ordered, i, protectedIds, left, cap, earlier, before, held);
        i := i + 1;
      }
      OldestGoFirst(before, ordered, i, held, cap);
    }
  }

  /** The ids among the first `i` that nothing holds. */
  function DroppedBefore(ordered: seq<nat>, i: nat, held: set<nat>): set<nat>
    requires i <= |ordered|
  {
    set j | 0 <= j < i && ordered[j] !in held :: ordered[j]
  }

  lemma DroppedStep(ordered: seq<nat>, i: nat, held: set<nat>)
    requires Increasing(ordered) && i < |ordered|
    ensures ordered[i] !in DroppedBefore(ordered, i, held)
    ensures DroppedBefore(ordered, i + 1, held) ==
            DroppedBefore(ordered, i, held) + if ordered[i] in held then {} else {ordered[i]}
  {
  }

  /** The ids in increasing order. */
  method Sorted(ids: set<nat>) returns (ordered: seq<nat>)
    ensures Increasing(ordered)
    ensures forall id :: id in ids <==> id in ordered
    ensures |ordered| == |ids|
  {
    ordered := [];
    var rest := ids;
    while rest != {}
      invariant rest <= ids && |ordered| + |rest| == |ids|
      invariant forall id :: id in ids <==> id in rest || id in ordered
      invariant Increasing(ordered)
      invariant forall i, id :: 0 <= i < |ordered| && id in rest ==> ordered[i] < id
      decreases rest
    {
      var least := Least(rest);
      ordered := ordered + [least];
      rest := rest - {least};
    }
  }

  method Least(ids: set<nat>) returns (least: nat)
    requires ids != {}
    ensures least in ids && forall id :: id in ids ==> least <= id
  {
    least :| least in ids;
    var rest := ids - {least};
    while rest != {}
      invariant rest <= ids && least in ids
      invariant forall id :: id in ids && id !in rest ==> least <= id
      decreases rest
    {
      var id :| id in rest;
      if id < least {
        least := id;
      }
      rest := rest - {id};
    }
  }

  /** A store object: one policy, one cap, its own view of the loaded snapshots and its own next index. */
  class Store {
    const root: SnapshotRoot
    const workspace: Workspace
    const policy: Policy
    const cap: nat
    var snapshots: map<nat, Manifest>
    var next: nat

    ghost predicate Valid()
      reads this, root, workspace
    {
      root.Valid() && workspace.Valid() && cap >= 1
    }

    /** The store's view agrees with the disk. */
    ghost predicate Fresh()
      reads this, root
    {
      && snapshots == Manifests(root.disk)
      && NextIndex(root.allocator) <= next
    }

    constructor (root: SnapshotRoot, workspace: Workspace, policy: Policy, maxRetained: int)
      requires root.Valid() && workspace.Valid()
      ensures Valid() && this.root == root && this.workspace == workspace && this.policy == policy
      ensures cap == if maxRetained < 1 then 1 else maxRetained
    {
      this.root, this.workspace, this.policy := root, workspace, policy;
      cap := if maxRetained < 1 then 1 else maxRetained;
      snapshots, next := map[], 1;
    }

    method Reload()
      requires Valid()
      modifies this
      ensures Valid() && Fresh()
      ensures old(next) <= next && forall id :: id in Loaded(root.disk) ==> id < next
    {
      snapshots := Manifests(root.disk);
      var highest := 0;
      var rest := snapshots.Keys;
      while rest != {}
        invariant rest <= snapshots.Keys && forall id :: id in snapshots && id !in rest ==> id <= highest
        decreases rest
      {
        var id :| id in rest;
        highest := Max(highest, id);
        rest := rest - {id};
      }
      next := Max(next, Max(highest + 1, NextIndex(root.allocator)));
      assert snapshots.Keys == Loaded(root.disk);
    }

    /** The first id from the next index on that is not in use, written through to the allocator file. */
    method AllocateId() returns (id: nat)
      requires Valid() && Fresh()
      modifies this`next, root`allocator, root`issued
      ensures Valid() && Fresh()
      ensures MayIssue(old(root.View()), id) && root.View() == Issue(old(root.View()), id)
    {
      while true
        invariant Valid() && snapshots == old(snapshots) && root.View() == old(root.View())
        invariant NextIndex(root.allocator) <= next
        decreases set taken | taken in root.disk && next <= taken
      {
        id := next;
        ghost var later := set taken | taken in root.disk && id + 1 <= taken;
        assert id !in later;
        next := next + 1;
        if id in snapshots || id in root.disk {
          assert id in root.disk;
          assert later < set taken | taken in root.disk && id <= taken;
          continue;
        }
        IssuedStaysBelow(root.View(), id);
        root.allocator := Some(next);
        root.issued := root.issued + [id];
        return;
      }
    }

    /** Reapply the cap: of the snapshots nothing holds, the oldest go first. `requested` is what the retention hook
        asks to keep, which may name anything. */
    method PruneOldSnapshots(protect: set<nat>, requested: set<nat>)
      requires Valid() && Fresh()
      modifies this`snapshots, root`disk, root`history
      ensures Valid()
      ensures root.View() == old(root.View()).(disk := root.disk)
      ensures Prunes(old(root.disk), root.disk, protect + root.leases.Keys + requested, cap)
      ensures old(root.history) <= root.history
      ensures forall k :: |old(root.history)| <= k < |root.history| ==>
                HalfPruned(old(root.disk), root.history[k], protect + root.leases.Keys + requested, cap)
    {
      ghost var before, held := root.View(), protect + root.leases.Keys + requested;
      assert snapshots.Keys == Loaded(root.disk);
      if |snapshots| <= cap {
        assert root.disk - (Loaded(root.disk) - Loaded(root.disk)) == root.disk;
      } else {
        var ids := snapshots.Keys;
        var protectedIds := protect + root.leases.Keys + requested * ids;
        var ordered := Sorted(ids);
        root.RemoveOldest(ordered, protectedIds, |ids| - cap, held, cap);
      }
      assert root.View() == before.(disk := root.disk);
      PruningKeepsInv(before, root.disk, held, cap);
      snapshots := Manifests(root.disk);
    }

    /** Capture the workspace. `requested` is the answer of the retention hook. */
    method CreateSnapshot(protect: bool, requested: set<nat>) returns (id: nat, s: Snapshot)
      requires Valid()
      modifies this, root
      ensures Valid()
      ensures s == SnapshotOf(CaptureOf(workspace.tree, policy, workspace.tree.Keys))
      ensures Creates(old(root.View()), root.View(), id, s, protect, cap, requested)
      ensures ShowsOnly(CrashInCreate(id, s, cap, requested), old(root.View()), root.View(), old(root.history),
                        root.history)
    {
      ghost var before, earlier := root.View(), root.history;
      Reload();
      id := AllocateId();
      s := TakeCapture();
      KeepSnapshot(id, s, protect, requested);
      StoringAndPruningCreates(before, root.View(), id, s, protect, cap, requested);
      CreateShowsOnlyCrashes(before, root.View(), id, s, cap, requested, earlier, root.history);
    }

    method KeepSnapshot(id: nat, s: Snapshot, protect: bool, requested: set<nat>)
      requires Valid() && Fresh() && id !in root.disk && Intact(s)
      modifies this`snapshots, root`disk, root`history, root`leases
      ensures Valid()
      ensures root.View() == old(root.View()).(disk := root.disk, leases := root.leases)
      ensures root.leases == if protect then WithLeases(old(root.leases), id, Leases(old(root.leases), id) + 1)
                             else old(root.leases)
      ensures Prunes(old(root.disk)[id := Stored(s)], root.disk, {id} + root.leases.Keys + requested, cap)
      ensures OnlyHalfCreated(old(root.history), old(root.disk), id, s, {id} + old(root.leases).Keys + requested)
    {
      ghost var before, earlier := root.disk, root.history;
      Persist(id, s, protect);
      ghost var persisted := root.history;
      ghost var held := {id} + root.leases.Keys + requested;
      assert held == {id} + old(root.leases).Keys + requested;
      PruneOldSnapshots({id}, requested);
      forall k | |earlier| <= k < |root.history|
        ensures HalfCaptured(before, root.history[k], id) ||
                HalfPruned(before[id := Stored(s)], root.history[k], held, cap)
      {
        if k < |persisted| {
          assert root.history[k] == persisted[k];
          if !HalfCaptured(before, persisted[k], id) {
            NothingTakenIsHalfPruned(persisted[k], held, cap);
          }
        }
      }
    }

    /** Since `earlier`, the disk has shown only what a crash in the making of snapshot `id` may leave. */
    ghost predicate OnlyHalfCreated(earlier: seq<Disk>, before: Disk, id: nat, s: Snapshot, held: set<nat>)
      reads this, root
    {
      && earlier <= root.history
      && forall k :: |earlier| <= k < |root.history| ==>
           HalfCaptured(before, root.history[k], id) || HalfPruned(before[id := Stored(s)], root.history[k], held, cap)
    }

    method TakeCapture() returns (s: Snapshot)
      requires workspace.Valid()
      ensures s == SnapshotOf(CaptureOf(workspace.tree, policy, workspace.tree.Keys)) && Intact(s)
    {
      var capture := CaptureWorkspace(workspace.tree, policy);
      s := SnapshotOf(capture);
      CaptureIsCoherent(workspace.tree, policy);
    }

    /** Everything up to the manifest goes to disk; then the lease is counted, if one is asked for. */
    method Persist(id: nat, s: Snapshot, protect: bool)
      requires Valid() && Fresh() && id !in root.disk && Intact(s)
      modifies this`snapshots, root`disk, root`history, root`leases
      ensures Valid() && Fresh()
      ensures root.View() == old(root.View()).(
                disk := old(root.disk)[id := Stored(s)],
                leases := if protect then WithLeases(old(root.leases), id, Leases(old(root.leases), id) + 1)
                          else old(root.leases))
      ensures old(root.history) <= root.history
      ensures forall k :: |old(root.history)| <= k < |root.history| ==>
                HalfCaptured(old(root.disk), root.history[k], id) || root.history[k] == root.disk
    {
      StoringKeepsInv(root.View(), id, s);
      root.StoreSnapshot(id, s);
      if protect {
        CountLeases(id, Leases(root.leases, id) + 1);
      }
      snapshots := Manifests(root.disk);
    }

    /** A capture that fails, after `written` and perhaps part of the manifest have gone to disk, takes all of it away
        again; the id stays used. */
    method CreateSnapshotFailing(written: map<Path, Bytes>, torn: bool) returns (id: nat)
      requires Valid()
      modifies this, root
      ensures Valid() && MayIssue(old(root.View()), id) && root.View() == Issue(old(root.View()), id)
      ensures forall s, requested ::
                ShowsOnly(CrashInCreate(id, s, cap, requested), old(root.View()), root.View(), old(root.history),
                          root.history)
    {
      ghost var before, earlier := root.View(), root.history;
      Reload();
      id := AllocateId();
      root.StoreAndRemove(id, written, torn);
      forall s, requested
        ensures ShowsOnly(CrashInCreate(id, s, cap, requested), before, root.View(), earlier, root.history)
      {
        CreateShowsOnlyCrashes(before, root.View(), id, s, cap, requested, earlier, root.history);
      }
    }

    method ProtectSnapshot(id: nat) returns (outcome: Outcome)
      requires Valid()
      modifies this, root`leases
      ensures Valid()
      ensures outcome == if id in Loaded(old(root.disk)) then Done else UnknownSnapshot
      ensures outcome != Done ==> root.View() == old(root.View())
      ensures outcome == Done ==> Step(Protect(id), old(root.View()), root.View())
    {
      Reload();
      if id !in snapshots {
        return UnknownSnapshot;
      }
      CountLeases(id, Leases(root.leases, id) + 1);
      outcome := Done;
    }

    method ReleaseSnapshotProtection(id: nat, requested: set<nat>) returns (outcome: Outcome)
      requires Valid()
      modifies this, root
      ensures Valid()
      ensures outcome == if Leases(old(root.leases), id) > 0 then Done else NotProtected
      ensures outcome != Done ==> root.View() == old(root.View())
      ensures outcome == Done ==> Releases(old(root.View()), root.View(), id, cap, requested)
      ensures outcome == Done ==>
                ShowsOnly(CrashInRelease(id, cap, requested), old(root.View()), root.View(), old(root.history),
                          root.history)
    {
      var remaining := Leases(root.leases, id) as int - 1;
      if remaining < 0 {
        return NotProtected;
      }
      ghost var before, earlier := root.View(), root.history;
      CountLeases(id, remaining);
      Reload();
      PruneOldSnapshots({}, requested);
      DroppingAndPruningReleases(before, root.View(), id, cap, requested);
      ReleaseShowsOnlyCrashes(before, root.View(), id, cap, requested, earlier, root.history);
      outcome := Done;
    }

    method CountLeases(id: nat, count: nat)
      requires Valid() && (count > 0 ==> id in Loaded(root.disk))
      modifies root`leases
      ensures Valid() && root.leases == WithLeases(old(root.leases), id, count)
    {
      CountingLeaseKeepsInv(root.View(), id, count);
      root.leases := WithLeases(root.leases, id, count);
    }

    method DeleteSnapshot(id: nat) returns (outcome: Outcome)
      requires Valid()
      modifies this, root
      ensures Valid()
      ensures outcome == if id !in Loaded(old(root.disk)) then UnknownSnapshot
                         else if Leases(old(root.leases), id) > 0 then StillProtected
                         else Done
      ensures outcome != Done ==> root.View() == old(root.View())
      ensures outcome == Done ==> Step(Delete(id), old(root.View()), root.View())
      ensures outcome == Done ==>
                ShowsOnly(CrashInDelete(id), old(root.View()), root.View(), old(root.history), root.history)
    {
      Reload();
      if id !in snapshots {
        return UnknownSnapshot;
      }
      if Leases(root.leases, id) > 0 {
        return StillProtected;
      }
      ghost var before, earlier := root.View(), root.history;
      root.RemoveSnapshot(id);
      RemovingDeletes(before, root.View(), id, earlier, root.history);
      snapshots := snapshots - {id};
      outcome := Done;
    }

    method RestoreSnapshot(id: nat, deleteAdded: bool) returns (outcome: Outcome)
      requires Valid()
      modifies this, workspace
      ensures Valid() && root.View() == old(root.View())
      ensures outcome == if id !in Loaded(root.disk) then UnknownSnapshot
                         else if BlobsValid(SnapshotIn(root.disk[id])) then Done
                         else InvalidBlobs
      ensures workspace.tree ==
                if outcome == Done
                then Restored(old(workspace.tree), SnapshotIn(root.disk[id]), policy.excludedNames, deleteAdded)
                else old(workspace.tree)
      ensures outcome == Done && !deleteAdded ==>
                LosesOnlyToWritten(old(workspace.tree), workspace.tree, SnapshotIn(root.disk[id]))
    {
      Reload();
      if id !in snapshots {
        return UnknownSnapshot;
      }
      assert Sound(root.disk[id]);
      var ok := Restore(workspace, SnapshotIn(root.disk[id]), policy.excludedNames, deleteAdded);
      outcome := if ok then Done else InvalidBlobs;
    }

    method DiffSnapshot(id: nat, follow: LinkReader) returns (outcome: Outcome, diffs: map<Path, Status>)
      requires Valid()
      modifies this
      ensures Valid() && root.View() == old(root.View()) && workspace.tree == old(workspace.tree)
      ensures outcome == if id !in Loaded(root.disk) then UnknownSnapshot
                         else if !BlobsValid(SnapshotIn(root.disk[id])) then InvalidBlobs
                         else if DiffFails(workspace.tree, root.disk[id].manifest.manifest, policy.excludedNames,
                                           follow) then UnreadablePath
                         else Done
      ensures outcome == Done ==>
                diffs == DiffOf(workspace.tree, root.disk[id].manifest.manifest, policy.excludedNames, follow)
    {
      diffs := map[];
      Reload();
      if id !in snapshots {
        outcome := UnknownSnapshot;
        return;
      }
      var diffed;
      diffed, diffs := Diff(workspace, SnapshotIn(root.disk[id]), policy.excludedNames, follow);
      outcome := match diffed case Ended => Done case InvalidSnapshot => InvalidBlobs case Unreadable => UnreadablePath;
    }
  }

  lemma StoringAndPruningCreates(a: Root, b: Root, id: nat, s: Snapshot, protect: bool, cap: nat, requested: set<nat>)
    requires MayIssue(a, id) && Intact(s)
    requires b == Issue(a, id).(disk := b.disk, leases := b.leases)
    requires b.leases == if protect then WithLeases(a.leases, id, Leases(a.leases, id) + 1) else a.leases
    requires Prunes(a.disk[id := Stored(s)], b.disk, {id} + b.leases.Keys + requested, cap)
    ensures Creates(a, b, id, s, protect, cap, requested)
  {
  }

  lemma DroppingAndPruningReleases(a: Root, b: Root, id: nat, cap: nat, requested: set<nat>)
    requires Leases(a.leases, id) > 0 && b == a.(disk := b.disk, leases := b.leases)
    requires b.leases == WithLeases(a.leases, id, Leases(a.leases, id) - 1)
    requires Prunes(a.disk, b.disk, b.leases.Keys + requested, cap)
    ensures Releases(a, b, id, cap, requested)
  {
  }

  lemma CreateShowsOnlyCrashes(a: Root, b: Root, id: nat, s: Snapshot, cap: nat, requested: set<nat>,
                               earlier: seq<Disk>, history: seq<Disk>)
    requires MayIssue(a, id) && earlier <= history
    requires b.allocator == Issue(a, id).allocator && b.issued == Issue(a, id).issued
    requires forall k :: |earlier| <= k < |history| ==>
               HalfCaptured(a.disk, history[k], id) ||
               (Intact(s) && HalfPruned(a.disk[id := Stored(s)], history[k], {id} + a.leases.Keys + requested, cap))
    ensures ShowsOnly(CrashInCreate(id, s, cap, requested), a, b, earlier, history)
  {
  }

  lemma ReleaseShowsOnlyCrashes(a: Root, b: Root, id: nat, cap: nat, requested: set<nat>,
                                earlier: seq<Disk>, history: seq<Disk>)
    requires Leases(a.leases, id) > 0 && b == a.(disk := b.disk, leases := b.leases) && earlier <= history
    requires forall k :: |earlier| <= k < |history| ==>
               HalfPruned(a.disk, history[k],
                          WithLeases(a.leases, id, Leases(a.leases, id) - 1).Keys + requested, cap)
    ensures ShowsOnly(CrashInRelease(id, cap, requested), a, b, earlier, history)
  {
  }

  lemma RemovingDeletes(a: Root, b: Root, id: nat, earlier: seq<Disk>, history: seq<Disk>)
    requires Inv(a) && id in Loaded(a.disk) && Leases(a.leases, id) == 0 && b == a.(disk := a.disk - {id})
    requires earlier <= history && forall k :: |earlier| <= k < |history| ==> HalfRemoved(a.disk, history[k], id)
    ensures Inv(b) && Step(Delete(id), a, b)
    ensures ShowsOnly(CrashInDelete(id), a, b, earlier, history)
  {
  }

  lemma NothingTakenIsHalfPruned(disk: Disk, held: set<nat>, cap: nat)
    ensures HalfPruned(disk, disk, held, cap)
  {
    assert OldestExcess(Loaded(disk), held, cap, {}) && LostOnly(disk, disk, {});
  }

  lemma HalfRemovedIsHalfCaptured(before: Disk, half: Disk, now: Disk, id: nat)
    requires id !in before && id in half && half == before[id := half[id]] && !half[id].manifest.Complete?
    requires HalfRemoved(half, now, id)
    ensures HalfCaptured(before, now, id)
  {
    assert half - {id} == before;
    if id in now {
      assert now == before[id := now[id]];
    }
  }

  lemma HalfRemovedIsHalfPruned(before: Disk, removed: set<nat>, now: Disk, id: nat, held: set<nat>, cap: nat)
    requires OldestExcess(Loaded(before), held, cap, removed + {id})
    requires id !in removed && forall gone :: gone in removed ==> gone < id
    requires id in before - removed && HalfRemoved(before - removed, now, id)
    ensures HalfPruned(before, now, held, cap)
  {
    assert LostOnly(before, now, removed + {id});
  }

  /** Going through the ids from the oldest takes the oldest. */
  lemma DroppedIsOldestExcess(ids: set<nat>, ordered: seq<nat>, i: nat, held: set<nat>, cap: nat)
    requires Increasing(ordered) && i <= |ordered| && forall id :: id in ids <==> id in ordered
    requires |DroppedBefore(ordered, i, held)| + cap <= |ids|
    ensures OldestExcess(ids, held, cap, DroppedBefore(ordered, i, held))
  {
    var taken := DroppedBefore(ordered, i, held);
    forall gone, stays | gone in taken && stays in ids - taken - held ensures gone < stays {
      var k :| 0 <= k < |ordered| && ordered[k] == stays;
      assert k >= i;
    }
  }

  /** Going through the ids from the oldest, dropping what is not held until the cap is reached, is pruning. */
  lemma OldestGoFirst(before: Disk, ordered: seq<nat>, i: nat, held: set<nat>, cap: nat)
    requires Increasing(ordered) && i <= |ordered| && |Loaded(before)| > cap
    requires forall id :: id in Loaded(before) <==> id in ordered
    requires var removed := DroppedBefore(ordered, i, held);
      removed <= Loaded(before) && |removed| <= |Loaded(before)| - cap &&
      (|removed| == |Loaded(before)| - cap || i == |ordered|)
    ensures Prunes(before, before - DroppedBefore(ordered, i, held), held, cap)
  {
    var ids, removed := Loaded(before), DroppedBefore(ordered, i, held);
    var kept := ids - removed;
    assert ids == kept + removed;
    if i == |ordered| {
      assert kept == ids * held;
    }
    SubsetIsSmaller(ids * held, kept);
    assert Loaded(before - removed) == kept;
    assert ids - kept == removed;
  }

  lemma SubsetIsSmaller(a: set<nat>, b: set<nat>)
    requires a <= b
    ensures |a| <= |b|
  {
    assert b == a + (b - a);
  }
}
