/**
The life of the snapshots under one storage root, shared by any number of stores: ids, leases, the
retention cap, and what the disk holds if the process dies half way. Everything here is about
values; SnapshotStore proves that its methods take exactly these steps.
*/
module SnapshotRetention {
  import opened WorkspaceTree
  import opened SnapshotRestore
  import opened Options

  datatype ManifestFile = Missing | Torn | Complete(manifest: Manifest)

  /** One snapshot directory on disk. */
  datatype SnapshotDirectory = SnapshotDirectory(manifest: ManifestFile, blobs: map<Path, Bytes>)

  type Disk = map<nat, SnapshotDirectory>

  /** The snapshots a store finds on loading: the directories with a readable manifest. */
  function Loaded(disk: Disk): set<nat> {
    set id | id in disk && disk[id].manifest.Complete?
  }

  function Stored(s: Snapshot): SnapshotDirectory {
    SnapshotDirectory(Complete(s.manifest), s.blobs)
  }

  function SnapshotIn(d: SnapshotDirectory): Snapshot
    requires d.manifest.Complete?
  {
    Snapshot(d.manifest.manifest, d.blobs)
  }

  /** A snapshot as its capture left it. */
  ghost predicate Intact(s: Snapshot) {
    Coherent(s.manifest) && BlobsValid(s) && s.blobs.Keys == s.manifest.files.Keys
  }

  // The retention cap

  function Max(a: nat, b: nat): nat {
    if a < b then b else a
  }

  /** `kept` is what pruning `ids` under `cap` leaves when `held` must stay: enough is dropped to reach the cap, as
      far as what is held allows, and what is dropped is older than everything that stays without being held. */
  ghost predicate PrunedTo(ids: set<nat>, held: set<nat>, cap: nat, kept: set<nat>) {
    && ids * held <= kept <= ids
    && |kept| == (if |ids| <= cap then |ids| else Max(cap, |ids * held|))
    && forall gone, stays :: gone in ids - kept && stays in kept - held ==> gone < stays
  }

  lemma SubsetOfSameSize(a: set<nat>, b: set<nat>)
    requires a <= b && |a| >= |b|
    ensures a == b
  {
    assert b == a + (b - a);
  }

  lemma DroppedIsOlder(ids: set<nat>, held: set<nat>, cap: nat, kept: set<nat>, gone: nat, stays: nat)
    requires PrunedTo(ids, held, cap, kept)
    requires gone in ids && gone !in kept && stays in kept && stays !in held
    ensures gone < stays
  {
    assert gone in ids - kept && stays in kept - held;
  }

  /** ... and that says exactly which snapshots stay. */
  lemma PruningIsDetermined(ids: set<nat>, held: set<nat>, cap: nat, a: set<nat>, b: set<nat>)
    requires PrunedTo(ids, held, cap, a) && PrunedTo(ids, held, cap, b)
    ensures a == b
  {
    if a <= b {
      SubsetOfSameSize(a, b);
    } else if b <= a {
      SubsetOfSameSize(b, a);
    } else {
      var x :| x in a && x !in b;
      var y :| y in b && y !in a;
      DroppedIsOlder(ids, held, cap, b, x, y);
      DroppedIsOlder(ids, held, cap, a, y, x);
    }
  }

  ghost predicate IsLeast(least: nat, ids: set<nat>) {
    least in ids && forall id :: id in ids ==> least <= id
  }

  lemma {:induction false} LeastExists(ids: set<nat>)
    requires ids != {}
    ensures exists least :: IsLeast(least, ids)
  {
    var id :| id in ids;
    if ids == {id} {
      assert IsLeast(id, ids);
    } else {
      LeastExists(ids - {id});
      var rest :| IsLeast(rest, ids - {id});
      forall other | other in ids ensures (if id < rest then id else rest) <= other {
        assert other == id || other in ids - {id};
      }
      assert IsLeast(if id < rest then id else rest, ids);
    }
  }

  /** Dropping the oldest snapshot that nothing holds, as long as there are more than the cap and one can go. */
  ghost function Pruned(ids: set<nat>, held: set<nat>, cap: nat): set<nat>
    decreases |ids|
  {
    if |ids| <= cap || ids <= held then ids
    else
      LeastExists(ids - held);
      var oldest :| IsLeast(oldest, ids - held);
      Pruned(ids - {oldest}, held, cap)
  }

  /** ... is what the conditions say. */
  lemma {:induction false} PrunedIsPrunedTo(ids: set<nat>, held: set<nat>, cap: nat)
    ensures PrunedTo(ids, held, cap, Pruned(ids, held, cap))
    decreases |ids|
  {
    if |ids| <= cap {
    } else if ids <= held {
      assert ids * held == ids;
    } else {
      assert ids - held != {} by {
        var free :| free in ids && free !in held;
        assert free in ids - held;
      }
      LeastExists(ids - held);
      var oldest :| IsLeast(oldest, ids - held) && Pruned(ids, held, cap) == Pruned(ids - {oldest}, held, cap);
      PrunedIsPrunedTo(ids - {oldest}, held, cap);
      PrunedAfterOldest(ids, held, cap, oldest, Pruned(ids, held, cap));
    }
  }

  lemma PrunedAfterOldest(ids: set<nat>, held: set<nat>, cap: nat, oldest: nat, kept: set<nat>)
    requires |ids| > cap && IsLeast(oldest, ids - held)
    requires PrunedTo(ids - {oldest}, held, cap, kept)
    ensures PrunedTo(ids, held, cap, kept)
  {
    assert (ids - {oldest}) * held == ids * held;
    if |ids| - 1 <= cap {
      SubsetOfSameSize(kept, ids - {oldest});
      assert ids * held <= ids - {oldest};
      assert |ids - {oldest}| >= |ids * held| by {
        assert ids - {oldest} == ids * held + (ids - {oldest} - held);
      }
    }
    forall gone, stays | gone in ids - kept && stays in kept - held ensures gone < stays {
      assert stays in ids - held;
      if gone != oldest {
        assert gone in ids - {oldest};
        DroppedIsOlder(ids - {oldest}, held, cap, kept, gone, stays);
      }
    }
  }

  /** `taken` is what a pruning may have taken at some point: at most what is too much, nothing that is held, and
      only what is older than all that stays without being held. */
  ghost predicate OldestExcess(ids: set<nat>, held: set<nat>, cap: nat, taken: set<nat>) {
    && taken <= ids - held
    && (taken != {} ==> |taken| + cap <= |ids|)
    && forall gone, stays :: gone in taken && stays in ids - taken - held ==> gone < stays
  }

  /** At no point has a pruning taken anything that it will not have taken in the end. */
  lemma PruningTakesNoMore(ids: set<nat>, held: set<nat>, cap: nat, kept: set<nat>, taken: set<nat>)
    requires PrunedTo(ids, held, cap, kept) && OldestExcess(ids, held, cap, taken)
    ensures kept !! taken
  {
    if x :| x in kept && x in taken {
      var dropped := ids - kept;
      forall gone | gone in dropped ensures gone in taken - {x} {
        DroppedIsOlder(ids, held, cap, kept, gone, x);
        assert gone !in taken ==> gone in ids - taken - held;
      }
      assert taken - {x} == dropped + (taken - {x} - dropped);
      assert ids == kept + dropped;
      SubsetOfSameSize(ids * held, kept);
    }
  }

  // States and steps

  /** A storage root: its disk, the allocator file, the leases held in this process, and the ids given out so far. */
  datatype Root = Root(disk: Disk, allocator: Option<nat>, leases: map<nat, nat>, issued: seq<nat>)

  /** What a read of the allocator file gives. */
  function NextIndex(allocator: Option<nat>): nat {
    if allocator.Some? then Max(1, allocator.value) else 1
  }

  function Leases(leases: map<nat, nat>, id: nat): nat {
    if id in leases then leases[id] else 0
  }

  function WithLeases(leases: map<nat, nat>, id: nat, count: nat): map<nat, nat> {
    if count == 0 then leases - {id} else leases[id := count]
  }

  datatype Op =
    | Create(id: nat, snapshot: Snapshot, protect: bool, cap: nat, requested: set<nat>)
    | FailedCreate(id: nat)
    | Protect(id: nat)
    | Release(id: nat, cap: nat, requested: set<nat>)
    | Delete(id: nat)
    | CrashInCreate(id: nat, snapshot: Snapshot, cap: nat, requested: set<nat>)
    | CrashInRelease(id: nat, cap: nat, requested: set<nat>)
    | CrashInDelete(id: nat)

  predicate IsCrash(op: Op) {
    op.CrashInCreate? || op.CrashInRelease? || op.CrashInDelete?
  }

  /** `after` is `before` less some snapshots, pruned as PrunedTo says. */
  ghost predicate Prunes(before: Disk, after: Disk, held: set<nat>, cap: nat) {
    && PrunedTo(Loaded(before), held, cap, Loaded(after))
    && after == before - (Loaded(before) - Loaded(after))
  }

  /** An id may be given out: not in use, and not below the allocator. */
  predicate MayIssue(r: Root, id: nat) {
    id !in r.disk && NextIndex(r.allocator) <= id
  }

  function Issue(r: Root, id: nat): Root {
    r.(allocator := Some(id + 1), issued := r.issued + [id])
  }

  /** What the disk can hold when the process dies between giving out `id` and writing its manifest: nothing new,
      or a directory that loads as nothing. */
  ghost predicate HalfCaptured(before: Disk, now: Disk, id: nat) {
    now == before || (id in now && !now[id].manifest.Complete? && now == before[id := now[id]])
  }

  /** `now` is `before` less `taken`, of which the newest may still be there in part. */
  ghost predicate LostOnly(before: Disk, now: Disk, taken: set<nat>) {
    && before.Keys - taken <= now.Keys <= before.Keys
    && (forall id :: id in now && id !in taken ==> now[id] == before[id])
    && (forall id :: id in now && id in taken ==> LostPart(before[id], now[id]))
    && forall gone, part :: gone in taken && part in taken && part in now ==> gone <= part
  }

  /** What it can hold when the process dies while it is pruned: the oldest of what is too much are gone, the last of
      them perhaps only in part. */
  ghost predicate HalfPruned(before: Disk, now: Disk, held: set<nat>, cap: nat) {
    exists taken :: OldestExcess(Loaded(before), held, cap, taken) && LostOnly(before, now, taken)
  }

  /** What it can hold while one snapshot is being removed: the snapshot is gone, or has lost a part. */
  ghost predicate HalfRemoved(before: Disk, now: Disk, id: nat)
    requires id in before
  {
    now == before - {id} || (id in now && now == before[id := now[id]] && LostPart(before[id], now[id]))
  }

  /** The directory has lost blobs, or its manifest, and gained nothing. */
  ghost predicate LostPart(before: SnapshotDirectory, now: SnapshotDirectory) {
    && (now.manifest == before.manifest || now.manifest.Missing?)
    && now.blobs.Keys <= before.blobs.Keys
    && forall p :: p in now.blobs ==> now.blobs[p] == before.blobs[p]
  }

  ghost predicate Creates(a: Root, b: Root, id: nat, s: Snapshot, protect: bool, cap: nat, requested: set<nat>) {
    && MayIssue(a, id) && Intact(s)
    && b.allocator == Issue(a, id).allocator && b.issued == Issue(a, id).issued
    && b.leases == (if protect then WithLeases(a.leases, id, Leases(a.leases, id) + 1) else a.leases)
    && Prunes(a.disk[id := Stored(s)], b.disk, {id} + b.leases.Keys + requested, cap)
  }

  ghost predicate Releases(a: Root, b: Root, id: nat, cap: nat, requested: set<nat>) {
    && Leases(a.leases, id) > 0
    && b == a.(leases := b.leases, disk := b.disk)
    && b.leases == WithLeases(a.leases, id, Leases(a.leases, id) - 1)
    && Prunes(a.disk, b.disk, b.leases.Keys + requested, cap)
  }

  /** What stays of a process that dies: leases die with it. */
  function Died(a: Root, disk: Disk): Root {
    a.(disk := disk, leases := map[])
  }

  /** The process dies inside a create: before, during or after the capture. */
  ghost predicate CrashesInCreate(a: Root, b: Root, id: nat, s: Snapshot, cap: nat, requested: set<nat>) {
    || b == Died(a, a.disk)
    || (&& MayIssue(a, id) && b == Died(Issue(a, id), b.disk)
        && (|| HalfCaptured(a.disk, b.disk, id)
            || (Intact(s) && HalfPruned(a.disk[id := Stored(s)], b.disk, {id} + a.leases.Keys + requested, cap))))
  }

  ghost predicate CrashesInRelease(a: Root, b: Root, id: nat, cap: nat, requested: set<nat>) {
    && Leases(a.leases, id) > 0
    && b == Died(a, b.disk)
    && HalfPruned(a.disk, b.disk, WithLeases(a.leases, id, Leases(a.leases, id) - 1).Keys + requested, cap)
  }

  ghost predicate CrashesInDelete(a: Root, b: Root, id: nat) {
    && id in Loaded(a.disk) && Leases(a.leases, id) == 0
    && b == Died(a, b.disk)
    && HalfRemoved(a.disk, b.disk, id)
  }

  ghost predicate Step(op: Op, a: Root, b: Root) {
    match op
    case Create(id, s, protect, cap, requested) => Creates(a, b, id, s, protect, cap, requested)
    case FailedCreate(id) => MayIssue(a, id) && b == Issue(a, id)
    case Protect(id) =>
      id in Loaded(a.disk) && b == a.(leases := WithLeases(a.leases, id, Leases(a.leases, id) + 1))
    case Release(id, cap, requested) => Releases(a, b, id, cap, requested)
    case Delete(id) => id in Loaded(a.disk) && Leases(a.leases, id) == 0 && b == a.(disk := a.disk - {id})
    case CrashInCreate(id, s, cap, requested) => CrashesInCreate(a, b, id, s, cap, requested)
    case CrashInRelease(id, cap, requested) => CrashesInRelease(a, b, id, cap, requested)
    case CrashInDelete(id) => CrashesInDelete(a, b, id)
  }

  /** Since `earlier`, the disk has shown only what the crash `op` of a process that was in state `a` may leave. */
  ghost predicate ShowsOnly(op: Op, a: Root, b: Root, earlier: seq<Disk>, history: seq<Disk>) {
    earlier <= history && forall k :: |earlier| <= k < |history| ==> Step(op, a, Died(b, history[k]))
  }

  ghost predicate Run(ops: seq<Op>, states: seq<Root>) {
    && |states| == |ops| + 1
    && forall i :: 0 <= i < |ops| ==> StepAt(ops, states, i)
  }

  ghost predicate StepAt(ops: seq<Op>, states: seq<Root>, i: nat)
    requires i < |ops| && |states| == |ops| + 1
  {
    Step(ops[i], states[i], states[i + 1])
  }

  ghost predicate Increasing(s: seq<nat>) {
    forall i, j :: 0 <= i < j < |s| ==> s[i] < s[j]
  }

  /** A directory found on disk is no complete snapshot, or one whose blobs are the captured ones, as far as they
      are still there. */
  ghost predicate Sound(d: SnapshotDirectory) {
    d.manifest.Complete? ==>
      && Coherent(d.manifest.manifest)
      && forall p :: p in d.blobs ==> p in d.manifest.manifest.files && BlobMatches(SnapshotIn(d), p)
  }

  ghost predicate SoundDisk(disk: Disk) {
    forall id :: id in disk ==> Sound(disk[id])
  }

  ghost predicate IssuedBelow(issued: seq<nat>, bound: nat) {
    Increasing(issued) && forall i :: 0 <= i < |issued| ==> issued[i] < bound
  }

  lemma IssuedStaysBelow(r: Root, id: nat)
    requires IssuedBelow(r.issued, NextIndex(r.allocator)) && MayIssue(r, id)
    ensures IssuedBelow(Issue(r, id).issued, NextIndex(Issue(r, id).allocator))
  {
  }

  /** What every step keeps. */
  ghost predicate Inv(r: Root) {
    && (forall id :: id in r.leases ==> r.leases[id] > 0 && id in Loaded(r.disk))
    && IssuedBelow(r.issued, NextIndex(r.allocator))
    && SoundDisk(r.disk)
  }

  lemma LostPartIsSound(before: SnapshotDirectory, now: SnapshotDirectory)
    requires Sound(before) && LostPart(before, now)
    ensures Sound(now)
  {
    if now.manifest.Complete? {
      forall p | p in now.blobs ensures BlobMatches(SnapshotIn(now), p) {
        assert BlobMatches(SnapshotIn(before), p);
      }
    }
  }

  lemma HalfPrunedIsSound(before: Disk, now: Disk, held: set<nat>, cap: nat)
    requires SoundDisk(before) && HalfPruned(before, now, held, cap)
    ensures SoundDisk(now)
  {
    var taken :| OldestExcess(Loaded(before), held, cap, taken) && LostOnly(before, now, taken);
    forall id | id in now ensures Sound(now[id]) {
      if id in taken {
        LostPartIsSound(before[id], now[id]);
      }
    }
  }

  lemma StoredIsSound(disk: Disk, id: nat, s: Snapshot)
    requires SoundDisk(disk) && Intact(s)
    ensures SoundDisk(disk[id := Stored(s)])
  {
    assert SnapshotIn(Stored(s)) == s;
  }

  lemma PruningKeepsHeld(before: Disk, after: Disk, held: set<nat>, cap: nat, id: nat)
    requires Prunes(before, after, held, cap) && id in held && id in Loaded(before)
    ensures id in Loaded(after) && after[id] == before[id]
  {
    assert id in Loaded(before) * held;
  }

  lemma PruningKeepsInv(a: Root, after: Disk, held: set<nat>, cap: nat)
    requires Inv(a) && Prunes(a.disk, after, held, cap) && a.leases.Keys <= held
    ensures Inv(a.(disk := after))
  {
    forall l | l in a.leases ensures l in Loaded(after) {
      PruningKeepsHeld(a.disk, after, held, cap, l);
    }
  }

  lemma CountingLeaseKeepsInv(r: Root, id: nat, count: nat)
    requires Inv(r) && (count > 0 ==> id in Loaded(r.disk))
    ensures Inv(r.(leases := WithLeases(r.leases, id, count)))
  {
  }

  lemma StoringKeepsInv(r: Root, id: nat, s: Snapshot)
    requires Inv(r) && id !in r.disk && Intact(s)
    ensures Inv(r.(disk := r.disk[id := Stored(s)]))
    ensures Loaded(r.disk[id := Stored(s)]) == Loaded(r.disk) + {id}
  {
    StoredIsSound(r.disk, id, s);
  }

  lemma CreateKeepsInv(a: Root, b: Root, id: nat, s: Snapshot, protect: bool, cap: nat, requested: set<nat>)
    requires Inv(a) && Creates(a, b, id, s, protect, cap, requested)
    ensures Inv(b)
  {
    IssuedStaysBelow(a, id);
    StoredIsSound(a.disk, id, s);
    forall l | l in b.leases ensures l in Loaded(b.disk) {
      PruningKeepsHeld(a.disk[id := Stored(s)], b.disk, {id} + b.leases.Keys + requested, cap, l);
    }
  }

  lemma ReleaseKeepsInv(a: Root, b: Root, id: nat, cap: nat, requested: set<nat>)
    requires Inv(a) && Releases(a, b, id, cap, requested)
    ensures Inv(b)
  {
    PruningKeepsInv(a.(leases := b.leases), b.disk, b.leases.Keys + requested, cap);
  }

  lemma DyingKeepsInv(r: Root, disk: Disk)
    requires Inv(r) && SoundDisk(disk)
    ensures Inv(Died(r, disk))
  {
  }

  lemma CrashInCreateKeepsInv(a: Root, b: Root, id: nat, s: Snapshot, cap: nat, requested: set<nat>)
    requires Inv(a) && CrashesInCreate(a, b, id, s, cap, requested)
    ensures Inv(b)
  {
    if b != Died(a, a.disk) {
      IssuedStaysBelow(a, id);
      if !HalfCaptured(a.disk, b.disk, id) {
        StoredIsSound(a.disk, id, s);
        HalfPrunedIsSound(a.disk[id := Stored(s)], b.disk, {id} + a.leases.Keys + requested, cap);
      }
    }
  }

  lemma CrashInReleaseKeepsInv(a: Root, b: Root, id: nat, cap: nat, requested: set<nat>)
    requires Inv(a) && CrashesInRelease(a, b, id, cap, requested)
    ensures Inv(b)
  {
    HalfPrunedIsSound(a.disk, b.disk, WithLeases(a.leases, id, Leases(a.leases, id) - 1).Keys + requested, cap);
    DyingKeepsInv(a, b.disk);
  }

  lemma CrashInDeleteKeepsInv(a: Root, b: Root, id: nat)
    requires Inv(a) && CrashesInDelete(a, b, id)
    ensures Inv(b)
  {
    if id in b.disk {
      LostPartIsSound(a.disk[id], b.disk[id]);
    }
    DyingKeepsInv(a, b.disk);
  }

  /** A crash, wherever it happens, leaves a root that can be worked with. */
  lemma CrashKeepsInv(op: Op, a: Root, b: Root)
    requires Inv(a) && IsCrash(op) && Step(op, a, b)
    ensures Inv(b)
  {
    match op {
      case CrashInCreate(id, s, cap, requested) => CrashInCreateKeepsInv(a, b, id, s, cap, requested);
      case CrashInRelease(id, cap, requested) => CrashInReleaseKeepsInv(a, b, id, cap, requested);
      case CrashInDelete(id) => CrashInDeleteKeepsInv(a, b, id);
    }
  }

  /** A directory that has lost a part no longer validates. */
  lemma LostPartIsNoticed(before: SnapshotDirectory, now: SnapshotDirectory)
    requires Sound(before) && LostPart(before, now) && now.manifest.Complete? && BlobsValid(SnapshotIn(now))
    ensures now == before
  {
    forall p | p in before.blobs ensures p in now.blobs {
      assert BlobMatches(SnapshotIn(before), p);
      assert BlobMatches(SnapshotIn(now), p);
    }
  }

  /** While a disk is pruned, what will stay is there untouched, and what validates is untouched. */
  lemma HalfPrunedKeeps(before: Disk, now: Disk, held: set<nat>, cap: nat)
    requires SoundDisk(before) && HalfPruned(before, now, held, cap)
    ensures Pruned(Loaded(before), held, cap) <= Loaded(now) <= Loaded(before)
    ensures forall id :: id in Pruned(Loaded(before), held, cap) ==> now[id] == before[id]
    ensures forall id :: id in Loaded(now) && BlobsValid(SnapshotIn(now[id])) ==> now[id] == before[id]
  {
    var kept := Pruned(Loaded(before), held, cap);
    var taken :| OldestExcess(Loaded(before), held, cap, taken) && LostOnly(before, now, taken);
    PrunedIsPrunedTo(Loaded(before), held, cap);
    PruningTakesNoMore(Loaded(before), held, cap, kept, taken);
    forall id | id in Loaded(now) && BlobsValid(SnapshotIn(now[id])) ensures now[id] == before[id] {
      if id in taken {
        LostPartIsNoticed(before[id], now[id]);
      }
    }
  }

  /**
  What a crash in a create can leave. Either the same snapshots are found as before, or only snapshots that were there
  or are the new one, and among them, untouched, all that the finished create would have kept. Any found whose blobs
  pass validation is what its capture stored, down to the last byte.
  */
  lemma CrashLeavesOldOrNew(a: Root, b: Root, id: nat, s: Snapshot, cap: nat, requested: set<nat>)
    requires Inv(a) && CrashesInCreate(a, b, id, s, cap, requested)
    ensures
      var full := a.disk[id := Stored(s)];
      var kept := Pruned(Loaded(full), {id} + a.leases.Keys + requested, cap);
      && (|| (Loaded(b.disk) == Loaded(a.disk) && forall found <- Loaded(a.disk) :: b.disk[found] == a.disk[found])
          || (&& kept <= Loaded(b.disk) <= Loaded(a.disk) + {id}
              && forall found <- kept :: b.disk[found] == full[found]))
      && forall found <- Loaded(b.disk) :: BlobsValid(SnapshotIn(b.disk[found])) ==>
           (found in a.disk && b.disk[found] == a.disk[found]) || b.disk[found] == full[found]
  {
    if b.disk != a.disk && !HalfCaptured(a.disk, b.disk, id) {
      StoredIsSound(a.disk, id, s);
      HalfPrunedKeeps(a.disk[id := Stored(s)], b.disk, {id} + a.leases.Keys + requested, cap);
      assert Loaded(a.disk[id := Stored(s)]) == Loaded(a.disk) + {id};
    }
  }

  /** A crash in a release loses nothing that the finished release would have kept; one in a delete loses nothing but
      the snapshot to be deleted. */
  lemma CrashLosesNoMoreThanTheStep(op: Op, a: Root, b: Root)
    requires Inv(a) && Step(op, a, b)
    ensures op.CrashInRelease? ==>
      var kept := Pruned(Loaded(a.disk), WithLeases(a.leases, op.id, Leases(a.leases, op.id) - 1).Keys + op.requested,
                         op.cap);
      kept <= Loaded(b.disk) <= Loaded(a.disk) && forall found <- kept :: b.disk[found] == a.disk[found]
    ensures op.CrashInDelete? ==>
      && Loaded(a.disk) - {op.id} <= Loaded(b.disk) <= Loaded(a.disk)
      && forall found <- Loaded(a.disk) :: found != op.id ==> b.disk[found] == a.disk[found]
  {
    if op.CrashInRelease? {
      HalfPrunedKeeps(a.disk, b.disk,
                      WithLeases(a.leases, op.id, Leases(a.leases, op.id) - 1).Keys + op.requested, op.cap);
    }
  }

  lemma StepKeepsInv(op: Op, a: Root, b: Root)
    requires Inv(a) && Step(op, a, b)
    ensures Inv(b) && a.issued <= b.issued
  {
    match op {
      case Create(id, s, protect, cap, requested) => CreateKeepsInv(a, b, id, s, protect, cap, requested);
      case Release(id, cap, requested) => ReleaseKeepsInv(a, b, id, cap, requested);
      case CrashInCreate(_, _, _, _) => CrashKeepsInv(op, a, b);
      case CrashInRelease(_, _, _) => CrashKeepsInv(op, a, b);
      case CrashInDelete(_) => CrashKeepsInv(op, a, b);
      case FailedCreate(id) => IssuedStaysBelow(a, id);
      case Protect(_) =>
      case Delete(_) =>
    }
  }

  lemma StepOfRun(ops: seq<Op>, states: seq<Root>, i: nat)
    requires Run(ops, states) && i < |ops|
    ensures Step(ops[i], states[i], states[i + 1])
  {
    assert StepAt(ops, states, i);
  }

  /**
  Over every run, by any number of stores, with crashes, failed captures and pruning: a snapshot under lease is
  always there, ids are given out in strictly increasing order and never again, and no manifest is ever found that
  a capture did not finish.
  */
  lemma {:induction false} RunKeepsInv(ops: seq<Op>, states: seq<Root>, i: nat)
    requires Run(ops, states) && Inv(states[0]) && i < |states|
    ensures Inv(states[i]) && states[0].issued <= states[i].issued
  {
    if i > 0 {
      RunKeepsInv(ops, states, i - 1);
      StepOfRun(ops, states, i - 1);
      StepKeepsInv(ops[i - 1], states[i - 1], states[i]);
    }
  }

  /** While a snapshot stays under lease, and the process lives, what is stored for it does not change. */
  lemma {:induction false} LeasedIsUntouched(ops: seq<Op>, states: seq<Root>, i: nat, j: nat, id: nat)
    requires Run(ops, states) && Inv(states[0]) && i <= j < |states|
    requires forall k :: i <= k <= j ==> id in states[k].leases
    requires forall k :: i <= k < j ==> !IsCrash(ops[k])
    ensures id in Loaded(states[i].disk) && id in Loaded(states[j].disk)
    ensures states[j].disk[id] == states[i].disk[id]
    decreases j
  {
    RunKeepsInv(ops, states, i);
    if i < j {
      LeasedIsUntouched(ops, states, i, j - 1, id);
      RunKeepsInv(ops, states, j);
      StepOfRun(ops, states, j - 1);
    }
  }
}
