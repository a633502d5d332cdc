/**
Restoring a snapshot over a workspace that has moved on, and comparing the two. The restore is a
sequence of destructive edits; `Restored` says what they come to, and the theorems say what that
keeps and what it brings back.
*/
module SnapshotRestore {
  import opened WorkspaceTree
  import opened SnapshotCapture

  const HISTORIC_EXCLUDED_NAMES: set<string> := {
    "node_modules", ".venv", "venv", ".tox", ".mypy_cache", ".ruff_cache", ".cache", ".next", ".nuxt",
    "dist", "build", "target", "vendor", "coverage"}

  /** What a manifest says about the directories its capture left out; older ones say nothing. */
  datatype Exclusions = Recorded(directories: set<Path>) | NotRecorded

  datatype Manifest = Manifest(files: map<Path, Captured>, skipped: map<Path, nat>, exclusions: Exclusions)

  /** A manifest and the blobs stored beside it. */
  datatype Snapshot = Snapshot(manifest: Manifest, blobs: map<Path, Bytes>)

  function SnapshotOf(c: Capture): Snapshot {
    Snapshot(Manifest(c.files, c.skipped, Recorded(c.excludedDirectories)), c.blobs)
  }

  predicate CoveredByAny(ps: set<Path>, q: Path) {
    exists p :: p in ps && Covers(p, q)
  }

  predicate UnderAny(ds: set<Path>, q: Path) {
    exists d :: d in ds && d != [] && StrictlyCovers(d, q)
  }

  /** `p` lies under a directory the capture of `m` did not look into. */
  predicate OutsideScope(m: Manifest, p: Path) {
    || UnderAny(RUNTIME_OWNED, p)
    || match m.exclusions
       case Recorded(directories) => UnderAny(directories, p)
       case NotRecorded => exists i :: 0 <= i < |p| - 1 && p[i] in HISTORIC_EXCLUDED_NAMES
  }

  /** What every capture guarantees: none of the paths it records is at or under another. */
  ghost predicate Coherent(m: Manifest) {
    && PrefixFree(m.files.Keys + m.skipped.Keys)
    && m.files.Keys !! m.skipped.Keys
    && [] !in m.files
    && (m.exclusions.Recorded? ==>
          forall d, p :: d in m.exclusions.directories && p in m.files.Keys + m.skipped.Keys ==>
            !Covers(d, p) && !Covers(p, d))
  }

  predicate BlobMatches(s: Snapshot, p: Path)
    requires p in s.manifest.files
  {
    p in s.blobs && Fingerprint(s.blobs[p]) == s.manifest.files[p]
  }

  ghost predicate BlobsValid(s: Snapshot) {
    forall p :: p in s.manifest.files ==> BlobMatches(s, p)
  }

  lemma CaptureIsCoherent(t: Tree, policy: Policy)
    requires WellFormed(t)
    ensures Coherent(SnapshotOf(CaptureOf(t, policy, t.Keys)).manifest)
    ensures BlobsValid(SnapshotOf(CaptureOf(t, policy, t.Keys)))
  {
    var m := SnapshotOf(CaptureOf(t, policy, t.Keys)).manifest;
    forall p, q | p in m.files.Keys + m.skipped.Keys && Covers(p, q) && q in t ensures p == q {
      if p != q {
        AncestorIsDirectory(t, q, p);
      }
    }
    forall d, p | d in m.exclusions.directories && p in m.files.Keys + m.skipped.Keys
      ensures !Covers(d, p)
    {
      if Covers(d, p) {
        assert d != p;
        VisibleAbove(p, d, policy.excludedNames);
      }
    }
  }

  // Writing the captured files back

  /** `t` after all of `contents` has been written back. */
  function Overlay(t: Tree, contents: map<Path, Bytes>): Tree {
    map q | q in (set q | q in t && !CoveredByAny(contents.Keys, q)) + Ancestries(contents.Keys) ::
      if q in contents then File(contents[q])
      else if q in Ancestries(contents.Keys) then Directory
      else t[q]
  }

  lemma OverlayHoldsContents(t: Tree, contents: map<Path, Bytes>, p: Path)
    requires p in contents
    ensures p in Overlay(t, contents) && Overlay(t, contents)[p] == File(contents[p])
  {
    assert Covers(p, p);
    assert p in Ancestry(p);
  }

  /** Writing one more file back, none of whose neighbours was written before. */
  lemma OverlayStep(t: Tree, contents: map<Path, Bytes>, p: Path, content: Bytes)
    requires PrefixFree(contents.Keys + {p}) && p !in contents
    ensures Written(Overlay(t, contents), p, content) == Overlay(t, contents[p := content])
  {
    var a, b := Written(Overlay(t, contents), p, content), Overlay(t, contents[p := content]);
    forall q ensures (q in a <==> q in b) && (q in a ==> a[q] == b[q]) {
      OverlayStepAt(t, contents, p, content, q);
    }
  }

  lemma OverlayStepAt(t: Tree, contents: map<Path, Bytes>, p: Path, content: Bytes, q: Path)
    requires PrefixFree(contents.Keys + {p}) && p !in contents
    ensures var a, b := Written(Overlay(t, contents), p, content), Overlay(t, contents[p := content]);
      (q in a <==> q in b) && (q in a ==> a[q] == b[q])
  {
    assert contents[p := content].Keys == contents.Keys + {p};
    AncestriesOfOneMore(contents.Keys, p);
    CoveredByOneMore(contents.Keys, p, q);
    NoneWrittenBelow(contents.Keys, p, q);
  }

  /** What lies on the way to a written path is not below a new one, and no written path lies on the way to it. */
  lemma NoneWrittenBelow(ps: set<Path>, p: Path, q: Path)
    requires PrefixFree(ps + {p}) && p !in ps
    ensures q in Ancestries(ps) ==> !Covers(p, q)
    ensures q in ps ==> !Covers(q, p)
  {
    if q in Ancestries(ps) {
      var c :| c in ps && Covers(q, c);
      assert Covers(p, q) ==> Covers(p, c);
    }
  }

  lemma AncestriesOfOneMore(ps: set<Path>, p: Path)
    ensures Ancestries(ps + {p}) == Ancestries(ps) + Ancestry(p)
  {
  }

  lemma CoveredByOneMore(ps: set<Path>, p: Path, q: Path)
    ensures CoveredByAny(ps + {p}, q) <==> CoveredByAny(ps, q) || Covers(p, q)
  {
    if CoveredByAny(ps, q) {
      var c :| c in ps && Covers(c, q);
      assert c in ps + {p};
    }
    if Covers(p, q) {
      assert p in ps + {p};
    }
  }

  function Part(contents: map<Path, Bytes>, ps: set<Path>): map<Path, Bytes> {
    map p | p in contents && p in ps :: contents[p]
  }

  lemma OneMoreWritten(t: Tree, contents: map<Path, Bytes>, remaining: set<Path>, p: Path)
    requires PrefixFree(contents.Keys) && remaining <= contents.Keys && p in remaining
    ensures Written(Overlay(t, Part(contents, contents.Keys - remaining)), p, contents[p]) ==
            Overlay(t, Part(contents, contents.Keys - (remaining - {p})))
  {
    var done := Part(contents, contents.Keys - remaining);
    OverlayStep(t, done, p, contents[p]);
    assert done[p := contents[p]] == Part(contents, contents.Keys - (remaining - {p}));
  }

  /** The first half of a restore: each captured file is written over whatever is at its path. */
  method WriteFiles(ws: Workspace, contents: map<Path, Bytes>)
    requires ws.Valid() && PrefixFree(contents.Keys) && [] !in contents
    modifies ws
    ensures ws.Valid() && ws.tree == Overlay(old(ws.tree), contents)
  {
    ghost var before := ws.tree;
    var remaining := contents.Keys;
    assert ws.tree == Overlay(before, Part(contents, {}));
    while remaining != {}
      invariant remaining <= contents.Keys
      invariant ws.Valid() && ws.tree == Overlay(before, Part(contents, contents.Keys - remaining))
      decreases remaining
    {
      var p :| p in remaining;
      OneMoreWritten(before, contents, remaining, p);
      ws.WriteFile(p, contents[p]);
      remaining := remaining - {p};
    }
    assert Part(contents, contents.Keys - {}) == contents;
  }

  // The whole restore

  /** The captured files a restore writes: all but those in runtime-owned directories. */
  function WrittenBack(s: Snapshot): map<Path, Bytes> {
    map p | p in s.manifest.files && p in s.blobs && !UnderAny(RUNTIME_OWNED, p) :: s.blobs[p]
  }

  /** The files a restore deletes as added since the capture. */
  function AddedSince(t: Tree, m: Manifest, names: set<string>): set<Path> {
    set p | p in ScanOf(t, names) && p !in m.files && p !in m.skipped && !OutsideScope(m, p)
  }

  /** The tree a restore of `s` makes of `t`, by a store whose policy excludes `names`. */
  function Restored(t: Tree, s: Snapshot, names: set<string>, deleteAdded: bool): Tree {
    var o := Overlay(t, WrittenBack(s));
    if deleteAdded then o - AddedSince(o, s.manifest, names) else o
  }

  /** `p` lies under one of the directories `ds`. */
  predicate LiesUnder(ds: set<Path>, p: Path) {
    exists i :: 0 < i < |p| && p[..i] in ds
  }

  /** The captured paths that are written back: those with a blob, outside the directories the runtime owns. */
  predicate IsWritten(s: Snapshot, p: Path) {
    p in s.manifest.files && p in s.blobs && !LiesUnder(RUNTIME_OWNED, p)
  }

  /** The manifest has no entry for `p`, and the capture would have made one: `p` is under no directory it left out. */
  predicate IsNew(m: Manifest, p: Path) {
    && p !in m.files && p !in m.skipped && !LiesUnder(RUNTIME_OWNED, p)
    && match m.exclusions
       case Recorded(directories) => !LiesUnder(directories, p)
       case NotRecorded => forall i :: 0 <= i < |p| - 1 ==> p[i] !in HISTORIC_EXCLUDED_NAMES
  }

  lemma UnderAnyIff(ds: set<Path>, p: Path)
    ensures UnderAny(ds, p) <==> LiesUnder(ds, p)
  {
    if LiesUnder(ds, p) {
      var i :| 0 < i < |p| && p[..i] in ds;
      assert StrictlyCovers(p[..i], p);
    }
    if d :| d in ds && d != [] && StrictlyCovers(d, p) {
      assert p[..|d|] in ds;
    }
  }

  lemma IsNewIff(m: Manifest, p: Path)
    ensures IsNew(m, p) <==> p !in m.files && p !in m.skipped && !OutsideScope(m, p)
  {
    UnderAnyIff(RUNTIME_OWNED, p);
    if m.exclusions.Recorded? {
      UnderAnyIff(m.exclusions.directories, p);
    }
  }

  lemma IsWrittenIff(s: Snapshot, p: Path)
    ensures p in WrittenBack(s) <==> IsWritten(s, p)
    ensures p in WrittenBack(s) ==> WrittenBack(s)[p] == s.blobs[p]
  {
    UnderAnyIff(RUNTIME_OWNED, p);
  }

  /**
  What a restore makes of each path: a captured one holds its bytes again, what is on the way to one is a directory,
  what was below one is gone, and everything else stays as it was, except for new files in view of the restoring
  store when what was added is to be deleted.
  */
  lemma RestoredAt(t: Tree, s: Snapshot, names: set<string>, deleteAdded: bool, q: Path)
    ensures
      var after := Restored(t, s, names, deleteAdded);
      if IsWritten(s, q) then q in after && after[q] == File(s.blobs[q])
      else if exists p :: IsWritten(s, p) && StrictlyCovers(q, p) then q in after && after[q] == Directory
      else if exists p :: IsWritten(s, p) && StrictlyCovers(p, q) then q !in after
      else
        && (q in after <==> q in t && !(deleteAdded && t[q].File? && InView(q, names) && IsNew(s.manifest, q)))
        && (q in after ==> after[q] == t[q])
  {
    var w := WrittenBack(s);
    var o := Overlay(t, w);
    IsWrittenIff(s, q);
    IsNewIff(s.manifest, q);
    ScanOfIff(o, names, q);
    if IsWritten(s, q) {
      OverlayHoldsContents(t, w, q);
    } else {
      WrittenAbove(s, q);
      WrittenBelow(s, q);
    }
  }

  lemma WrittenAbove(s: Snapshot, q: Path)
    requires !IsWritten(s, q)
    ensures (exists p :: IsWritten(s, p) && StrictlyCovers(q, p)) <==> q in Ancestries(WrittenBack(s).Keys)
  {
    if p :| p in WrittenBack(s) && q in Ancestry(p) {
      IsWrittenIff(s, p);
      assert p != q && StrictlyCovers(q, p);
    }
    if p :| IsWritten(s, p) && StrictlyCovers(q, p) {
      IsWrittenIff(s, p);
      assert q in Ancestry(p);
    }
  }

  lemma WrittenBelow(s: Snapshot, q: Path)
    requires !IsWritten(s, q)
    ensures (exists p :: IsWritten(s, p) && StrictlyCovers(p, q)) <==> CoveredByAny(WrittenBack(s).Keys, q)
  {
    if p :| p in WrittenBack(s) && Covers(p, q) {
      IsWrittenIff(s, p);
      assert p != q && StrictlyCovers(p, q);
    }
    if p :| IsWritten(s, p) && StrictlyCovers(p, q) {
      IsWrittenIff(s, p);
      assert Covers(p, q);
    }
  }

  /** A regular file is there unchanged afterwards exactly if no captured path is written at it, above it or below it,
      or the one written at it has its bytes. */
  ghost predicate LosesOnlyToWritten(before: Tree, after: Tree, s: Snapshot) {
    forall q :: q in before && before[q].File? ==>
      ((q in after && after[q] == before[q]) <==>
       if IsWritten(s, q) then s.blobs[q] == before[q].content
       else forall p :: IsWritten(s, p) ==> !StrictlyCovers(p, q) && !StrictlyCovers(q, p))
  }

  /** So a restore that is not to delete what was added takes nothing away but what stands in its way. */
  lemma KeepingAddedLosesOnlyToWritten(t: Tree, s: Snapshot, names: set<string>)
    ensures LosesOnlyToWritten(t, Restored(t, s, names, false), s)
  {
    forall q | q in t && t[q].File?
      ensures (q in Restored(t, s, names, false) && Restored(t, s, names, false)[q] == t[q]) <==>
              if IsWritten(s, q) then s.blobs[q] == t[q].content
              else forall p :: IsWritten(s, p) ==> !StrictlyCovers(p, q) && !StrictlyCovers(q, p)
    {
      RestoredAt(t, s, names, false, q);
    }
  }

  method ValidateBlobs(s: Snapshot) returns (ok: bool)
    ensures ok <==> BlobsValid(s)
  {
    var remaining := s.manifest.files.Keys;
    while remaining != {}
      invariant remaining <= s.manifest.files.Keys
      invariant forall p :: p in s.manifest.files && p !in remaining ==> BlobMatches(s, p)
      decreases remaining
    {
      var p :| p in remaining;
      if p !in s.blobs || Fingerprint(s.blobs[p]) != s.manifest.files[p] {
        return false;
      }
      remaining := remaining - {p};
    }
    ok := true;
  }

  method DeleteFiles(ws: Workspace, ps: set<Path>)
    requires ws.Valid() && forall p :: p in ps ==> p in ws.tree && ws.tree[p].File?
    modifies ws
    ensures ws.Valid() && ws.tree == old(ws.tree) - ps
  {
    var remaining := ps;
    while remaining != {}
      invariant remaining <= ps
      invariant ws.Valid() && ws.tree == old(ws.tree) - (ps - remaining)
      decreases remaining
    {
      var p :| p in remaining;
      ws.DeleteRegularFile(p);
      assert ps - (remaining - {p}) == (ps - remaining) + {p};
      remaining := remaining - {p};
    }
  }

  method Restore(ws: Workspace, s: Snapshot, names: set<string>, deleteAdded: bool) returns (ok: bool)
    requires ws.Valid() && Coherent(s.manifest)
    modifies ws
    ensures ws.Valid()
    ensures ok <==> BlobsValid(s)
    ensures ws.tree == if ok then Restored(old(ws.tree), s, names, deleteAdded) else old(ws.tree)
    ensures ok && !deleteAdded ==> LosesOnlyToWritten(old(ws.tree), ws.tree, s)
  {
    KeepingAddedLosesOnlyToWritten(ws.tree, s, names);
    ok := ValidateBlobs(s);
    if !ok {
      return;
    }
    WriteFiles(ws, WrittenBack(s));
    if deleteAdded {
      var current := ScanWorkspace(ws.tree, names);
      var added := set p | p in current && p !in s.manifest.files && p !in s.manifest.skipped &&
                           !OutsideScope(s.manifest, p);
      assert added == AddedSince(ws.tree, s.manifest, names);
      DeleteFiles(ws, added);
    }
  }

  // What a restore never destroys

  /** Whatever the restoring store excludes, a file the capture did not hold is still there, unchanged, when it
      was recorded as skipped or lies under a directory recorded as excluded. */
  lemma UncapturedSurvives(t: Tree, s: Snapshot, names: set<string>, deleteAdded: bool, q: Path)
    requires WellFormed(t) && Coherent(s.manifest)
    requires q in t && t[q].File?
    requires q in s.manifest.skipped ||
             (s.manifest.exclusions.Recorded? && UnderAny(s.manifest.exclusions.directories, q))
    ensures var after := Restored(t, s, names, deleteAdded); q in after && after[q] == t[q]
  {
    var w := WrittenBack(s);
    var m := s.manifest;
    assert forall p :: p in w ==> p in m.files.Keys + m.skipped.Keys && p !in m.skipped;
    forall p | p in w && (Covers(p, q) || Covers(q, p)) ensures false {
      if q !in m.skipped {
        var d :| d in m.exclusions.directories && d != [] && StrictlyCovers(d, q);
        assert !Covers(d, p) && !Covers(p, d);
        CoveringIsLinear(p, d, q);
      }
    }
    assert !CoveredByAny(w.Keys, q);
    assert q !in Ancestries(w.Keys);
  }

  /** Two paths that cover a third are one above the other. */
  lemma CoveringIsLinear(p: Path, d: Path, q: Path)
    requires Covers(d, q) && (Covers(p, q) || Covers(q, p))
    ensures Covers(p, d) || Covers(d, p)
  {
    if Covers(p, q) {
      if |p| <= |d| {
        assert d[..|p|] == q[..|p|];
      } else {
        assert p[..|d|] == q[..|d|];
      }
    } else {
      assert p[..|d|] == q[..|d|];
    }
  }

  /** Any other file out of scope is never deleted as added, and neither is any file at all when what was added is to
      be kept: it survives unless a captured path is written in its way, and its bytes survive a captured path of its
      own only if they are the captured ones. */
  lemma OutOfScopeSurvives(t: Tree, s: Snapshot, names: set<string>, deleteAdded: bool, q: Path)
    requires q in t && t[q].File? && (OutsideScope(s.manifest, q) || !deleteAdded)
    ensures var after, w := Restored(t, s, names, deleteAdded), WrittenBack(s);
      (q in after && after[q] == t[q]) <==>
        if q in w then w[q] == t[q].content else forall p <- w :: !Covers(p, q) && !Covers(q, p)
  {
    var w := WrittenBack(s);
    if q in w {
      OverlayHoldsContents(t, w, q);
    } else if p :| p in w && (Covers(p, q) || Covers(q, p)) {
      assert Covers(p, q) ==> CoveredByAny(w.Keys, q);
      assert Covers(q, p) ==> q in Ancestry(p);
    }
  }

  /** So the live files of the runtime survive even an older manifest that lists them, unless it holds a regular file
      at or above their directory. */
  lemma RuntimeOwnedSurvives(t: Tree, s: Snapshot, names: set<string>, deleteAdded: bool, d: Path, q: Path)
    requires d in RUNTIME_OWNED && StrictlyCovers(d, q) && q in t && t[q].File?
    ensures var after := Restored(t, s, names, deleteAdded);
      (q in after && after[q] == t[q]) <==> forall p <- WrittenBack(s) :: !Covers(p, d)
  {
    assert UnderAny(RUNTIME_OWNED, q);
    OutOfScopeSurvives(t, s, names, deleteAdded, q);
    forall p | p in WrittenBack(s) ensures Covers(p, d) <==> Covers(p, q) || Covers(q, p) {
      assert !StrictlyCovers(d, p);
      if Covers(p, q) || Covers(q, p) {
        CoveringIsLinear(p, d, q);
      }
    }
  }

  /** A tree in which the directory of the runtime is a regular file, and what a capture makes of it. */
  lemma CaptureOfRuntimeFile(d: Path, was: Tree)
    requires d == [".efp", "runtime"] && was == map[[] := Directory, [".efp"] := Directory, d := File([7])]
    ensures WellFormed(was)
    ensures SnapshotOf(CaptureOf(was, Policy({}, 0), was.Keys)) ==
            Snapshot(Manifest(map[d := Fingerprint([7])], map[], Recorded({})), map[d := [7]])
  {
    assert Parent([".efp"]) == [] && Parent(d) == [".efp"];
    assert Entered([], {}) && Entered([".efp"], {}) && Visible(d, {});
    var seen := Seen(was, {}, was.Keys);
    assert seen == map[d := [7]];
    assert Kept(seen, 0) == seen && Skipped(seen, 0) == map[];
    assert Fingerprints(seen) == map[d := Fingerprint([7])];
    assert Excluded(was, {}, was.Keys) == {};
  }

  /** Such a snapshot, as a capture made it: what is now a directory of the runtime was a regular file then. */
  lemma FileForRuntimeDirectoryDestroysIt()
    ensures
      var d, q: Path := [".efp", "runtime"], [".efp", "runtime", "sessions"];
      var was: Tree := map[[] := Directory, [".efp"] := Directory, d := File([7])];
      var now: Tree := map[[] := Directory, [".efp"] := Directory, d := Directory, q := File([1])];
      var s := SnapshotOf(CaptureOf(was, Policy({}, 0), was.Keys));
      && d in RUNTIME_OWNED && WellFormed(was) && WellFormed(now)
      && Coherent(s.manifest) && BlobsValid(s) && q !in Restored(now, s, {}, true)
  {
    var d, q: Path := [".efp", "runtime"], [".efp", "runtime", "sessions"];
    var was: Tree := map[[] := Directory, [".efp"] := Directory, d := File([7])];
    CaptureOfRuntimeFile(d, was);
    CaptureIsCoherent(was, Policy({}, 0));
    CapturedIsWrittenBack(was, Policy({}, 0));
    var now: Tree := map[[] := Directory, [".efp"] := Directory, d := Directory, q := File([1])];
    TreeOfRuntimeDirectory(d, q, now);
    BelowWrittenIsGone(now, SnapshotOf(CaptureOf(was, Policy({}, 0), was.Keys)), {}, true, d, q);
  }

  lemma TreeOfRuntimeDirectory(d: Path, q: Path, now: Tree)
    requires d == [".efp", "runtime"] && q == d + ["sessions"]
    requires now == map[[] := Directory, [".efp"] := Directory, d := Directory, q := File([1])]
    ensures WellFormed(now)
  {
    assert Parent([".efp"]) == [] && Parent(d) == [".efp"] && Parent(q) == d;
  }

  /** What lies below the one path that is written back is gone. */
  lemma BelowWrittenIsGone(t: Tree, s: Snapshot, names: set<string>, deleteAdded: bool, d: Path, q: Path)
    requires WrittenBack(s).Keys == {d} && StrictlyCovers(d, q)
    ensures q !in Restored(t, s, names, deleteAdded)
  {
    assert CoveredByAny(WrittenBack(s).Keys, q);
    assert q !in Ancestry(d);
  }

  // The round trip

  /** A capture never holds a path a restore would refuse to write. */
  lemma CapturedIsWrittenBack(t: Tree, policy: Policy)
    requires WellFormed(t)
    ensures var s := SnapshotOf(CaptureOf(t, policy, t.Keys)); WrittenBack(s) == s.blobs
  {
    var s := SnapshotOf(CaptureOf(t, policy, t.Keys));
    forall p | p in s.blobs ensures !UnderAny(RUNTIME_OWNED, p) {
      if UnderAny(RUNTIME_OWNED, p) {
        var d :| d in RUNTIME_OWNED && d != [] && StrictlyCovers(d, p);
        VisibleAbove(p, d, policy.excludedNames);
      }
    }
  }

  /** A scan under the capturing policy meets nothing outside the scope of the capture. */
  lemma ScannedIsInScope(t: Tree, policy: Policy, p: Path)
    requires Visible(p, policy.excludedNames)
    ensures !OutsideScope(SnapshotOf(CaptureOf(t, policy, t.Keys)).manifest, p)
  {
    var m := SnapshotOf(CaptureOf(t, policy, t.Keys)).manifest;
    forall d | (d in RUNTIME_OWNED || d in m.exclusions.directories) && d != [] && StrictlyCovers(d, p)
      ensures false
    {
      VisibleAbove(p, d, policy.excludedNames);
    }
  }

  lemma CapturedIsBack(was: Tree, now: Tree, policy: Policy, names: set<string>, deleteAdded: bool, p: Path)
    requires WellFormed(was)
    requires p in CaptureOf(was, policy, was.Keys).files
    ensures
      var after := Restored(now, SnapshotOf(CaptureOf(was, policy, was.Keys)), names, deleteAdded);
      p in after && after[p] == was[p] && was[p].File?
    ensures Visible(p, policy.excludedNames)
  {
    var s := SnapshotOf(CaptureOf(was, policy, was.Keys));
    CapturedIsWrittenBack(was, policy);
    OverlayHoldsContents(now, s.blobs, p);
  }

  /**
  The round trip. Capture `was`, let the workspace become anything at all, restore: every regular file in view that was
  within the limit holds its bytes again, whatever the restoring store excludes and whether or not it deletes what was
  added.
  */
  lemma RestoreBringsBackContents(was: Tree, now: Tree, policy: Policy, names: set<string>, deleteAdded: bool, p: Path)
    requires WellFormed(was)
    requires p in was && was[p].File? && InView(p, policy.excludedNames)
    requires policy.maxFileBytes == 0 || |was[p].content| <= policy.maxFileBytes
    ensures
      var after := Restored(now, SnapshotOf(CaptureOf(was, policy, was.Keys)), names, deleteAdded);
      p in after && after[p] == was[p]
  {
    CaptureOfCaptures(was, policy);
    CapturedIsBack(was, now, policy, names, deleteAdded, p);
  }

  /** ... and a scan finds exactly the captured files and those skipped ones that are still there. */
  lemma RestoreScansBack(was: Tree, now: Tree, policy: Policy, p: Path)
    requires WellFormed(was) && WellFormed(now)
    ensures
      var s := SnapshotOf(CaptureOf(was, policy, was.Keys));
      var after := Restored(now, s, policy.excludedNames, true);
      p in ScanOf(after, policy.excludedNames) <==>
        p in s.manifest.files || (p in s.manifest.skipped && p in ScanOf(now, policy.excludedNames))
  {
    var s := SnapshotOf(CaptureOf(was, policy, was.Keys));
    var names := policy.excludedNames;
    var after := Restored(now, s, names, true);
    if p in s.manifest.files {
      CapturedIsBack(was, now, policy, names, true, p);
    } else if p in s.manifest.skipped && p in ScanOf(now, names) {
      CaptureIsCoherent(was, policy);
      UncapturedSurvives(now, s, names, true, p);
    } else if p in ScanOf(after, names) {
      CapturedIsWrittenBack(was, policy);
      ScannedIsInScope(was, policy, p);
    }
  }

  /** In terms of the two trees: of the paths in view, the regular files are those of then that were within the limit,
      with the bytes of then, and those above it that are still regular files, with the bytes of now. */
  lemma RestoreBringsBackView(was: Tree, now: Tree, policy: Policy, p: Path)
    requires WellFormed(was) && WellFormed(now) && InView(p, policy.excludedNames)
    ensures
      var after := Restored(now, SnapshotOf(CaptureOf(was, policy, was.Keys)), policy.excludedNames, true);
      var fits := p in was && was[p].File? && (policy.maxFileBytes == 0 || |was[p].content| <= policy.maxFileBytes);
      var skipped := p in was && was[p].File? && !fits && p in now && now[p].File?;
      && (p in after && after[p].File? <==> fits || skipped)
      && (fits ==> after[p] == was[p])
      && (skipped ==> after[p] == now[p])
  {
    var names := policy.excludedNames;
    var s := SnapshotOf(CaptureOf(was, policy, was.Keys));
    var after := Restored(now, s, names, true);
    RestoreScansBack(was, now, policy, p);
    CaptureOfCaptures(was, policy);
    ScanOfIff(after, names, p);
    ScanOfIff(now, names, p);
    if p in s.manifest.files {
      CapturedIsBack(was, now, policy, names, true, p);
    } else if p in s.manifest.skipped && p in ScanOf(now, names) {
      CaptureIsCoherent(was, policy);
      UncapturedSurvives(now, s, names, true, p);
    }
  }

  /** Restoring again changes nothing. */
  lemma RestoreIsIdempotent(t: Tree, s: Snapshot, names: set<string>, deleteAdded: bool)
    requires WellFormed(t) && Coherent(s.manifest)
    ensures var once := Restored(t, s, names, deleteAdded); Restored(once, s, names, deleteAdded) == once
  {
    var w := WrittenBack(s);
    var o := Overlay(t, w);
    var once := Restored(t, s, names, deleteAdded);
    forall q ensures q in Overlay(once, w) <==> q in once {
      if q in w {
        OverlayHoldsContents(t, w, q);
      }
      if q in Ancestries(w.Keys) {
        assert q in o;
      }
    }
    forall q | q in once ensures Overlay(once, w)[q] == once[q] {
    }
    assert Overlay(once, w) == once;
    assert deleteAdded ==> AddedSince(once, s.manifest, names) == {};
  }
}
