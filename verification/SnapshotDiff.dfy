/**
Comparing a snapshot with the workspace. The scan never follows a symbolic link, but the loader
that opens a path to compare it does; the theorems say exactly when that makes a difference.
*/
module SnapshotDiff {
  import opened WorkspaceTree
  import opened SnapshotCapture
  import opened SnapshotRestore
  import opened Options

  datatype Status = Added | Deleted | Modified

  /** What opening a path finds: bytes, nothing to read (there is no such file, or it is a directory), or an error that
      the program does not expect. */
  datatype Opening = Content(bytes: Bytes) | Nothing | Refused

  /** What opening a path through a symbolic link finds: nothing this model knows, so any function. */
  type LinkReader = Path -> Opening

  /** Some link lies at or above `p`. */
  predicate ThroughLink(t: Tree, p: Path) {
    exists q :: q in Ancestry(p) && q in t && t[q].Link?
  }

  /** Some regular file lies strictly above `p`. */
  predicate UnderFile(t: Tree, p: Path) {
    exists q :: q in Ancestry(p) && q != p && q in t && t[q].File?
  }

  /** What opening `p` for reading finds. Opening a path below a regular file fails with "not a directory". */
  function Opened(t: Tree, follow: LinkReader, p: Path): Opening {
    if p in t && t[p].File? then Content(t[p].content)
    else if ThroughLink(t, p) then follow(p)
    else if UnderFile(t, p) then Refused
    else Nothing
  }

  /** The scan, less the files the capture recorded as skipped. */
  function Comparable(t: Tree, m: Manifest, names: set<string>): map<Path, Captured> {
    Fingerprints(ScanOf(t, names)) - m.skipped.Keys
  }

  /** The scan finds the captured digest at `p`, so that nothing is opened. */
  predicate ScannedSame(t: Tree, m: Manifest, names: set<string>, p: Path) {
    var current := Comparable(t, m, names);
    p in m.files && p in current && m.files[p].digest == current[p].digest
  }

  /** The paths compared. */
  function Compared(t: Tree, m: Manifest, names: set<string>): set<Path> {
    m.files.Keys + Comparable(t, m, names).Keys
  }

  predicate FailsAt(t: Tree, m: Manifest, names: set<string>, follow: LinkReader, p: Path) {
    !ScannedSame(t, m, names, p) && Opened(t, follow, p).Refused?
  }

  /** The comparison ends in an error. */
  predicate DiffFails(t: Tree, m: Manifest, names: set<string>, follow: LinkReader) {
    exists p <- Compared(t, m, names) :: FailsAt(t, m, names, follow, p)
  }

  function StatusAt(t: Tree, m: Manifest, names: set<string>, follow: LinkReader, p: Path): Option<Status> {
    if ScannedSame(t, m, names, p) then None
    else
      match Opened(t, follow, p)
      case Content(bytes) =>
        if p !in m.files then Some(Added)
        else if m.files[p].digest == Sha256(bytes) then None
        else Some(Modified)
      case _ => if p in m.files then Some(Deleted) else None
  }

  function DiffOf(t: Tree, m: Manifest, names: set<string>, follow: LinkReader): map<Path, Status> {
    map p | p in Compared(t, m, names) && StatusAt(t, m, names, follow, p).Some? ::
      StatusAt(t, m, names, follow, p).value
  }

  /** One round of the loop below. */
  method CompareFile(t: Tree, m: Manifest, current: map<Path, Captured>, names: set<string>, follow: LinkReader,
                     path: Path)
    returns (ok: bool, status: Option<Status>)
    requires current == Comparable(t, m, names)
    ensures ok <==> !FailsAt(t, m, names, follow, path)
    ensures ok ==> status == StatusAt(t, m, names, follow, path)
  {
    if path in m.files && path in current && m.files[path].digest == current[path].digest {
      return true, None;
    }
    var after := Opened(t, follow, path);
    ok, status := !after.Refused?, None;
    if path !in m.files && after.Content? {
      status := Some(Added);
    } else if path in m.files && after.Nothing? {
      status := Some(Deleted);
    } else if path in m.files && after.Content? && m.files[path].digest != Sha256(after.bytes) {
      status := Some(Modified);
    }
  }

  /** The comparison loop, over the paths of both sides in some order. */
  method DiffFiles(t: Tree, m: Manifest, current: map<Path, Captured>, names: set<string>, follow: LinkReader)
    returns (ok: bool, diffs: map<Path, Status>)
    requires current == Comparable(t, m, names)
    ensures ok <==> !DiffFails(t, m, names, follow)
    ensures ok ==> diffs == DiffOf(t, m, names, follow)
  {
    diffs := map[];
    var all := m.files.Keys + current.Keys;
    var remaining := all;
    while remaining != {}
      invariant remaining <= all
      invariant diffs == map p | p in all - remaining && StatusAt(t, m, names, follow, p).Some? ::
                           StatusAt(t, m, names, follow, p).value
      invariant forall p <- all - remaining :: !FailsAt(t, m, names, follow, p)
      decreases remaining
    {
      var path :| path in remaining;
      remaining := remaining - {path};
      var status;
      ok, status := CompareFile(t, m, current, names, follow, path);
      if !ok {
        return false, map[];
      }
      if status.Some? {
        diffs := diffs[path := status.value];
      }
    }
    assert all - remaining == all;
    ok := true;
  }

  /** How a comparison ends. */
  datatype DiffOutcome = Ended | InvalidSnapshot | Unreadable

  /** The whole operation: an invalid snapshot is refused, and so is a workspace in which a path cannot be opened. */
  method Diff(ws: Workspace, s: Snapshot, names: set<string>, follow: LinkReader)
    returns (outcome: DiffOutcome, diffs: map<Path, Status>)
    requires ws.Valid()
    ensures outcome == if !BlobsValid(s) then InvalidSnapshot
                       else if DiffFails(ws.tree, s.manifest, names, follow) then Unreadable
                       else Ended
    ensures outcome == Ended ==> diffs == DiffOf(ws.tree, s.manifest, names, follow)
  {
    diffs := map[];
    var valid := ValidateBlobs(s);
    if !valid {
      outcome := InvalidSnapshot;
      return;
    }
    var current := ScanWorkspace(ws.tree, names);
    var ok;
    ok, diffs := DiffFiles(ws.tree, s.manifest, current - s.manifest.skipped.Keys, names, follow);
    outcome := if ok then Ended else Unreadable;
  }

  // When a comparison fails

  /** A comparison fails exactly at a captured path that cannot be opened: what the scan finds can be. */
  lemma FailsOnlyAtCapturedPaths(t: Tree, m: Manifest, names: set<string>, follow: LinkReader)
    ensures DiffFails(t, m, names, follow) <==> exists p <- m.files :: Opened(t, follow, p).Refused?
  {
    if p :| p in m.files && Opened(t, follow, p).Refused? {
      assert p in Compared(t, m, names) && FailsAt(t, m, names, follow, p);
    }
  }

  /** With valid blobs and no link at or above a captured path, the diff fails if and only if a regular file has taken
      the place of a directory above a captured path. */
  lemma FailsIffFileAbove(t: Tree, m: Manifest, names: set<string>, follow: LinkReader)
    requires WellFormed(t) && forall p :: p in m.files ==> !ThroughLink(t, p)
    ensures DiffFails(t, m, names, follow) <==>
            exists p, q :: p in m.files && StrictlyCovers(q, p) && q in t && t[q].File?
  {
    FailsOnlyAtCapturedPaths(t, m, names, follow);
    forall p | p in m.files
      ensures Opened(t, follow, p).Refused? <==> exists q :: StrictlyCovers(q, p) && q in t && t[q].File?
    {
      forall q ensures q in Ancestry(p) && q != p <==> StrictlyCovers(q, p) {
      }
      if q :| StrictlyCovers(q, p) && q in t && t[q].File? {
        assert q in Ancestry(p);
        if p in t {
          AncestorIsDirectory(t, p, q);
        }
      }
    }
  }

  /** Such a workspace: a file was captured in a directory that is now a file. */
  lemma DiffFailsOnFileForDirectory()
    ensures
      var m := Manifest(map[["d", "f"] := Fingerprint([7])], map[], Recorded({}));
      var t: Tree := map[[] := Directory, ["d"] := File([7])];
      WellFormed(t) && DiffFails(t, m, {}, q => Nothing)
  {
    var p: Path := ["d", "f"];
    var m := Manifest(map[p := Fingerprint([7])], map[], Recorded({}));
    var t: Tree := map[[] := Directory, ["d"] := File([7])];
    assert Parent(["d"]) == [];
    forall q | q in Ancestry(p) && q in t ensures !t[q].Link? {
    }
    assert StrictlyCovers(["d"], p) && ["d"] in t;
    FailsOnlyAtCapturedPaths(t, m, {}, q => Nothing);
    assert ["d"] in Ancestry(p);
    assert p in m.files && Opened(t, q => Nothing, p).Refused?;
  }

  // What a comparison reports

  /** A symbolic link is at `p` or on the way to it. */
  predicate BehindLink(t: Tree, p: Path) {
    exists i :: 0 <= i <= |p| && p[..i] in t && t[p[..i]].Link?
  }

  predicate IsFile(t: Tree, p: Path) {
    p in t && t[p].File?
  }

  lemma ThroughLinkIff(t: Tree, p: Path)
    ensures ThroughLink(t, p) <==> BehindLink(t, p)
  {
    if i :| 0 <= i <= |p| && p[..i] in t && t[p[..i]].Link? {
      assert p[..i] in Ancestry(p);
    }
    if q :| q in Ancestry(p) && q in t && t[q].Link? {
      assert p[..|q|] == q;
    }
  }

  /** A path is reported as added exactly if it is a regular file in view and the manifest has no entry for it. */
  lemma AddedIff(t: Tree, m: Manifest, names: set<string>, follow: LinkReader, p: Path)
    requires !DiffFails(t, m, names, follow)
    ensures var diffs := DiffOf(t, m, names, follow);
      (p in diffs && diffs[p] == Added) <==>
        IsFile(t, p) && InView(p, names) && p !in m.files && p !in m.skipped
  {
    ScanOfIff(t, names, p);
  }

  /** A captured path is reported as deleted exactly if it is no regular file, and no link leads to contents there. */
  lemma DeletedIff(t: Tree, m: Manifest, names: set<string>, follow: LinkReader, p: Path)
    requires !DiffFails(t, m, names, follow)
    ensures var diffs := DiffOf(t, m, names, follow);
      (p in diffs && diffs[p] == Deleted) <==>
        p in m.files && !IsFile(t, p) && (BehindLink(t, p) ==> !follow(p).Content?)
  {
    ThroughLinkIff(t, p);
    ScanOfIff(t, names, p);
    if p in m.files {
      assert p in Compared(t, m, names) && !FailsAt(t, m, names, follow, p);
    }
  }

  /** A captured path is reported as modified exactly if what is there, as a regular file or behind a link, has another
      digest than the captured one, whether or not it is in view. */
  lemma ModifiedIff(t: Tree, m: Manifest, names: set<string>, follow: LinkReader, p: Path)
    requires !DiffFails(t, m, names, follow)
    ensures var diffs := DiffOf(t, m, names, follow);
      (p in diffs && diffs[p] == Modified) <==>
        p in m.files &&
        if IsFile(t, p) then Sha256(t[p].content) != m.files[p].digest
        else BehindLink(t, p) && follow(p).Content? && Sha256(follow(p).bytes) != m.files[p].digest
  {
    ThroughLinkIff(t, p);
    ScanOfIff(t, names, p);
  }

  /** And it fails exactly if a captured path is no regular file, and what leads there is a link that cannot be opened
      or, without any link, a regular file. */
  lemma FailsIff(t: Tree, m: Manifest, names: set<string>, follow: LinkReader)
    ensures DiffFails(t, m, names, follow) <==>
            exists p :: p in m.files && !IsFile(t, p) &&
              if BehindLink(t, p) then follow(p).Refused? else exists i :: 0 <= i < |p| && IsFile(t, p[..i])
  {
    FailsOnlyAtCapturedPaths(t, m, names, follow);
    forall p | p in m.files
      ensures Opened(t, follow, p).Refused? <==>
              !IsFile(t, p) &&
              if BehindLink(t, p) then follow(p).Refused? else exists i :: 0 <= i < |p| && IsFile(t, p[..i])
    {
      ThroughLinkIff(t, p);
      UnderFileIff(t, p);
    }
  }

  lemma UnderFileIff(t: Tree, p: Path)
    ensures UnderFile(t, p) <==> exists i :: 0 <= i < |p| && IsFile(t, p[..i])
  {
    if i :| 0 <= i < |p| && IsFile(t, p[..i]) {
      assert p[..i] in Ancestry(p);
    }
    if q :| q in Ancestry(p) && q != p && q in t && t[q].File? {
      assert IsFile(t, p[..|q|]);
    }
  }

  /** A file a walk sees is not reached through a link. */
  lemma SeenIsNotThroughLink(t: Tree, p: Path)
    requires WellFormed(t) && p in t && t[p].File?
    ensures !ThroughLink(t, p)
  {
    forall q | q in Ancestry(p) && q in t ensures !t[q].Link? {
      if q != p {
        AncestorIsDirectory(t, p, q);
      }
    }
  }

  /** The scan finds exactly the captured contents. */
  ghost predicate Unchanged(t: Tree, m: Manifest, names: set<string>) {
    && Comparable(t, m, names).Keys == m.files.Keys
    && forall p :: p in m.files ==> Comparable(t, m, names)[p].digest == m.files[p].digest
  }

  lemma UnchangedGivesEmptyDiff(t: Tree, m: Manifest, names: set<string>, follow: LinkReader)
    requires WellFormed(t) && Unchanged(t, m, names)
    ensures !DiffFails(t, m, names, follow) && DiffOf(t, m, names, follow) == map[]
    ensures forall p :: p in m.files ==> !ThroughLink(t, p)
  {
    forall p | p in m.files ensures !ThroughLink(t, p) && ScannedSame(t, m, names, p) {
      assert p in Comparable(t, m, names);
      SeenIsNotThroughLink(t, p);
    }
  }

  lemma EmptyDiffMeansUnchanged(t: Tree, m: Manifest, names: set<string>, follow: LinkReader)
    requires WellFormed(t) && Coherent(m)
    requires forall p :: p in m.files ==> Visible(p, names) && !ThroughLink(t, p)
    requires !DiffFails(t, m, names, follow) && DiffOf(t, m, names, follow) == map[]
    ensures Unchanged(t, m, names)
  {
    forall p | p in Compared(t, m, names)
      ensures StatusAt(t, m, names, follow, p) == None && !FailsAt(t, m, names, follow, p)
    {
      assert p !in DiffOf(t, m, names, follow);
    }
    forall p | p in m.files ensures ScannedSame(t, m, names, p) {
      assert StatusAt(t, m, names, follow, p) == None;
    }
    forall p | p in Comparable(t, m, names) ensures p in m.files {
      assert StatusAt(t, m, names, follow, p) == None;
    }
  }

  /**
  What an empty diff means. When the captured files are all in view (they are, under the policy that captured
  them), the workspace shows exactly the captured contents if and only if the diff does not fail, is empty, and no
  captured path is reached through a link.
  */
  lemma UnchangedIffEmptyDiff(t: Tree, m: Manifest, names: set<string>, follow: LinkReader)
    requires WellFormed(t) && Coherent(m)
    requires forall p :: p in m.files ==> Visible(p, names)
    ensures Unchanged(t, m, names) <==>
      (&& !DiffFails(t, m, names, follow)
       && DiffOf(t, m, names, follow) == map[]
       && forall p :: p in m.files ==> !ThroughLink(t, p))
  {
    if Unchanged(t, m, names) {
      UnchangedGivesEmptyDiff(t, m, names, follow);
    } else if !DiffFails(t, m, names, follow) && DiffOf(t, m, names, follow) == map[] &&
              forall p :: p in m.files ==> !ThroughLink(t, p) {
      EmptyDiffMeansUnchanged(t, m, names, follow);
    }
  }

  /** The links matter: a captured file replaced by a link to equal bytes is gone from the scan, yet the diff is
      empty. */
  lemma DiffMissesLink()
    ensures
      var p := ["notes.txt"];
      var m := Manifest(map[p := Fingerprint([7])], map[], Recorded({}));
      var t: Tree := map[[] := Directory, p := Link("elsewhere")];
      && WellFormed(t) && p !in ScanOf(t, {})
      && !DiffFails(t, m, {}, q => Content([7])) && DiffOf(t, m, {}, q => Content([7])) == map[]
  {
    var p: Path := ["notes.txt"];
    var m := Manifest(map[p := Fingerprint([7])], map[], Recorded({}));
    var t: Tree := map[[] := Directory, p := Link("elsewhere")];
    assert Parent(p) == [];
    assert p in Ancestry(p);
    assert ThroughLink(t, p);
    assert Comparable(t, m, {}) == map[];
    assert StatusAt(t, m, {}, q => Content([7]), p) == None;
  }

  /** Right after a restore, under the policy that made the capture, the diff succeeds and is empty, whatever the
      workspace was. */
  lemma DiffAfterRestoreIsEmpty(was: Tree, now: Tree, policy: Policy, follow: LinkReader)
    requires WellFormed(was) && WellFormed(now)
    ensures
      var s := SnapshotOf(CaptureOf(was, policy, was.Keys));
      var after := Restored(now, s, policy.excludedNames, true);
      && !DiffFails(after, s.manifest, policy.excludedNames, follow)
      && DiffOf(after, s.manifest, policy.excludedNames, follow) == map[]
  {
    var s := SnapshotOf(CaptureOf(was, policy, was.Keys));
    var names := policy.excludedNames;
    var after := Restored(now, s, names, true);
    CaptureIsCoherent(was, policy);
    forall p | p in Compared(after, s.manifest, names) ensures ScannedSame(after, s.manifest, names, p)
    {
      RestoreScansBack(was, now, policy, p);
      if p in s.manifest.files {
        CapturedIsBack(was, now, policy, names, true, p);
      }
    }
  }
}
