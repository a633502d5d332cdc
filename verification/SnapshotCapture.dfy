/**
The two walks over the workspace: the capture, which fills a new snapshot, and the scan, which
says what is there now. Both take the entries of a directory in some order (the program sorts
them); the results do not depend on it.
*/
module SnapshotCapture {
  import opened WorkspaceTree

  const ALWAYS_EXCLUDED_NAMES: set<string> := {".efp_runtime", ".git", ".pytest_cache", "__pycache__"}
  const RUNTIME_OWNED: set<Path> := {[".efp", "runtime"], [".efp", "runtime_tasks"]}

  /** SHA-256, taken to be injective. */
  datatype Digest = Sha256(of: Bytes)

  datatype Captured = Captured(digest: Digest, size: nat)

  function Fingerprint(content: Bytes): Captured {
    Captured(Sha256(content), |content|)
  }

  function Fingerprints(contents: map<Path, Bytes>): map<Path, Captured> {
    map p | p in contents :: Fingerprint(contents[p])
  }

  /** What a store captures; a `maxFileBytes` of zero means no limit. */
  datatype Policy = Policy(excludedNames: set<string>, maxFileBytes: nat)

  predicate TooLarge(content: Bytes, limit: nat) {
    limit != 0 && |content| > limit
  }

  function Last(p: Path): string
    requires p != []
  {
    p[|p| - 1]
  }

  /** The walk goes down into the directory `d`. */
  predicate Entered(d: Path, names: set<string>) {
    d == [] ||
    (Entered(Parent(d), names) && Last(d) !in ALWAYS_EXCLUDED_NAMES && d !in RUNTIME_OWNED && Last(d) !in names)
  }

  /** The walk looks at the entry `p`. */
  predicate Visible(p: Path, names: set<string>) {
    p != [] && Entered(Parent(p), names) && Last(p) !in ALWAYS_EXCLUDED_NAMES
  }

  /** The walk reports the directory `d` as left out. */
  predicate ReportedExcluded(d: Path, names: set<string>) {
    Visible(d, names) && d !in RUNTIME_OWNED && Last(d) in names
  }

  /** Nothing on the way to `p` keeps a walk from it: no component is an always excluded name, and no directory above
      it is runtime-owned or has an excluded name. */
  predicate InView(p: Path, names: set<string>) {
    && p != []
    && (forall i :: 0 <= i < |p| ==> p[i] !in ALWAYS_EXCLUDED_NAMES)
    && (forall i :: 0 <= i < |p| - 1 ==> p[i] !in names)
    && (forall i :: 0 < i < |p| ==> p[..i] !in RUNTIME_OWNED)
  }

  lemma {:induction false} EnteredIff(d: Path, names: set<string>)
    ensures Entered(d, names) <==>
            && (forall i :: 0 <= i < |d| ==> d[i] !in ALWAYS_EXCLUDED_NAMES && d[i] !in names)
            && (forall i :: 0 < i <= |d| ==> d[..i] !in RUNTIME_OWNED)
    decreases |d|
  {
    if d != [] {
      var u := Parent(d);
      EnteredIff(u, names);
      assert forall i :: 0 <= i < |u| ==> u[i] == d[i];
      assert forall i :: 0 < i <= |u| ==> u[..i] == d[..i];
      assert d[..|d|] == d;
      assert Last(d) == d[|d| - 1];
    }
  }

  lemma VisibleIff(p: Path, names: set<string>)
    ensures Visible(p, names) <==> InView(p, names)
  {
    if p != [] {
      var u := Parent(p);
      EnteredIff(u, names);
      assert forall i :: 0 <= i < |u| ==> u[i] == p[i];
      assert forall i :: 0 < i <= |u| ==> u[..i] == p[..i];
      assert Last(p) == p[|p| - 1];
    }
  }

  /** The regular files among `ps` that a walk looks at, with their contents. */
  function Seen(t: Tree, names: set<string>, ps: set<Path>): map<Path, Bytes> {
    map p | p in ps && p in t && t[p].File? && Visible(p, names) :: t[p].content
  }

  /** Those of them a capture keeps. */
  function Kept(contents: map<Path, Bytes>, limit: nat): map<Path, Bytes> {
    map p | p in contents && !TooLarge(contents[p], limit) :: contents[p]
  }

  /** Those of them a capture only records the size of. */
  function Skipped(contents: map<Path, Bytes>, limit: nat): map<Path, nat> {
    map p | p in contents && TooLarge(contents[p], limit) :: |contents[p]|
  }

  function Excluded(t: Tree, names: set<string>, ps: set<Path>): set<Path> {
    set d | d in ps && d in t && t[d].Directory? && ReportedExcluded(d, names)
  }

  /** Everything a walk from the root looks at. */
  function ScanOf(t: Tree, names: set<string>): map<Path, Bytes> {
    Seen(t, names, t.Keys)
  }

  /** What a capture is for, path by path: each regular file in view is kept with its digest, size and bytes if there
      is no limit or it is within it, and otherwise recorded with its size alone; each directory in view that has an
      excluded name and is not runtime-owned is recorded as left out. */
  ghost predicate Captures(capture: Capture, t: Tree, policy: Policy) {
    && (forall p :: p in capture.files <==>
         && p in t && t[p].File? && InView(p, policy.excludedNames)
         && (policy.maxFileBytes == 0 || |t[p].content| <= policy.maxFileBytes))
    && (forall p :: p in capture.files ==>
         p in t && t[p].File? && capture.files[p] == Captured(Sha256(t[p].content), |t[p].content|))
    && capture.blobs.Keys == capture.files.Keys
    && (forall p :: p in capture.blobs ==> p in t && t[p] == File(capture.blobs[p]))
    && (forall p :: p in capture.skipped <==>
         && p in t && t[p].File? && InView(p, policy.excludedNames)
         && policy.maxFileBytes != 0 && |t[p].content| > policy.maxFileBytes)
    && (forall p :: p in capture.skipped ==> p in t && t[p].File? && capture.skipped[p] == |t[p].content|)
    && (forall d :: d in capture.excludedDirectories <==>
         && d in t && t[d].Directory? && InView(d, policy.excludedNames)
         && d !in RUNTIME_OWNED && d[|d| - 1] in policy.excludedNames)
  }

  lemma CaptureOfCaptures(t: Tree, policy: Policy)
    ensures Captures(CaptureOf(t, policy, t.Keys), t, policy)
  {
    forall p: Path ensures Visible(p, policy.excludedNames) <==> InView(p, policy.excludedNames) {
      VisibleIff(p, policy.excludedNames);
    }
  }

  /** The scan finds the regular files in view, whatever their size. */
  lemma ScanOfIff(t: Tree, names: set<string>, p: Path)
    ensures p in ScanOf(t, names) <==> p in t && t[p].File? && InView(p, names)
    ensures p in ScanOf(t, names) ==> t[p] == File(ScanOf(t, names)[p])
  {
    VisibleIff(p, names);
  }

  lemma {:induction false} EnteredAbove(p: Path, q: Path, names: set<string>)
    requires Entered(p, names) && Covers(q, p)
    ensures Entered(q, names)
    decreases |p|
  {
    if q != p {
      assert Covers(q, Parent(p));
      EnteredAbove(Parent(p), q, names);
    }
  }

  lemma VisibleAbove(p: Path, q: Path, names: set<string>)
    requires Visible(p, names) && StrictlyCovers(q, p)
    ensures Entered(q, names)
  {
    CoversParent(p);
    EnteredAbove(Parent(p), q, names);
  }

  /** What a capture brings back: the four tables its walk fills. */
  datatype Capture = Capture(
    files: map<Path, Captured>,
    skipped: map<Path, nat>,
    excludedDirectories: set<Path>,
    blobs: map<Path, Bytes>)
  {
    function Plus(that: Capture): Capture {
      Capture(files + that.files, skipped + that.skipped,
              excludedDirectories + that.excludedDirectories, blobs + that.blobs)
    }
  }

  lemma MergeAssociative<K, V>(a: map<K, V>, b: map<K, V>, c: map<K, V>)
    ensures (a + b) + c == a + (b + c)
  {
  }

  lemma MergeOne<K, V>(m: map<K, V>, k: K, v: V)
    ensures m + map[k := v] == m[k := v]
    ensures m + map[] == m
  {
  }

  lemma PlusAssociative(a: Capture, b: Capture, c: Capture)
    ensures a.Plus(b).Plus(c) == a.Plus(b.Plus(c))
  {
    MergeAssociative(a.files, b.files, c.files);
    MergeAssociative(a.skipped, b.skipped, c.skipped);
    MergeAssociative(a.blobs, b.blobs, c.blobs);
  }

  const NOTHING := Capture(map[], map[], {}, map[])

  lemma NothingPlus(c: Capture)
    ensures NOTHING.Plus(c) == c
  {
    assert map[] + c.files == c.files;
    assert map[] + c.skipped == c.skipped;
    assert map[] + c.blobs == c.blobs;
  }

  /** What a capture brings back from the paths `ps`. */
  function CaptureOf(t: Tree, policy: Policy, ps: set<Path>): Capture {
    var seen := Seen(t, policy.excludedNames, ps);
    var kept := Kept(seen, policy.maxFileBytes);
    Capture(Fingerprints(kept), Skipped(seen, policy.maxFileBytes), Excluded(t, policy.excludedNames, ps), kept)
  }

  function CaptureOfFile(p: Path, content: Bytes, limit: nat): Capture {
    if TooLarge(content, limit) then Capture(map[], map[p := |content|], {}, map[])
    else Capture(map[p := Fingerprint(content)], map[], {}, map[p := content])
  }

  /** A child of a directory together with what lies below it. */
  function Region(t: Tree, c: Path): set<Path> {
    {c} + Below(t, c)
  }

  /** What one entry of a directory contributes to a scan. */
  lemma SeenOfRegion(t: Tree, names: set<string>, c: Path)
    requires WellFormed(t) && c in t && c != [] && Entered(Parent(c), names)
    ensures Seen(t, names, Region(t, c)) ==
              if t[c].File? && Last(c) !in ALWAYS_EXCLUDED_NAMES then map[c := t[c].content]
              else if t[c].Directory? && Entered(c, names) then Seen(t, names, Below(t, c))
              else map[]
    ensures Excluded(t, names, Region(t, c)) ==
              if t[c].Directory? && Entered(c, names) then Excluded(t, names, Below(t, c))
              else if t[c].Directory? && ReportedExcluded(c, names) then {c}
              else {}
  {
    if !t[c].Directory? {
      LeafHasNothingBelow(t, c);
    }
    forall p | p in Below(t, c) && Visible(p, names) ensures Entered(c, names) {
      VisibleAbove(p, c, names);
    }
  }

  /** What one entry of a directory contributes to a capture. */
  lemma CaptureOfRegion(t: Tree, policy: Policy, c: Path)
    requires WellFormed(t) && c in t && c != [] && Entered(Parent(c), policy.excludedNames)
    ensures CaptureOf(t, policy, Region(t, c)) ==
              if t[c].File? && Last(c) !in ALWAYS_EXCLUDED_NAMES then
                CaptureOfFile(c, t[c].content, policy.maxFileBytes)
              else if t[c].Directory? && Entered(c, policy.excludedNames) then CaptureOf(t, policy, Below(t, c))
              else if t[c].Directory? && ReportedExcluded(c, policy.excludedNames) then
                NOTHING.(excludedDirectories := {c})
              else NOTHING
  {
    SeenOfRegion(t, policy.excludedNames, c);
  }

  lemma SeenOfUnion(t: Tree, names: set<string>, ps: set<Path>, qs: set<Path>)
    ensures Seen(t, names, ps + qs) == Seen(t, names, ps) + Seen(t, names, qs)
    ensures Excluded(t, names, ps + qs) == Excluded(t, names, ps) + Excluded(t, names, qs)
  {
  }

  lemma FingerprintsOfUnion(a: map<Path, Bytes>, b: map<Path, Bytes>)
    ensures Fingerprints(a + b) == Fingerprints(a) + Fingerprints(b)
  {
  }

  lemma KeptOfUnion(a: map<Path, Bytes>, b: map<Path, Bytes>, limit: nat)
    requires forall p :: p in a && p in b ==> a[p] == b[p]
    ensures Kept(a + b, limit) == Kept(a, limit) + Kept(b, limit)
  {
  }

  lemma SkippedOfUnion(a: map<Path, Bytes>, b: map<Path, Bytes>, limit: nat)
    requires forall p :: p in a && p in b ==> a[p] == b[p]
    ensures Skipped(a + b, limit) == Skipped(a, limit) + Skipped(b, limit)
  {
  }

  lemma CaptureOfUnion(t: Tree, policy: Policy, ps: set<Path>, qs: set<Path>)
    ensures CaptureOf(t, policy, ps + qs) == CaptureOf(t, policy, ps).Plus(CaptureOf(t, policy, qs))
  {
    var a, b := Seen(t, policy.excludedNames, ps), Seen(t, policy.excludedNames, qs);
    SeenOfUnion(t, policy.excludedNames, ps, qs);
    KeptOfUnion(a, b, policy.maxFileBytes);
    SkippedOfUnion(a, b, policy.maxFileBytes);
    FingerprintsOfUnion(Kept(a, policy.maxFileBytes), Kept(b, policy.maxFileBytes));
  }

  lemma CaptureStep(t: Tree, policy: Policy, start: Capture, done: set<Path>, region: set<Path>)
    ensures start.Plus(CaptureOf(t, policy, done)).Plus(CaptureOf(t, policy, region)) ==
            start.Plus(CaptureOf(t, policy, done + region))
  {
    CaptureOfUnion(t, policy, done, region);
    PlusAssociative(start, CaptureOf(t, policy, done), CaptureOf(t, policy, region));
  }

  /** The children still to be visited, and what the visited ones covered. */
  ghost predicate Progress(t: Tree, d: Path, remaining: set<string>, done: set<Path>) {
    && remaining <= Children(t, d)
    && done <= Below(t, d)
    && forall p :: p in Below(t, d) ==> p in done || p[|d|] in remaining
  }

  lemma ProgressStart(t: Tree, d: Path)
    requires WellFormed(t)
    ensures Progress(t, d, Children(t, d), {})
  {
    forall p | p in Below(t, d) ensures p[|d|] in Children(t, d) {
      BelowIsChildrenAndTheirs(t, d, p);
    }
  }

  lemma ProgressStep(t: Tree, d: Path, remaining: set<string>, done: set<Path>, n: string)
    requires WellFormed(t) && Progress(t, d, remaining, done) && n in remaining
    ensures d + [n] in t && Parent(d + [n]) == d && Last(d + [n]) == n
    ensures Progress(t, d, remaining - {n}, done + Region(t, d + [n]))
    ensures Region(t, d + [n]) <= Below(t, d)
  {
    var c := d + [n];
    var w :| w in t && |w| == |d| + 1 && Covers(d, w) && w[|d|] == n;
    assert w == c;
    assert c in Below(t, d) && c !in Below(t, c);
    forall p | p in Below(t, c) ensures p in Below(t, d) {
      assert p[..|c|][..|d|] == d;
    }
    forall p | p in Below(t, d) && p[|d|] == n ensures p in Region(t, c) {
      BelowIsChildrenAndTheirs(t, d, p);
    }
  }

  /** One capture under way: the dictionaries the walk fills, and the blobs it writes. */
  class CaptureWalk {
    const policy: Policy
    var files: map<Path, Captured>
    var skipped: map<Path, nat>
    var excludedDirectories: set<Path>
    var blobs: map<Path, Bytes>

    constructor (policy: Policy)
      ensures this.policy == policy && Tables() == NOTHING
    {
      this.policy := policy;
      files, skipped, excludedDirectories, blobs := map[], map[], {}, map[];
    }

    function Tables(): Capture
      reads this
    {
      Capture(files, skipped, excludedDirectories, blobs)
    }

    method CaptureFile(p: Path, content: Bytes)
      modifies this
      ensures Tables() == old(Tables()).Plus(CaptureOfFile(p, content, policy.maxFileBytes))
      ensures if policy.maxFileBytes == 0 || |content| <= policy.maxFileBytes
        then && files == old(files)[p := Captured(Sha256(content), |content|)]
             && blobs == old(blobs)[p := content] && skipped == old(skipped)
        else skipped == old(skipped)[p := |content|] && files == old(files) && blobs == old(blobs)
      ensures excludedDirectories == old(excludedDirectories)
    {
      MergeOne(files, p, Fingerprint(content));
      MergeOne(skipped, p, |content|);
      MergeOne(blobs, p, content);
      if policy.maxFileBytes != 0 && |content| > policy.maxFileBytes {
        skipped := skipped[p := |content|];
      } else {
        blobs := blobs[p := content];
        files := files[p := Captured(Sha256(content), |content|)];
      }
    }

    /** One entry of a directory the walk has entered. */
    method CaptureEntry(t: Tree, d: Path, name: string)
      requires WellFormed(t) && d + [name] in t && Entered(d, policy.excludedNames)
      modifies this
      ensures Tables() == old(Tables()).Plus(CaptureOf(t, policy, Region(t, d + [name])))
      decreases Region(t, d + [name]), 0
    {
      var child := d + [name];
      assert Parent(child) == d;
      CaptureOfRegion(t, policy, child);
      if name !in ALWAYS_EXCLUDED_NAMES && !t[child].Link? {
        if t[child].File? {
          CaptureFile(child, t[child].content);
        } else if child !in RUNTIME_OWNED {
          if name in policy.excludedNames {
            excludedDirectories := excludedDirectories + {child};
          } else {
            assert child in Region(t, child) && child !in Below(t, child);
            CaptureDirectory(t, child);
          }
        }
      }
    }

    method CaptureDirectory(t: Tree, d: Path)
      requires WellFormed(t) && d in t && t[d].Directory? && Entered(d, policy.excludedNames)
      modifies this
      ensures Tables() == old(Tables()).Plus(CaptureOf(t, policy, Below(t, d)))
      decreases Below(t, d), 1
    {
      ghost var start := Tables();
      assert start == start.Plus(CaptureOf(t, policy, {}));
      var remaining := Children(t, d);
      ghost var done: set<Path> := {};
      ProgressStart(t, d);
      while remaining != {}
        invariant Progress(t, d, remaining, done)
        invariant Tables() == start.Plus(CaptureOf(t, policy, done))
        decreases remaining
      {
        var name :| name in remaining;
        ProgressStep(t, d, remaining, done, name);
        CaptureStep(t, policy, start, done, Region(t, d + [name]));
        CaptureEntry(t, d, name);
        done := done + Region(t, d + [name]);
        remaining := remaining - {name};
      }
      assert done == Below(t, d);
    }
  }

  lemma ScanStep(t: Tree, names: set<string>, start: map<Path, Captured>, done: set<Path>, region: set<Path>)
    ensures start + Fingerprints(Seen(t, names, done)) + Fingerprints(Seen(t, names, region)) ==
            start + Fingerprints(Seen(t, names, done + region))
  {
    SeenOfUnion(t, names, done, region);
    FingerprintsOfUnion(Seen(t, names, done), Seen(t, names, region));
    MergeAssociative(start, Fingerprints(Seen(t, names, done)), Fingerprints(Seen(t, names, region)));
  }

  /** The scan: the same walk, hashing every file and keeping none. */
  method ScanDirectory(t: Tree, d: Path, names: set<string>, files: map<Path, Captured>)
    returns (files': map<Path, Captured>)
    requires WellFormed(t) && d in t && t[d].Directory? && Entered(d, names)
    ensures files' == files + Fingerprints(Seen(t, names, Below(t, d)))
    decreases Below(t, d), 1
  {
    files' := files;
    var remaining := Children(t, d);
    ghost var done: set<Path> := {};
    ProgressStart(t, d);
    while remaining != {}
      invariant Progress(t, d, remaining, done)
      invariant files' == files + Fingerprints(Seen(t, names, done))
      decreases remaining
    {
      var name :| name in remaining;
      ghost var region := Region(t, d + [name]);
      ProgressStep(t, d, remaining, done, name);
      ScanStep(t, names, files, done, region);
      files' := ScanEntry(t, d, name, names, files');
      done := done + region;
      remaining := remaining - {name};
    }
    assert done == Below(t, d);
  }

  method ScanEntry(t: Tree, d: Path, name: string, names: set<string>, files: map<Path, Captured>)
    returns (files': map<Path, Captured>)
    requires WellFormed(t) && d + [name] in t && Entered(d, names)
    ensures files' == files + Fingerprints(Seen(t, names, Region(t, d + [name])))
    decreases Region(t, d + [name]), 0
  {
    files' := files;
    var child := d + [name];
    assert Parent(child) == d;
    SeenOfRegion(t, names, child);
    if name in ALWAYS_EXCLUDED_NAMES || t[child].Link? {
      return;
    }
    if t[child].Directory? {
      if child !in RUNTIME_OWNED && name !in names {
        assert child in Region(t, child) && child !in Below(t, child);
        files' := ScanDirectory(t, child, names, files);
      }
    } else {
      files' := files[child := Fingerprint(t[child].content)];
    }
  }

  /** The root is below nothing and is no file, so a walk from it covers the whole tree. */
  lemma WholeTreeIsBelowRoot(t: Tree, policy: Policy)
    requires WellFormed(t)
    ensures Seen(t, policy.excludedNames, Below(t, [])) == ScanOf(t, policy.excludedNames)
    ensures CaptureOf(t, policy, Below(t, [])) == CaptureOf(t, policy, t.Keys)
  {
    assert forall p :: p in t && p != [] ==> p in Below(t, []);
  }

  method ScanWorkspace(t: Tree, names: set<string>) returns (files: map<Path, Captured>)
    requires WellFormed(t)
    ensures files == Fingerprints(ScanOf(t, names))
    ensures forall p :: p in files <==> p in t && t[p].File? && InView(p, names)
    ensures forall p :: p in files ==> files[p] == Captured(Sha256(t[p].content), |t[p].content|)
  {
    forall p: Path ensures Visible(p, names) <==> InView(p, names) {
      VisibleIff(p, names);
    }
    files := ScanDirectory(t, [], names, map[]);
    WholeTreeIsBelowRoot(t, Policy(names, 0));
  }

  method CaptureWorkspace(t: Tree, policy: Policy) returns (capture: Capture)
    requires WellFormed(t)
    ensures capture == CaptureOf(t, policy, t.Keys)
    ensures Captures(capture, t, policy)
  {
    var walk := new CaptureWalk(policy);
    walk.CaptureDirectory(t, []);
    capture := walk.Tables();
    NothingPlus(CaptureOf(t, policy, Below(t, [])));
    WholeTreeIsBelowRoot(t, policy);
    CaptureOfCaptures(t, policy);
  }
}
