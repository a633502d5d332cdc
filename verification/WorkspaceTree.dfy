/**
The workspace as the snapshot store sees it: a finite tree of directories, regular files and
symbolic links, and the system calls the store makes on it.

A tree is a map from paths (component sequences, the root being []) to entries. Each system call
requires what the operating system demands, so code that verifies never gets an OSError from it.
*/
module WorkspaceTree {
  type Path = seq<string>
  type Bytes = seq<bv8>

  datatype Entry =
    | File(content: Bytes)
    | Directory
    | Link(target: string)

  type Tree = map<Path, Entry>

  /** `q` is `p` itself or a directory on the way to it. */
  predicate Covers(q: Path, p: Path) {
    |q| <= |p| && p[..|q|] == q
  }

  predicate StrictlyCovers(q: Path, p: Path) {
    |q| < |p| && p[..|q|] == q
  }

  function Parent(p: Path): Path
    requires p != []
  {
    p[..|p| - 1]
  }

  /** The root is a directory, and so is the parent of everything else. */
  ghost predicate WellFormed(t: Tree) {
    && [] in t && t[[]].Directory?
    && forall p :: p in t && p != [] ==> Parent(p) in t && t[Parent(p)].Directory?
  }

  /** `p` and everything above it. */
  function Ancestry(p: Path): (s: set<Path>)
    ensures forall q :: q in s <==> Covers(q, p)
  {
    set i | 0 <= i <= |p| :: p[..i]
  }

  /** `ps` and everything above any of them. */
  function Ancestries(ps: set<Path>): set<Path>
  {
    set p, q | p in ps && q in Ancestry(p) :: q
  }

  /** Everything strictly below `d`. */
  function Below(t: Tree, d: Path): set<Path> {
    set p | p in t && StrictlyCovers(d, p)
  }

  function Children(t: Tree, d: Path): set<string> {
    set p | p in t && |p| == |d| + 1 && Covers(d, p) :: p[|d|]
  }

  ghost predicate PrefixFree(ps: set<Path>) {
    forall p, q :: p in ps && q in ps && Covers(p, q) ==> p == q
  }

  lemma {:induction false} AncestorIsDirectory(t: Tree, p: Path, q: Path)
    requires WellFormed(t) && p in t && StrictlyCovers(q, p)
    ensures q in t && t[q].Directory?
    decreases |p|
  {
    if q != Parent(p) {
      AncestorIsDirectory(t, Parent(p), q);
    }
  }

  /** Nothing lies below a file or a link. */
  lemma LeafHasNothingBelow(t: Tree, p: Path)
    requires WellFormed(t) && p in t && !t[p].Directory?
    ensures Below(t, p) == {}
  {
    forall q | q in t && StrictlyCovers(p, q) ensures false {
      AncestorIsDirectory(t, q, p);
    }
  }

  /** Nothing lies below a path that is not there. */
  lemma AbsentHasNothingBelow(t: Tree, p: Path)
    requires WellFormed(t) && p !in t
    ensures Below(t, p) == {}
  {
    forall q | q in t && StrictlyCovers(p, q) ensures false {
      AncestorIsDirectory(t, q, p);
    }
  }

  /** What lies below `d` is its children together with what lies below them. */
  lemma BelowIsChildrenAndTheirs(t: Tree, d: Path, p: Path)
    requires WellFormed(t) && p in Below(t, d)
    ensures p[|d|] in Children(t, d)
    ensures d + [p[|d|]] in t
    ensures p == d + [p[|d|]] || p in Below(t, d + [p[|d|]])
  {
    var c := d + [p[|d|]];
    assert c == p[..|d| + 1];
    if c != p {
      AncestorIsDirectory(t, p, c);
    }
    assert Covers(d, c) && c[|d|] == p[|d|];
  }

  lemma CoversParent(p: Path)
    requires p != []
    ensures forall q :: Covers(q, p) <==> Covers(q, Parent(p)) || q == p
    ensures forall q :: StrictlyCovers(q, p) <==> Covers(q, Parent(p))
  {
    forall q: Path | |q| < |p| ensures Parent(p)[..|q|] == p[..|q|] {
    }
  }

  // Tree operations

  /** `t` with `d` and everything above it turned into directories. */
  function WithDirectories(t: Tree, d: Path): Tree {
    map q | q in t.Keys + Ancestry(d) :: if Covers(q, d) then Directory else t[q]
  }

  /** `t` without `p` and what lies below it. */
  function Without(t: Tree, p: Path): Tree {
    map q | q in t && !Covers(p, q) :: t[q]
  }

  /** `t` after a captured file is written back at `p`, over whatever is there now. */
  function Written(t: Tree, p: Path, content: Bytes): Tree {
    map q | q in Without(t, p).Keys + Ancestry(p) ::
      if q == p then File(content) else if Covers(q, p) then Directory else t[q]
  }

  lemma WithDirectoriesStep(t: Tree, d: Path)
    requires d != []
    ensures var u := WithDirectories(t, Parent(d));
      WithDirectories(t, d) == if d in u && u[d].Directory? then u else (u - {d})[d := Directory]
  {
    CoversParent(d);
  }

  lemma WrittenFromDirectories(t: Tree, p: Path, content: Bytes)
    requires p != []
    ensures Written(t, p, content) == Without(WithDirectories(t, Parent(p)), p)[p := File(content)]
  {
    CoversParent(p);
  }

  /** With nothing below `p`, taking out `p` alone takes out its whole subtree. */
  lemma WithoutLeaf(t: Tree, p: Path)
    requires Below(t, p) == {}
    ensures Without(t, p) == t - {p}
  {
    forall q | q in t && q != p ensures !Covers(p, q) {
      assert q !in Below(t, p);
    }
  }

  /** The working tree on disk and the calls made on it. */
  class Workspace {
    var tree: Tree

    ghost predicate Valid()
      reads this
    {
      WellFormed(tree)
    }

    constructor (initial: Tree)
      requires WellFormed(initial)
      ensures Valid() && tree == initial
    {
      tree := initial;
    }

    method Unlink(p: Path)
      requires Valid() && p in tree && !tree[p].Directory?
      modifies this
      ensures Valid() && tree == old(tree) - {p}
    {
      LeafHasNothingBelow(tree, p);
      tree := tree - {p};
      forall q | q in tree && q != [] ensures Parent(q) in tree && tree[Parent(q)].Directory? {
        assert Parent(q) != p;
      }
    }

    method RemoveTree(p: Path)
      requires Valid() && p in tree && tree[p].Directory? && p != []
      modifies this
      ensures Valid() && tree == Without(old(tree), p)
    {
      tree := Without(tree, p);
      forall q | q in tree && q != [] ensures Parent(q) in tree && tree[Parent(q)].Directory? {
        assert Covers(Parent(q), q);
      }
    }

    method MakeDirectory(p: Path)
      requires Valid() && p !in tree && p != []
      requires Parent(p) in tree && tree[Parent(p)].Directory?
      modifies this
      ensures Valid() && tree == old(tree)[p := Directory]
    {
      AbsentHasNothingBelow(tree, p);
      tree := tree[p := Directory];
    }

    method WriteBytes(p: Path, content: Bytes)
      requires Valid() && p != [] && p !in tree
      requires Parent(p) in tree && tree[Parent(p)].Directory?
      modifies this
      ensures Valid() && tree == old(tree)[p := File(content)]
    {
      AbsentHasNothingBelow(tree, p);
      tree := tree[p := File(content)];
      forall q | q in tree && q != [] ensures Parent(q) in tree && tree[Parent(q)].Directory? {
        assert Parent(q) == p ==> StrictlyCovers(p, q);
        assert q !in Below(old(tree), p);
      }
    }

    /** One round of the loop below: make `current` a real directory inside its parent. */
    method EnsureOneDirectory(current: Path)
      requires Valid() && current != []
      requires Parent(current) in tree && tree[Parent(current)].Directory?
      modifies this
      ensures Valid()
      ensures tree == if current in old(tree) && old(tree)[current].Directory? then old(tree)
                      else (old(tree) - {current})[current := Directory]
    {
      if current in tree && tree[current].Link? {
        Unlink(current);
      }
      if current in tree {
        if tree[current].Directory? {
          return;
        }
        Unlink(current);
      }
      MakeDirectory(current);
    }

    /** The same, seen from the tree that the loop started from. */
    method EnsureNextDirectory(current: Path, ghost before: Tree)
      requires Valid() && current != [] && tree == WithDirectories(before, Parent(current))
      modifies this
      ensures Valid() && tree == WithDirectories(before, current)
    {
      WithDirectoriesStep(before, current);
      assert Parent(current) in tree && tree[Parent(current)].Directory?;
      EnsureOneDirectory(current);
    }

    /** Turn `directory` and everything above it into real directories, unlinking what is in the way. */
    method EnsureDirectory(directory: Path)
      requires Valid()
      modifies this
      ensures Valid() && tree == WithDirectories(old(tree), directory)
    {
      assert WithDirectories(tree, directory[..0]) == tree;
      ghost var before := tree;
      var i := 0;
      while i < |directory|
        invariant 0 <= i <= |directory|
        invariant Valid() && tree == WithDirectories(before, directory[..i])
      {
        assert Parent(directory[..i + 1]) == directory[..i];
        EnsureNextDirectory(directory[..i + 1], before);
        i := i + 1;
      }
      assert directory[..i] == directory;
    }

    /** Write a captured file back, replacing whatever is at its path now. */
    method WriteFile(p: Path, content: Bytes)
      requires Valid() && p != []
      modifies this
      ensures Valid() && tree == Written(old(tree), p, content)
    {
      ghost var before := tree;
      EnsureDirectory(Parent(p));
      ghost var ready := tree;
      if p in tree && tree[p].Link? {
        LeafHasNothingBelow(tree, p);
        WithoutLeaf(tree, p);
        Unlink(p);
      } else if p in tree {
        if tree[p].Directory? {
          RemoveTree(p);
        } else {
          LeafHasNothingBelow(tree, p);
          WithoutLeaf(tree, p);
          Unlink(p);
        }
      } else {
        AbsentHasNothingBelow(tree, p);
        WithoutLeaf(tree, p);
      }
      assert tree == Without(ready, p);
      assert !Covers(p, Parent(p));
      WriteBytes(p, content);
      WrittenFromDirectories(before, p, content);
    }

    /** Delete a regular file; anything else at the path is left alone. */
    method DeleteRegularFile(p: Path)
      requires Valid()
      modifies this
      ensures Valid()
      ensures tree == if p in old(tree) && old(tree)[p].File? then old(tree) - {p} else old(tree)
    {
      if p in tree && tree[p].File? {
        Unlink(p);
      }
    }
  }
}
