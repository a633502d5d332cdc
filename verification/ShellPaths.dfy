/**
Lexical paths: POSIX normalisation and joining of path strings, the fold of `cd` words, and when a path argument is
flagged as leaving the workspace.
*/
module ShellPaths {
  // Components

  /** Cut at every '/'. */
  function Split(path: string): (parts: seq<string>)
    ensures parts != []
  {
    if path == [] then [[]]
    else
      var rest := Split(path[1..]);
      if path[0] == '/' then [[]] + rest else [[path[0]] + rest[0]] + rest[1..]
  }

  predicate Proper(part: string) {
    part != "" && part != "."
  }

  function ProperOnes(parts: seq<string>): seq<string> {
    if parts == [] then []
    else (if Proper(parts[0]) then [parts[0]] else []) + ProperOnes(parts[1..])
  }

  function Components(path: string): seq<string> {
    ProperOnes(Split(path))
  }

  /** Leading slashes as they count: none, one, or exactly two. */
  function Slashes(path: string): (n: nat)
    ensures n <= 2
  {
    if |path| == 0 || path[0] != '/' then 0
    else if |path| >= 2 && path[1] == '/' && !(|path| >= 3 && path[2] == '/') then 2
    else 1
  }

  function Joined(parts: seq<string>): string {
    if parts == [] then [] else if |parts| == 1 then parts[0] else parts[0] + "/" + Joined(parts[1..])
  }

  // Normalisation

  /** One component more on the stack of components. */
  function Push(stack: seq<string>, part: string, rooted: bool): seq<string> {
    if part != ".." || (!rooted && stack == []) || (stack != [] && stack[|stack| - 1] == "..") then stack + [part]
    else if stack != [] then stack[..|stack| - 1]
    else stack
  }

  function Reduce(stack: seq<string>, parts: seq<string>, rooted: bool): seq<string>
    decreases parts
  {
    if parts == [] then stack else Reduce(Push(stack, parts[0], rooted), parts[1..], rooted)
  }

  function Shown(slashes: nat, parts: seq<string>): string {
    var text := (if slashes == 0 then "" else if slashes == 1 then "/" else "//") + Joined(parts);
    if text == "" then "." else text
  }

  /** `posixpath.normpath`. */
  function Normpath(path: string): string {
    Shown(Slashes(path), Reduce([], Components(path), Slashes(path) > 0))
  }

  /** `posixpath.join` of two. */
  function Join(a: string, b: string): string {
    if b != "" && b[0] == '/' then b
    else if a == "" || a[|a| - 1] == '/' then a + b
    else a + "/" + b
  }

  // Components of joined and of shown paths

  lemma {:induction false} SplitAppend(a: string, b: string)
    ensures Split(a + "/" + b) == Split(a) + Split(b)
  {
    if a == [] {
      assert (a + "/" + b)[1..] == b;
    } else {
      assert (a + "/" + b)[1..] == a[1..] + "/" + b;
      SplitAppend(a[1..], b);
    }
  }

  lemma {:induction false} ProperAppend(a: seq<string>, b: seq<string>)
    ensures ProperOnes(a + b) == ProperOnes(a) + ProperOnes(b)
  {
    if a == [] {
      assert a + b == b;
    } else {
      assert (a + b)[1..] == a[1..] + b;
      ProperAppend(a[1..], b);
    }
  }

  lemma ComponentsOfTwo(a: string, b: string)
    ensures Components(a + "/" + b) == Components(a) + Components(b)
  {
    SplitAppend(a, b);
    ProperAppend(Split(a), Split(b));
  }

  predicate Plain(part: string) {
    Proper(part) && '/' !in part
  }

  lemma {:induction false} SplitOfPlain(part: string)
    requires '/' !in part
    ensures Split(part) == [part]
  {
    if part != [] {
      assert part[0] in part && forall c <- part[1..] :: c in part;
      SplitOfPlain(part[1..]);
      assert [part[0]] + part[1..] == part;
    }
  }

  lemma {:induction false} ComponentsOfJoined(parts: seq<string>)
    requires forall p <- parts :: Plain(p)
    ensures Components(Joined(parts)) == parts
  {
    if parts != [] {
      assert Plain(parts[0]);
      SplitOfPlain(parts[0]);
      assert ProperOnes([parts[0]]) == [parts[0]] + ProperOnes([]);
      if |parts| > 1 {
        ComponentsOfJoined(parts[1..]);
        ComponentsOfTwo(parts[0], Joined(parts[1..]));
        assert Components(parts[0]) == [parts[0]];
      }
    }
  }

  lemma {:induction false} SplitPartsHaveNoSlash(path: string)
    ensures forall p <- Split(path) :: '/' !in p
  {
    if path != [] {
      SplitPartsHaveNoSlash(path[1..]);
      assert Split(path[1..])[0] in Split(path[1..]);
    }
  }

  lemma {:induction false} ProperOnesAreProper(parts: seq<string>)
    requires forall p <- parts :: '/' !in p
    ensures forall p <- ProperOnes(parts) :: Plain(p)
  {
    if parts != [] {
      ProperOnesAreProper(parts[1..]);
    }
  }

  lemma ComponentsArePlain(path: string)
    ensures forall p <- Components(path) :: Plain(p)
  {
    SplitPartsHaveNoSlash(path);
    ProperOnesAreProper(Split(path));
  }

  lemma {:induction false} ReduceIsPlain(stack: seq<string>, parts: seq<string>, rooted: bool)
    requires (forall p <- stack :: Plain(p)) && forall p <- parts :: Plain(p)
    ensures forall p <- Reduce(stack, parts, rooted) :: Plain(p)
    decreases parts
  {
    if parts != [] {
      ReduceIsPlain(Push(stack, parts[0], rooted), parts[1..], rooted);
    }
  }

  lemma DotIsRead()
    ensures Slashes(".") == 0 && Components(".") == []
  {
    SplitOfPlain(".");
    assert ProperOnes(["."]) == ProperOnes([]);
  }

  lemma SlashesAreRead(slashes: nat, text: string)
    requires 0 < slashes <= 2 && (text == "" || text[0] != '/')
    ensures var path := (if slashes == 1 then "/" else "//") + text;
      Slashes(path) == slashes && Components(path) == Components(text)
  {
    SlashAddsNothing(text);
    SlashAddsNothing("/" + text);
    assert "//" + text == "/" + ("/" + text);
  }

  /** A path shown from slashes and components is read as them again. */
  lemma ShownIsRead(slashes: nat, parts: seq<string>)
    requires slashes <= 2 && forall p <- parts :: Plain(p)
    ensures Slashes(Shown(slashes, parts)) == slashes && Components(Shown(slashes, parts)) == parts
  {
    var text := Joined(parts);
    ComponentsOfJoined(parts);
    if parts != [] {
      JoinedStartsPlain(parts);
    }
    if slashes > 0 {
      SlashesAreRead(slashes, text);
    } else {
      DotIsRead();
      assert "" + text == text;
    }
  }

  lemma JoinedStartsPlain(parts: seq<string>)
    requires parts != [] && forall p <- parts :: Plain(p)
    ensures Joined(parts) != "" && Joined(parts)[0] != '/'
  {
    assert Plain(parts[0]) && parts[0][0] in parts[0];
  }

  lemma SlashAddsNothing(path: string)
    ensures Components("/" + path) == Components(path)
  {
    assert "" + "/" + path == "/" + path;
    ComponentsOfTwo("", path);
    assert Split("") == [""] && ProperOnes([""]) == ProperOnes([]);
  }

  // Reduced stacks

  /** No `..`, except at the bottom of a path that is not rooted. */
  predicate Reduced(stack: seq<string>, rooted: bool) {
    && (rooted ==> forall i :: 0 <= i < |stack| ==> stack[i] != "..")
    && forall i :: 0 < i < |stack| && stack[i] == ".." ==> stack[i - 1] == ".."
  }

  lemma {:induction false} ReduceIsReduced(stack: seq<string>, parts: seq<string>, rooted: bool)
    requires Reduced(stack, rooted)
    ensures Reduced(Reduce(stack, parts, rooted), rooted)
    decreases parts
  {
    if parts != [] {
      ReduceIsReduced(Push(stack, parts[0], rooted), parts[1..], rooted);
    }
  }

  lemma {:induction false} ReduceAppend(stack: seq<string>, a: seq<string>, b: seq<string>, rooted: bool)
    ensures Reduce(stack, a + b, rooted) == Reduce(Reduce(stack, a, rooted), b, rooted)
    decreases a
  {
    if a == [] {
      assert a + b == b;
    } else {
      assert (a + b)[1..] == a[1..] + b;
      ReduceAppend(Push(stack, a[0], rooted), a[1..], b, rooted);
    }
  }

  /** A reduced stack is its own reduction. */
  lemma {:induction false} ReduceReduced(done: seq<string>, rest: seq<string>, rooted: bool)
    requires Reduced(done + rest, rooted)
    ensures Reduce(done, rest, rooted) == done + rest
    decreases rest
  {
    if rest == [] {
      assert done + rest == done;
    } else {
      var all := done + rest;
      assert all[|done|] == rest[0];
      if rest[0] == ".." && done != [] {
        assert all[|done| - 1] == done[|done| - 1];
      }
      assert done + [rest[0]] + rest[1..] == all;
      ReduceReduced(done + [rest[0]], rest[1..], rooted);
    }
  }

  lemma ReduceOfReduction(parts: seq<string>, more: seq<string>, rooted: bool)
    ensures Reduce([], Reduce([], parts, rooted) + more, rooted) == Reduce([], parts + more, rooted)
  {
    var reduced := Reduce([], parts, rooted);
    ReduceIsReduced([], parts, rooted);
    assert [] + reduced == reduced;
    ReduceReduced([], reduced, rooted);
    ReduceAppend([], reduced, more, rooted);
    ReduceAppend([], parts, more, rooted);
  }

  lemma NormpathIsRead(path: string)
    ensures Slashes(Normpath(path)) == Slashes(path)
    ensures Components(Normpath(path)) == Reduce([], Components(path), Slashes(path) > 0)
  {
    ComponentsArePlain(path);
    ReduceIsPlain([], Components(path), Slashes(path) > 0);
    ShownIsRead(Slashes(path), Reduce([], Components(path), Slashes(path) > 0));
  }

  /** Normalising twice changes nothing. */
  lemma NormpathIsIdempotent(path: string)
    ensures Normpath(Normpath(path)) == Normpath(path)
  {
    NormpathIsRead(path);
    var rooted := Slashes(path) > 0;
    ReduceOfReduction(Components(path), [], rooted);
    assert Reduce([], Components(path), rooted) + [] == Reduce([], Components(path), rooted);
    assert Components(path) + [] == Components(path);
  }

  // Joining

  lemma ComponentsOfJoin(a: string, b: string)
    requires b == "" || b[0] != '/'
    ensures Components(Join(a, b)) == Components(a) + Components(b)
  {
    assert Split("") == [""] && ProperOnes([""]) == ProperOnes([]);
    if a == "" {
      assert a + b == b;
    } else if a[|a| - 1] == '/' {
      var front := a[..|a| - 1];
      assert a == front + "/" + "" && a + b == front + "/" + b;
      ComponentsOfTwo(front, "");
      ComponentsOfTwo(front, b);
    } else {
      ComponentsOfTwo(a, b);
    }
  }

  /** A relative path appended does not change how the leading slashes count. */
  lemma SlashesOfJoin(a: string, b: string)
    requires a != "" && (b == "" || b[0] != '/')
    ensures Slashes(Join(a, b)) == Slashes(a)
  {
    var all := Join(a, b);
    assert all[..|a|] == a;
    assert |a| < |all| ==> all[|a|] == if a[|a| - 1] == '/' then b[0] else '/';
    assert forall i :: 0 <= i < |a| ==> all[i] == a[i];
    if |a| == 2 && a[1] != '/' {
      assert all[1] != '/';
    }
  }

  /** Normalising first does not matter: the normal form of a joined path is that of the normalised base, joined. */
  lemma NormpathOfJoin(a: string, b: string)
    requires a != ""
    ensures Normpath(Join(Normpath(a), b)) == Normpath(Join(a, b))
  {
    if b == "" || b[0] != '/' {
      NormpathIsRead(a);
      NormpathIsNotEmpty(a);
      ComponentsOfJoin(a, b);
      ComponentsOfJoin(Normpath(a), b);
      SlashesOfJoin(a, b);
      SlashesOfJoin(Normpath(a), b);
      ReduceOfReduction(Components(a), Components(b), Slashes(a) > 0);
    }
  }

  lemma NormpathIsNotEmpty(path: string)
    ensures Normpath(path) != ""
  {
  }
}
