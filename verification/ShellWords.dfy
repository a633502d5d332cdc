/**
Words that the shell has still to expand: what makes a word one, and the light tidying that is safe for it.
*/
module ShellWords {
  predicate StartsName(c: char) {
    'a' <= c <= 'z' || 'A' <= c <= 'Z' || c == '_'
  }

  /** A command or a variable to expand, somewhere in the word. */
  predicate HasExpansion(word: string) {
    && word != []
    && (|| word[0] == '`'
        || (word[0] == '$' && |word| > 1 && (word[1] == '(' || word[1] == '{' || StartsName(word[1])))
        || HasExpansion(word[1..]))
  }

  predicate IsDynamic(word: string) {
    HasExpansion(word) || (word != "" && word[0] == '~')
  }

  predicate StartsDynamic(word: string) {
    word != "" && (word[0] == '$' || word[0] == '`' || word[0] == '~')
  }

  predicate HasDoubleSlash(path: string) {
    |path| >= 2 && ((path[0] == '/' && path[1] == '/') || HasDoubleSlash(path[1..]))
  }

  /** `path.replace("//", "/")`. */
  function Replaced(path: string): string {
    if path == [] then []
    else if |path| >= 2 && path[0] == '/' && path[1] == '/' then "/" + Replaced(path[2..])
    else [path[0]] + Replaced(path[1..])
  }

  /** One slash for each run of slashes. */
  function Collapsed(path: string): string {
    if path == [] then []
    else if |path| >= 2 && path[0] == '/' && path[1] == '/' then Collapsed(path[1..])
    else [path[0]] + Collapsed(path[1..])
  }

  function WithoutLastDot(path: string): string {
    if |path| > 2 && path[|path| - 2..] == "/." then path[..|path| - 2] else path
  }

  /** A path with an expansion in it, tidied as far as that is safe. */
  function Tidied(path: string): string {
    WithoutLastDot(Collapsed(path))
  }

  lemma {:induction false} CollapsedAfterSlash(path: string)
    ensures Collapsed("/" + Collapsed(path)) == Collapsed("/" + path)
    ensures Collapsed(Collapsed(path)) == Collapsed(path)
    decreases |path|
  {
    var all := "/" + path;
    assert all[1..] == path;
    if path != [] {
      CollapsedAfterSlash(path[1..]);
      var once := Collapsed(path);
      assert ("/" + once)[1..] == once;
      if path[0] != '/' {
        assert once[1..] == Collapsed(path[1..]);
      } else {
        assert path == "/" + path[1..];
      }
    }
  }

  lemma CollapsedAlike(c: char, a: string, b: string)
    requires Collapsed(a) == Collapsed(b)
    ensures Collapsed([c] + a) == Collapsed([c] + b)
  {
    assert ([c] + a)[1..] == a && ([c] + b)[1..] == b;
    if c == '/' {
      CollapsedAfterSlash(a);
      CollapsedAfterSlash(b);
      assert [c] + a == "/" + a && [c] + b == "/" + b;
    }
  }

  lemma {:induction false} ReplacedCollapses(path: string)
    ensures Collapsed(Replaced(path)) == Collapsed(path)
    ensures HasDoubleSlash(path) ==> |Replaced(path)| < |path|
    ensures |Replaced(path)| <= |path|
    ensures !HasDoubleSlash(path) ==> Collapsed(path) == path
    decreases |path|
  {
    if path != [] {
      if |path| >= 2 && path[0] == '/' && path[1] == '/' {
        ReplacedCollapses(path[2..]);
        CollapsedAlike('/', Replaced(path[2..]), path[2..]);
        assert path[1..] == ['/'] + path[2..];
      } else {
        ReplacedCollapses(path[1..]);
        CollapsedAlike(path[0], Replaced(path[1..]), path[1..]);
        assert path == [path[0]] + path[1..];
      }
    }
  }

  method NormalizeDynamicPath(path: string) returns (tidied: string)
    ensures tidied == Tidied(path)
  {
    tidied := path;
    while HasDoubleSlash(tidied)
      invariant Collapsed(tidied) == Collapsed(path)
      decreases |tidied|
    {
      ReplacedCollapses(tidied);
      tidied := Replaced(tidied);
    }
    ReplacedCollapses(tidied);
    if |tidied| > 2 && tidied[|tidied| - 2..] == "/." {
      tidied := tidied[..|tidied| - 2];
    }
  }

  lemma {:induction false} CollapsedKeepsFirst(first: string, rest: string)
    requires '/' !in first
    ensures first + "/" <= Collapsed(first + "/" + rest)
    decreases |first|
  {
    var all := first + "/" + rest;
    if first == [] {
      CollapsedStartsWithSlash(all);
      assert first + "/" == "/";
    } else {
      assert first[0] in first && forall c <- first[1..] :: c in first;
      assert all[1..] == first[1..] + "/" + rest;
      CollapsedKeepsFirst(first[1..], rest);
      assert first + "/" == [first[0]] + (first[1..] + "/");
    }
  }

  lemma {:induction false} CollapsedStartsWithSlash(path: string)
    requires path != "" && path[0] == '/'
    ensures Collapsed(path) != "" && Collapsed(path)[0] == '/'
    decreases |path|
  {
    if |path| >= 2 && path[1] == '/' {
      CollapsedStartsWithSlash(path[1..]);
    }
  }

  /** Tidying leaves the first component as it is. */
  lemma TidiedKeepsFirst(first: string, rest: string)
    requires first != "" && '/' !in first
    ensures var text := Tidied(first + "/" + rest); text == first || first + "/" <= text
  {
    var all := Collapsed(first + "/" + rest);
    CollapsedKeepsFirst(first, rest);
    assert all[|first|] == (first + "/")[|first|] == '/';
    assert forall i :: 0 <= i < |first| ==> all[i] == (first + "/")[i] == first[i];
    if |all| > 2 && all[|all| - 2..] == "/." {
      assert all[|all| - 2] == all[|all| - 2..][0] == '/' && all[|all| - 1] == all[|all| - 2..][1] == '.';
    }
  }
}
