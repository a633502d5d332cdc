/**
Scanning a shell command for the permission engine: cutting it into simple commands, and following `cd` through them
to find the path arguments that leave the workspace. How a simple command is cut into words, and which of its words
are paths, is given.
*/
module ShellCommands {
  import opened PythonText
  import opened Sequences
  import opened ShellPaths
  import opened ShellWords

  // Cutting at operators outside of quotes

  datatype Quote = Unquoted | Quoted(mark: char)

  /** A simple command as written, and the operator after it; the last has none. */
  datatype Piece = Piece(text: string, operator: string)

  function OperatorLength(s: string): (n: nat)
    ensures n <= |s|
  {
    if |s| >= 2 && s[0] == s[1] && (s[0] == '&' || s[0] == '|') then 2
    else if s != [] && (s[0] == ';' || s[0] == '|' || s[0] == '\n') then 1
    else 0
  }

  /** An operator is looked for outside of quotes, and not right after a backslash. */
  predicate AtOperator(s: string, quote: Quote, escaped: bool) {
    !escaped && quote.Unquoted? && OperatorLength(s) > 0
  }

  function NextQuote(c: char, quote: Quote, escaped: bool): Quote {
    if escaped || (c == '\\' && quote != Quoted('\'')) then quote
    else match quote
      case Quoted(mark) => if c == mark then Unquoted else quote
      case Unquoted => if c == '\'' || c == '"' then Quoted(c) else Unquoted
  }

  function NextEscaped(c: char, quote: Quote, escaped: bool): bool {
    !escaped && c == '\\' && quote != Quoted('\'')
  }

  function Before(c: char, pieces: seq<Piece>): seq<Piece> {
    if pieces == [] then [Piece([c], "")] else [Piece([c] + pieces[0].text, pieces[0].operator)] + pieces[1..]
  }

  function Pieces(s: string, quote: Quote, escaped: bool): (pieces: seq<Piece>)
    ensures pieces != []
  {
    if s == [] then [Piece("", "")]
    else if AtOperator(s, quote, escaped) then
      [Piece("", s[..OperatorLength(s)])] + Pieces(s[OperatorLength(s)..], Unquoted, false)
    else Before(s[0], Pieces(s[1..], NextQuote(s[0], quote, escaped), NextEscaped(s[0], quote, escaped)))
  }

  function StrippedTexts(pieces: seq<Piece>): seq<string> {
    if pieces == [] then [] else [Stripped(pieces[0].text)] + StrippedTexts(pieces[1..])
  }

  function Written(pieces: seq<Piece>): string {
    if pieces == [] then [] else pieces[0].text + pieces[0].operator + Written(pieces[1..])
  }

  lemma WrittenBefore(c: char, pieces: seq<Piece>)
    requires pieces != []
    ensures Written(Before(c, pieces)) == [c] + Written(pieces)
  {
    assert Before(c, pieces)[1..] == pieces[1..];
    assert [c] + pieces[0].text + pieces[0].operator + Written(pieces[1..]) ==
           [c] + (pieces[0].text + pieces[0].operator + Written(pieces[1..]));
  }

  lemma WrittenOne(piece: Piece, rest: seq<Piece>)
    ensures Written([piece] + rest) == piece.text + piece.operator + Written(rest)
  {
    assert ([piece] + rest)[1..] == rest;
  }

  /** Nothing of the command is lost or moved. */
  lemma {:induction false} PiecesAreTheCommand(s: string, quote: Quote, escaped: bool)
    ensures Written(Pieces(s, quote, escaped)) == s
    decreases |s|
  {
    if s == [] {
      WrittenOne(Piece("", ""), []);
    } else if AtOperator(s, quote, escaped) {
      var n := OperatorLength(s);
      PiecesAreTheCommand(s[n..], Unquoted, false);
      WrittenOne(Piece("", s[..n]), Pieces(s[n..], Unquoted, false));
      assert s == [] + s[..n] + s[n..];
    } else {
      var next, esc := NextQuote(s[0], quote, escaped), NextEscaped(s[0], quote, escaped);
      PiecesAreTheCommand(s[1..], next, esc);
      WrittenBefore(s[0], Pieces(s[1..], next, esc));
    }
  }

  /** What the splitting loop makes of the rest `s`, with the segment `current` begun and `segments` done. */
  function SplitFrom(s: string, quote: Quote, escaped: bool, current: string, segments: seq<string>): seq<string>
    decreases |s|
  {
    if s == [] then segments + [Stripped(current)]
    else if AtOperator(s, quote, escaped) then
      SplitFrom(s[OperatorLength(s)..], Unquoted, false, [], segments + [Stripped(current)])
    else
      SplitFrom(s[1..], NextQuote(s[0], quote, escaped), NextEscaped(s[0], quote, escaped), current + [s[0]], segments)
  }

  method SplitSimpleCommands(command: string) returns (segments: seq<string>)
    ensures segments == SplitFrom(command, Unquoted, false, [], [])
  {
    segments := [];
    var start: nat, index: nat := 0, 0;
    var quote, escaped := Unquoted, false;
    assert command[0..] == command;
    while index < |command|
      invariant start <= index <= |command|
      invariant SplitFrom(command[index..], quote, escaped, command[start..index], segments) ==
                SplitFrom(command, Unquoted, false, [], [])
      decreases |command| - index
    {
      var c := command[index];
      if AtOperator(command[index..], quote, escaped) {
        var n := OperatorLength(command[index..]);
        assert command[index..][n..] == command[index + n..];
        segments := segments + [Stripped(command[start..index])];
        index := index + n;
        start := index;
      } else {
        assert command[index..][1..] == command[index + 1..];
        assert command[start..index] + [c] == command[start..index + 1];
        quote, escaped := NextQuote(c, quote, escaped), NextEscaped(c, quote, escaped);
        index := index + 1;
      }
    }
    assert command[start..index] == command[start..];
    segments := segments + [Stripped(command[start..])];
  }

  /** The pieces of a text whose first piece begins with `sofar`. */
  function After(sofar: string, pieces: seq<Piece>): seq<Piece>
    requires pieces != []
  {
    [Piece(sofar + pieces[0].text, pieces[0].operator)] + pieces[1..]
  }

  lemma AfterOneMore(sofar: string, c: char, pieces: seq<Piece>)
    requires pieces != []
    ensures After(sofar + [c], pieces) == After(sofar, Before(c, pieces))
  {
    assert sofar + [c] + pieces[0].text == sofar + ([c] + pieces[0].text);
  }

  lemma AfterNothing(pieces: seq<Piece>)
    requires pieces != []
    ensures After([], pieces) == pieces
  {
    assert [] + pieces[0].text == pieces[0].text;
  }

  lemma StrippedOne(piece: Piece, rest: seq<Piece>)
    ensures StrippedTexts([piece] + rest) == [Stripped(piece.text)] + StrippedTexts(rest)
  {
    assert ([piece] + rest)[1..] == rest;
  }

  lemma {:induction false} SplitFromIsPieces(s: string, quote: Quote, escaped: bool, current: string,
                                             segments: seq<string>)
    ensures SplitFrom(s, quote, escaped, current, segments) ==
            segments + StrippedTexts(After(current, Pieces(s, quote, escaped)))
    decreases |s|
  {
    if s == [] {
      assert current + [] == current;
      StrippedOne(Piece(current, ""), []);
      assert After(current, [Piece("", "")]) == [Piece(current, "")] + [];
    } else if AtOperator(s, quote, escaped) {
      var n := OperatorLength(s);
      var rest := Pieces(s[n..], Unquoted, false);
      SplitFromIsPieces(s[n..], Unquoted, false, [], segments + [Stripped(current)]);
      AfterNothing(rest);
      assert current + [] == current;
      assert After(current, Pieces(s, quote, escaped)) == [Piece(current, s[..n])] + rest;
      StrippedOne(Piece(current, s[..n]), rest);
      Regrouped(segments, [Stripped(current)], StrippedTexts(rest), [Stripped(current)] + StrippedTexts(rest),
                segments + ([Stripped(current)] + StrippedTexts(rest)));
    } else {
      var next, esc := NextQuote(s[0], quote, escaped), NextEscaped(s[0], quote, escaped);
      SplitFromIsPieces(s[1..], next, esc, current + [s[0]], segments);
      AfterOneMore(current, s[0], Pieces(s[1..], next, esc));
    }
  }

  /** The loop finds the pieces of the command, stripped. */
  lemma SplitIsPieces(command: string)
    ensures SplitFrom(command, Unquoted, false, [], []) == StrippedTexts(Pieces(command, Unquoted, false))
  {
    SplitFromIsPieces(command, Unquoted, false, [], []);
    AfterNothing(Pieces(command, Unquoted, false));
    assert [] + StrippedTexts(Pieces(command, Unquoted, false)) == StrippedTexts(Pieces(command, Unquoted, false));
  }

  /** The operators of a piece are all cut: splitting its text again, as it was read, finds none. */
  lemma {:induction false} FirstPieceIsWhole(s: string, quote: Quote, escaped: bool)
    ensures var first := Pieces(s, quote, escaped)[0]; Pieces(first.text, quote, escaped) == [Piece(first.text, "")]
    decreases |s|
  {
    if s != [] && !AtOperator(s, quote, escaped) {
      var next, esc := NextQuote(s[0], quote, escaped), NextEscaped(s[0], quote, escaped);
      FirstPieceIsWhole(s[1..], next, esc);
      var rest := Pieces(s[1..], next, esc)[0];
      var text := [s[0]] + rest.text;
      PieceIsPrefix(s[1..], next, esc);
      assert text[1..] == rest.text;
      assert OperatorLength(text) > 0 ==> OperatorLength(s) > 0;
      assert !AtOperator(text, quote, escaped);
    }
  }

  lemma {:induction false} PieceIsPrefix(s: string, quote: Quote, escaped: bool)
    ensures Pieces(s, quote, escaped)[0].text <= s
    decreases |s|
  {
    if s != [] && !AtOperator(s, quote, escaped) {
      PieceIsPrefix(s[1..], NextQuote(s[0], quote, escaped), NextEscaped(s[0], quote, escaped));
    }
  }

  /** Splitting it again finds no operator. */
  predicate IsWhole(piece: Piece) {
    Pieces(piece.text, Unquoted, false) == [Piece(piece.text, "")]
  }

  lemma {:induction false} EveryPieceIsWhole(s: string, quote: Quote, escaped: bool, i: nat)
    requires 0 < i < |Pieces(s, quote, escaped)|
    ensures IsWhole(Pieces(s, quote, escaped)[i])
    decreases |s|
  {
    if AtOperator(s, quote, escaped) {
      var rest := s[OperatorLength(s)..];
      assert Pieces(s, quote, escaped)[i] == Pieces(rest, Unquoted, false)[i - 1];
      if i == 1 {
        FirstPieceIsWhole(rest, Unquoted, false);
      } else {
        EveryPieceIsWhole(rest, Unquoted, false, i - 1);
      }
    } else {
      var next, esc := NextQuote(s[0], quote, escaped), NextEscaped(s[0], quote, escaped);
      assert Pieces(s, quote, escaped)[i] == Pieces(s[1..], next, esc)[i];
      EveryPieceIsWhole(s[1..], next, esc, i);
    }
  }

  /** The cut is complete: no simple command, as written, has one of those operators outside of its quotes. A single
      `&` is not among them. */
  lemma PiecesHaveNoOperators(command: string, piece: Piece)
    requires piece in Pieces(command, Unquoted, false)
    ensures IsWhole(piece)
  {
    var pieces := Pieces(command, Unquoted, false);
    var i :| 0 <= i < |pieces| && pieces[i] == piece;
    if i == 0 {
      FirstPieceIsWhole(command, Unquoted, false);
    } else {
      EveryPieceIsWhole(command, Unquoted, false, i);
    }
  }

  // Path arguments

  /** A simple command: its name, "" if it has none, and its path words. */
  datatype Command = Command(name: string, paths: seq<string>)

  datatype Entry = Entry(raw: string, path: string, command: string, workspaceEscape: bool, dynamic: bool)

  predicate WorkspaceEscape(path: string) {
    "/" <= path || path == ".." || "../" <= path
  }

  function NormalizeWorkdir(workdir: string): string {
    if workdir == "" || workdir == "." then "." else Normpath(workdir)
  }

  function Normalized(path: string, dynamic: bool): string {
    if dynamic then Tidied(path) else Normpath(path)
  }

  function NormalizePath(raw: string, workdir: string): string {
    var dynamic := IsDynamic(raw);
    if dynamic && StartsDynamic(raw) then Tidied(raw)
    else if "/" <= raw || "~" <= raw then Normalized(raw, dynamic)
    else
      var base := NormalizeWorkdir(workdir);
      if base == "" || base == "." then Normalized(raw, dynamic) else Normalized(Join(base, raw), dynamic)
  }

  function EntryOf(raw: string, name: string, workdir: string): Entry {
    var path := NormalizePath(raw, workdir);
    Entry(raw, path, name, WorkspaceEscape(path), IsDynamic(raw))
  }

  function EntriesOf(name: string, paths: seq<string>, workdir: string): seq<Entry> {
    if paths == [] then []
    else (if paths[0] == "" then [] else [EntryOf(paths[0], name, workdir)]) + EntriesOf(name, paths[1..], workdir)
  }

  predicate ChangesDirectory(name: string) {
    name == "cd" || name == "pushd"
  }

  function NextWorkdir(c: Command, workdir: string): string {
    var entries := EntriesOf(c.name, c.paths, workdir);
    if ChangesDirectory(c.name) && entries != [] && !entries[0].dynamic then entries[0].path else workdir
  }

  function Scanned(commands: seq<Command>, workdir: string): seq<Entry>
    decreases commands
  {
    if commands == [] then []
    else if commands[0].name == "" then Scanned(commands[1..], workdir)
    else
      EntriesOf(commands[0].name, commands[0].paths, workdir)
      + Scanned(commands[1..], NextWorkdir(commands[0], workdir))
  }

  method PathEntries(name: string, paths: seq<string>, workdir: string) returns (entries: seq<Entry>)
    ensures entries == EntriesOf(name, paths, workdir)
  {
    entries := [];
    var i := |paths|;
    while i > 0
      invariant 0 <= i <= |paths| && entries == EntriesOf(name, paths[i..], workdir)
    {
      i := i - 1;
      assert paths[i..][1..] == paths[i + 1..];
      if paths[i] != "" {
        entries := [EntryOf(paths[i], name, workdir)] + entries;
      }
    }
  }

  method ScanCommand(commands: seq<Command>, workdir: string)
    returns (pathArgs: seq<Entry>, workspaceEscape: bool, dynamicPaths: bool)
    ensures pathArgs == Scanned(commands, NormalizeWorkdir(workdir))
    ensures workspaceEscape <==> exists e <- pathArgs :: e.workspaceEscape
    ensures dynamicPaths <==> exists e <- pathArgs :: e.dynamic
  {
    pathArgs, workspaceEscape, dynamicPaths := [], false, false;
    var current := NormalizeWorkdir(workdir);
    var i := 0;
    assert commands[0..] == commands;
    while i < |commands|
      invariant 0 <= i <= |commands|
      invariant pathArgs + Scanned(commands[i..], current) == Scanned(commands, NormalizeWorkdir(workdir))
      invariant workspaceEscape <==> exists e <- pathArgs :: e.workspaceEscape
      invariant dynamicPaths <==> exists e <- pathArgs :: e.dynamic
    {
      var c := commands[i];
      assert commands[i..][1..] == commands[i + 1..];
      if c.name != "" {
        var added := PathEntries(c.name, c.paths, current);
        var flagged, expanded := AnyFlags(added);
        Regrouped(pathArgs, added, Scanned(commands[i + 1..], NextWorkdir(c, current)), Scanned(commands[i..], current),
                  Scanned(commands, NormalizeWorkdir(workdir)));
        pathArgs := pathArgs + added;
        workspaceEscape, dynamicPaths := workspaceEscape || flagged, dynamicPaths || expanded;
        if ChangesDirectory(c.name) && added != [] && !added[0].dynamic {
          current := added[0].path;
        }
      }
      i := i + 1;
    }
    assert pathArgs + [] == pathArgs;
  }

  method AnyFlags(entries: seq<Entry>) returns (escape: bool, dynamic: bool)
    ensures escape <==> exists e <- entries :: e.workspaceEscape
    ensures dynamic <==> exists e <- entries :: e.dynamic
  {
    escape, dynamic := false, false;
    var i := 0;
    while i < |entries|
      invariant 0 <= i <= |entries|
      invariant escape <==> exists e <- entries[..i] :: e.workspaceEscape
      invariant dynamic <==> exists e <- entries[..i] :: e.dynamic
    {
      assert entries[..i + 1] == entries[..i] + [entries[i]];
      escape, dynamic := escape || entries[i].workspaceEscape, dynamic || entries[i].dynamic;
      i := i + 1;
    }
    assert entries[..|entries|] == entries;
  }

  // What the flag means

  /** Walking the components from `depth` levels below the root goes above it at some point. */
  predicate Rises(parts: seq<string>, depth: nat)
    decreases parts
  {
    if parts == [] then false
    else if parts[0] == ".." then depth == 0 || Rises(parts[1..], depth - 1)
    else Rises(parts[1..], depth + 1)
  }

  predicate Leaves(path: string) {
    "/" <= path || Rises(Components(path), 0)
  }

  lemma {:induction false} AboveStaysAbove(stack: seq<string>, parts: seq<string>)
    requires stack != [] && stack[0] == ".." && Reduced(stack, false)
    ensures var all := Reduce(stack, parts, false); all != [] && all[0] == ".."
    decreases parts
  {
    if parts != [] {
      AboveStaysAbove(Push(stack, parts[0], false), parts[1..]);
    }
  }

  /** From a stack without `..`, as deep as `depth`, the walk rises exactly if the reduction begins with `..`. */
  lemma {:induction false} RisesIffReductionDoes(stack: seq<string>, parts: seq<string>)
    requires forall i :: 0 <= i < |stack| ==> stack[i] != ".."
    ensures var all := Reduce(stack, parts, false); Rises(parts, |stack|) <==> all != [] && all[0] == ".."
    decreases parts
  {
    if parts != [] {
      if parts[0] == ".." && stack == [] {
        AboveStaysAbove([".."], parts[1..]);
        assert Push(stack, parts[0], false) == [".."];
      } else {
        RisesIffReductionDoes(Push(stack, parts[0], false), parts[1..]);
      }
    }
  }

  lemma EscapeOfShown(parts: seq<string>)
    requires forall p <- parts :: Plain(p)
    ensures WorkspaceEscape(Shown(0, parts)) <==> parts != [] && parts[0] == ".."
  {
    if parts != [] {
      JoinedStartsPlain(parts);
      var text := Joined(parts);
      assert "" + text == text;
      assert Plain(parts[0]);
      assert parts[0] <= text;
      if |parts| > 1 {
        assert text == parts[0] + "/" + Joined(parts[1..]);
      }
      EscapeOfFirst(parts[0], text);
    } else {
      assert Shown(0, parts) == ".";
      assert "/"[0] != "."[0];
    }
  }

  lemma EscapeOfFirst(first: string, text: string)
    requires first != "" && '/' !in first && (text == first || first + "/" <= text)
    ensures WorkspaceEscape(text) <==> first == ".."
  {
    forall i | 0 <= i < |first| ensures first[i] != '/' {
      assert first[i] in first;
    }
    assert forall i :: 0 <= i < |first| ==> text[i] == first[i];
    assert text != first ==> (first + "/")[|first|] == '/' && text[|first|] == '/';
    assert "/"[0] != text[0];
    assert text == ".." ==> text[0] == '.' && text[1] == '.' && |text| == 2;
    if "../" <= text {
      assert text[0] == '.' && text[1] == '.' && text[2] == '/';
      assert |first| == 2 && first[0] == '.' && first[1] == '.';
    }
    if first == ".." && text != first {
      assert first + "/" == "../";
    }
  }

  /** A normalised path is flagged exactly if the path is absolute, or its walk goes above the root. */
  lemma EscapeIffLeaves(path: string)
    ensures WorkspaceEscape(Normpath(path)) <==> Leaves(path)
  {
    var parts := Components(path);
    ComponentsArePlain(path);
    if "/" <= path {
      NormpathIsRead(path);
      assert Slashes(Normpath(path)) > 0;
    } else {
      assert Slashes(path) == 0;
      ReduceIsPlain([], parts, false);
      EscapeOfShown(Reduce([], parts, false));
      RisesIffReductionDoes([], parts);
    }
  }

  // The fold of `cd`

  function FirstNonEmpty(paths: seq<string>): string {
    if paths == [] then "" else if paths[0] != "" then paths[0] else FirstNonEmpty(paths[1..])
  }

  /** Whether a word with an expansion is flagged in `directory`: by how it starts, or by where the directory is. */
  predicate DynamicLeaves(word: string, directory: string) {
    if StartsDynamic(word) then false
    else if "/" <= word then true
    else if Normpath(directory) == "." then "../" <= word
    else Leaves(directory)
  }

  /** The entry of a word in a directory that is as it was written. A word without expansions gets the normal form of
      the joined words, and is flagged if those leave. */
  function WrittenEntry(word: string, name: string, directory: string): Entry {
    if IsDynamic(word) then
      Entry(word, NormalizePath(word, Normpath(directory)), name, DynamicLeaves(word, directory), true)
    else Entry(word, Normpath(Join(directory, word)), name, Leaves(Join(directory, word)), false)
  }

  /** The same entries, without normalising on the way: directories are joined as they are written. */
  function WrittenEntries(name: string, paths: seq<string>, directory: string): seq<Entry> {
    if paths == [] then []
    else
      (if paths[0] == "" then [] else [WrittenEntry(paths[0], name, directory)])
      + WrittenEntries(name, paths[1..], directory)
  }

  /** The directory after `c`: a target with expansions does not count. */
  function WrittenDirectory(c: Command, directory: string): string {
    var target := FirstNonEmpty(c.paths);
    if (c.name == "cd" || c.name == "pushd") && target != "" && !IsDynamic(target) then Join(directory, target)
    else directory
  }

  function WrittenScan(commands: seq<Command>, directory: string): seq<Entry>
    decreases commands
  {
    if commands == [] then []
    else if commands[0].name == "" then WrittenScan(commands[1..], directory)
    else
      WrittenEntries(commands[0].name, commands[0].paths, directory)
      + WrittenScan(commands[1..], WrittenDirectory(commands[0], directory))
  }

  lemma NormalizedFromDot(raw: string)
    requires raw != ""
    ensures Normpath(Join(".", raw)) == Normpath(raw)
  {
    if raw[0] != '/' {
      ComponentsOfJoin(".", raw);
      SlashesOfJoin(".", raw);
      SplitOfPlain(".");
      assert ProperOnes(["."]) == ProperOnes([]);
      assert [] + Components(raw) == Components(raw);
    }
  }

  lemma NormalizePathOfWritten(raw: string, directory: string)
    requires raw != "" && directory != "" && !IsDynamic(raw)
    ensures NormalizePath(raw, Normpath(directory)) == Normpath(Join(directory, raw))
  {
    NormpathIsIdempotent(directory);
    NormpathIsNotEmpty(directory);
    NormpathOfJoin(directory, raw);
    NormalizedFromDot(raw);
    assert "/" <= raw <==> raw[0] == '/';
  }

  /** What comes before the first slash of a path that has one. */
  lemma {:induction false} FirstOf(path: string) returns (first: string, rest: string)
    requires '/' in path
    ensures '/' !in first && path == first + "/" + rest
  {
    if path[0] == '/' {
      first, rest := "", path[1..];
    } else {
      assert '/' in path[1..];
      first, rest := FirstOf(path[1..]);
      first := [path[0]] + first;
    }
  }

  lemma {:induction false} NoSlashNoCollapse(path: string)
    requires '/' !in path
    ensures Collapsed(path) == path
  {
    if path != [] {
      assert path[0] in path && forall c <- path[1..] :: c in path;
      NoSlashNoCollapse(path[1..]);
    }
  }

  lemma NoSlashIsTidy(path: string)
    requires '/' !in path
    ensures Tidied(path) == path
  {
    NoSlashNoCollapse(path);
    if |path| > 2 {
      assert path[|path| - 2] in path && path[|path| - 2..][0] == path[|path| - 2];
    }
  }

  lemma TidiedStaysAbsolute(path: string)
    requires path != "" && path[0] == '/'
    ensures "/" <= Tidied(path)
  {
    CollapsedStartsWithSlash(path);
  }

  /** What comes first, up to a slash or the end, decides. */
  lemma TidiedEscape(path: string) returns (first: string)
    requires path != "" && path[0] != '/'
    ensures first != "" && first[0] == path[0] && '/' !in first && (path == first || first + "/" <= path)
    ensures WorkspaceEscape(Tidied(path)) <==> first == ".."
    ensures WorkspaceEscape(path) <==> first == ".."
  {
    if '/' in path {
      var rest;
      first, rest := FirstOf(path);
      assert path[0] == (first + "/")[0];
      TidiedKeepsFirst(first, rest);
    } else {
      first := path;
      NoSlashIsTidy(path);
    }
    EscapeOfFirst(first, Tidied(path));
    EscapeOfFirst(first, path);
  }

  /** A relative word with an expansion, in the directory of the workspace itself. */
  lemma TidiedWord(word: string)
    requires word != "" && word[0] != '/' && IsDynamic(word)
    ensures WorkspaceEscape(Tidied(word)) <==> "../" <= word
  {
    var first := TidiedEscape(word);
    assert !IsDynamic("..") by {
      assert ".."[1..] == "." && "."[1..] == "";
    }
  }

  lemma TidiedUnder(base: string, first: string, rest: string, word: string)
    requires first != "" && '/' !in first && (base == first || base == first + "/" + rest)
    requires base[|base| - 1] != '/' && word != "" && word[0] != '/'
    ensures WorkspaceEscape(Tidied(Join(base, word))) <==> WorkspaceEscape(base)
  {
    var more := if base == first then word else rest + "/" + word;
    assert Join(base, word) == first + "/" + more;
    TidiedKeepsFirst(first, more);
    EscapeOfFirst(first, Tidied(Join(base, word)));
    EscapeOfFirst(first, base);
  }

  /** A relative word with an expansion, below another directory. */
  lemma TidiedBelow(directory: string, word: string)
    requires directory != "" && Normpath(directory) != "." && word != "" && word[0] != '/'
    ensures WorkspaceEscape(Tidied(Join(Normpath(directory), word))) <==> Leaves(directory)
  {
    var base := Normpath(directory);
    NormpathIsNotEmpty(directory);
    EscapeIffLeaves(directory);
    if base[0] == '/' {
      assert Join(base, word)[0] == base[0];
      TidiedStaysAbsolute(Join(base, word));
    } else {
      var first, rest := FirstOfBase(directory);
      TidiedUnder(base, first, rest, word);
    }
  }

  /** A relative normal form begins with its first component, and does not end with a slash. */
  lemma FirstOfBase(directory: string) returns (first: string, rest: string)
    requires Normpath(directory) != "." && Normpath(directory) != "" && Normpath(directory)[0] != '/'
    ensures var base := Normpath(directory);
      && first != "" && '/' !in first && base[|base| - 1] != '/'
      && (base == first || base == first + "/" + rest)
  {
    var parts := Reduce([], Components(directory), false);
    ComponentsArePlain(directory);
    ReduceIsPlain([], Components(directory), false);
    assert Slashes(directory) == 0;
    assert "" + Joined(parts) == Joined(parts);
    assert Plain(parts[0]);
    JoinedEndsPlain(parts);
    first := parts[0];
    rest := if |parts| > 1 then Joined(parts[1..]) else "";
  }

  lemma {:induction false} JoinedEndsPlain(parts: seq<string>)
    requires parts != [] && forall p <- parts :: Plain(p)
    ensures Joined(parts) != "" && Joined(parts)[|Joined(parts)| - 1] != '/'
  {
    assert Plain(parts[0]) && parts[0][|parts[0]| - 1] in parts[0];
    if |parts| > 1 {
      JoinedEndsPlain(parts[1..]);
    }
  }

  lemma DynamicEntryIsWritten(word: string, name: string, directory: string)
    requires word != "" && directory != "" && IsDynamic(word)
    ensures EntryOf(word, name, Normpath(directory)) == WrittenEntry(word, name, directory)
  {
    NormpathIsIdempotent(directory);
    NormpathIsNotEmpty(directory);
    assert "~" <= word ==> word[0] == '~';
    if word[0] == '/' {
      TidiedStaysAbsolute(word);
    } else if StartsDynamic(word) {
      var first := TidiedEscape(word);
      assert ".."[0] == '.';
    } else if Normpath(directory) == "." {
      TidiedWord(word);
    } else {
      TidiedBelow(directory, word);
    }
  }

  lemma EntryIsWritten(word: string, name: string, directory: string)
    requires word != "" && directory != ""
    ensures EntryOf(word, name, Normpath(directory)) == WrittenEntry(word, name, directory)
  {
    if IsDynamic(word) {
      DynamicEntryIsWritten(word, name, directory);
    } else {
      NormalizePathOfWritten(word, directory);
      EscapeIffLeaves(Join(directory, word));
    }
  }

  lemma {:induction false} EntriesAreWritten(name: string, paths: seq<string>, directory: string)
    requires directory != ""
    ensures EntriesOf(name, paths, Normpath(directory)) == WrittenEntries(name, paths, directory)
    ensures var entries, target := EntriesOf(name, paths, Normpath(directory)), FirstNonEmpty(paths);
      if target == "" then entries == [] else entries != [] && entries[0] == WrittenEntry(target, name, directory)
  {
    if paths != [] {
      EntriesAreWritten(name, paths[1..], directory);
      if paths[0] != "" {
        EntryIsWritten(paths[0], name, directory);
      }
    }
  }

  /** Following `cd` by normalised paths finds for every path word what the joined words, as they are written, mean: its
      normal form, and the flag exactly if the joined words are absolute or go above the root at some point. Words that
      the shell has still to expand are flagged by how they start or where they are, and no `cd` follows them. */
  lemma {:induction false} ScanIsWritten(commands: seq<Command>, directory: string)
    requires directory != ""
    ensures Scanned(commands, Normpath(directory)) == WrittenScan(commands, directory)
    decreases commands
  {
    if commands != [] {
      if commands[0].name == "" {
        ScanIsWritten(commands[1..], directory);
      } else {
        EntriesAreWritten(commands[0].name, commands[0].paths, directory);
        assert WrittenDirectory(commands[0], directory) != "";
        ScanIsWritten(commands[1..], WrittenDirectory(commands[0], directory));
      }
    }
  }

  lemma ScanFromWorkdir(commands: seq<Command>, workdir: string)
    ensures Scanned(commands, NormalizeWorkdir(workdir)) ==
            WrittenScan(commands, if workdir == "" then "." else workdir)
  {
    var directory := if workdir == "" then "." else workdir;
    SplitOfPlain(".");
    assert ProperOnes(["."]) == ProperOnes([]);
    assert Normpath(".") == ".";
    ScanIsWritten(commands, directory);
  }
}
