/**
How the text of a configuration file is read: which characters are code, which comment, which part of a string
literal; and the scanner that blanks the comments.

Each scanner of the program is a loop over characters with two flags. They are all proved against the one reading
given here.
*/
module ConfigText {
  /** What the scanner is in before a character. `SecondOf...` is the second character of an opening or closing. */
  datatype Mode =
    | Plain
    | Literal(escaped: bool)
    | SecondOfLine
    | SecondOfBlock
    | Line
    | Block
    | SecondOfClose

  /** A character and what it is. The quotes of a literal are `Open` and `Close`. */
  datatype Item = Code(c: char) | Comment(c: char) | Open | Body(c: char) | Close

  predicate Breaks(c: char) {
    c == '\r' || c == '\n'
  }

  predicate OpensComment(c: char, peek: char) {
    c == '/' && (peek == '/' || peek == '*')
  }

  /** The character after position `i`, or one that matters to no scanner. */
  function Peek(s: string, i: nat): char {
    if i + 1 < |s| then s[i + 1] else ' '
  }

  /** The mode after character `c`, followed by `peek`. Plain JSON has no comments. */
  function Next(c: char, peek: char, mode: Mode, comments: bool): Mode {
    match mode
    case Literal(escaped) => if !escaped && c == '"' then Plain else Literal(!escaped && c == '\\')
    case SecondOfLine => Line
    case SecondOfBlock => Block
    case SecondOfClose => Plain
    case Line => if Breaks(c) then Plain else Line
    case Block => if c == '*' && peek == '/' then SecondOfClose else Block
    case Plain =>
      if comments && OpensComment(c, peek) then (if peek == '/' then SecondOfLine else SecondOfBlock)
      else if c == '"' then Literal(false)
      else Plain
  }

  function Read(c: char, peek: char, mode: Mode, comments: bool): Item {
    match mode
    case Literal(escaped) => if !escaped && c == '"' then Close else Body(c)
    case Line => if Breaks(c) then Code(c) else Comment(c)
    case Plain =>
      if comments && OpensComment(c, peek) then Comment(c) else if c == '"' then Open else Code(c)
    case _ => Comment(c)
  }

  /** The items of `s`, read from `mode` on. */
  function Items(s: string, mode: Mode, comments: bool): seq<Item> {
    if s == [] then []
    else
      [Read(s[0], Peek(s, 0), mode, comments)] + Items(s[1..], Next(s[0], Peek(s, 0), mode, comments), comments)
  }

  function Rendered(item: Item): char {
    match item
    case Code(c) => c
    case Comment(c) => c
    case Body(c) => c
    case Open => '"'
    case Close => '"'
  }

  function Render(items: seq<Item>): string {
    if items == [] then [] else [Rendered(items[0])] + Render(items[1..])
  }

  /** The items of a text are all of it. */
  lemma {:induction false} ItemsAreTheText(s: string, mode: Mode, comments: bool)
    ensures Render(Items(s, mode, comments)) == s
  {
    if s != [] {
      ItemsAreTheText(s[1..], Next(s[0], Peek(s, 0), mode, comments), comments);
    }
  }

  // The modes along a text

  /** `modes[i]` is the mode before character `i` of `s`. */
  predicate AreModes(s: string, modes: seq<Mode>, comments: bool) {
    && |modes| == |s| + 1
    && forall i :: 0 <= i < |s| ==> Follows(s, modes, i, comments)
  }

  predicate Follows(s: string, modes: seq<Mode>, i: nat, comments: bool)
    requires i < |s| && |modes| == |s| + 1
  {
    modes[i + 1] == Next(s[i], Peek(s, i), modes[i], comments)
  }

  function Modes(s: string, mode: Mode, comments: bool): (modes: seq<Mode>)
    ensures AreModes(s, modes, comments) && modes[0] == mode
  {
    if s == [] then [mode]
    else
      var rest := Modes(s[1..], Next(s[0], Peek(s, 0), mode, comments), comments);
      ModesOneMore(s, mode, rest, comments);
      [mode] + rest
  }

  lemma ModesOneMore(s: string, mode: Mode, rest: seq<Mode>, comments: bool)
    requires s != [] && AreModes(s[1..], rest, comments) && rest[0] == Next(s[0], Peek(s, 0), mode, comments)
    ensures AreModes(s, [mode] + rest, comments)
  {
    var modes := [mode] + rest;
    forall i | 0 <= i < |s| ensures Follows(s, modes, i, comments) {
      if i > 0 {
        assert Follows(s[1..], rest, i - 1, comments);
      }
    }
  }

  // Blanking comments

  function Blank(c: char): char {
    if c == '\n' then '\n' else ' '
  }

  /** A comment becomes blank code; all else stays. */
  function Unsaid(item: Item): Item {
    if item.Comment? then Code(Blank(item.c)) else item
  }

  function Uncommented(items: seq<Item>): seq<Item> {
    if items == [] then [] else [Unsaid(items[0])] + Uncommented(items[1..])
  }

  /** `s`, read from `mode` on, with its comments blanked. */
  function Strip(s: string, mode: Mode): string {
    if s == [] then []
    else [Rendered(Unsaid(Read(s[0], Peek(s, 0), mode, true)))] + Strip(s[1..], Next(s[0], Peek(s, 0), mode, true))
  }

  predicate IsStripped(s: string, modes: seq<Mode>, output: string) {
    && |output| <= |s| < |modes|
    && forall i :: 0 <= i < |output| ==> IsShownAs(s, modes, i, output[i])
  }

  predicate IsShownAs(s: string, modes: seq<Mode>, i: nat, c: char)
    requires i < |s| < |modes|
  {
    c == Rendered(Unsaid(Read(s[i], Peek(s, i), modes[i], true)))
  }

  /** Position by position, the stripped text is determined by the modes. */
  lemma {:induction false} StrippedByPosition(s: string, modes: seq<Mode>, output: string)
    requires AreModes(s, modes, true) && IsStripped(s, modes, output) && |output| == |s|
    ensures output == Strip(s, modes[0])
  {
    if s != [] {
      assert Follows(s, modes, 0, true);
      assert AreModes(s[1..], modes[1..], true) by {
        forall i | 0 <= i < |s| - 1 ensures Follows(s[1..], modes[1..], i, true) {
          assert Follows(s, modes, i + 1, true);
        }
      }
      assert IsStripped(s[1..], modes[1..], output[1..]) by {
        forall i | 0 <= i < |s| - 1 ensures IsShownAs(s[1..], modes[1..], i, output[1..][i]) {
          assert IsShownAs(s, modes, i + 1, output[i + 1]);
        }
      }
      StrippedByPosition(s[1..], modes[1..], output[1..]);
      assert output == [output[0]] + output[1..];
    }
  }

  /** Blank the rest of a line comment. */
  method BlankLine(text: string, start: nat, before: string, ghost modes: seq<Mode>)
    returns (output: string, index: nat)
    requires AreModes(text, modes, true) && IsStripped(text, modes, before) && |before| == start
    requires modes[start] == Line
    ensures IsStripped(text, modes, output) && start <= index == |output|
    ensures index == |text| || (modes[index] == Line && Breaks(text[index]))
  {
    output, index := before, start;
    while index < |text| && !Breaks(text[index])
      invariant start <= index == |output| && IsStripped(text, modes, output) && modes[index] == Line
    {
      assert Follows(text, modes, index, true);
      output := output + [' '];
      index := index + 1;
    }
  }

  /** Blank the rest of a block comment, its line breaks excepted. */
  method BlankBlock(text: string, start: nat, before: string, ghost modes: seq<Mode>)
    returns (output: string, index: nat)
    requires AreModes(text, modes, true) && IsStripped(text, modes, before) && |before| == start
    requires modes[start] == Block
    ensures IsStripped(text, modes, output) && start <= index == |output|
    ensures index == |text| || modes[index] == Plain
  {
    output, index := before, start;
    while index < |text|
      invariant start <= index == |output| && IsStripped(text, modes, output) && modes[index] == Block
      decreases |text| - index
    {
      assert Follows(text, modes, index, true);
      if text[index] == '*' && index + 1 < |text| && text[index + 1] == '/' {
        assert Follows(text, modes, index + 1, true);
        return output + [' ', ' '], index + 2;
      }
      output := output + [if text[index] == '\n' then '\n' else ' '];
      index := index + 1;
    }
  }

  function At(inString: bool, escaped: bool): Mode {
    if inString then Literal(escaped) else Plain
  }

  /** What both flags become after one more character of a literal. */
  method InLiteral(c: char, escaped: bool) returns (inString: bool, stillEscaped: bool)
    ensures At(inString, stillEscaped) == if !escaped && c == '"' then Plain else Literal(!escaped && c == '\\')
    ensures stillEscaped ==> inString
  {
    inString, stillEscaped := true, escaped;
    if escaped {
      stillEscaped := false;
    } else if c == '\\' {
      stillEscaped := true;
    } else if c == '"' {
      inString := false;
    }
  }

  /** The scanner is in the mode its flags say, or has just come out of a line comment, which makes no difference. */
  predicate Tracks(text: string, index: nat, modes: seq<Mode>, inString: bool, escaped: bool)
    requires index < |modes|
  {
    modes[index] == At(inString, escaped)
    || (!inString && index < |text| && modes[index] == Line && Breaks(text[index]))
    || (!inString && index == |text|)
  }

  method StripJsoncComments(text: string) returns (output: string)
    ensures output == Strip(text, Plain)
  {
    output := [];
    var index, inString, escaped := 0, false, false;
    ghost var modes := Modes(text, Plain, true);
    while index < |text|
      invariant 0 <= index <= |text| && |output| == index && (escaped ==> inString)
      invariant IsStripped(text, modes, output) && Tracks(text, index, modes, inString, escaped)
      decreases |text| - index
    {
      var c := text[index];
      assert Follows(text, modes, index, true);
      if inString {
        output := output + [c];
        inString, escaped := InLiteral(c, escaped);
        index := index + 1;
      } else if c == '"' {
        inString := true;
        output := output + [c];
        index := index + 1;
      } else if c == '/' && index + 1 < |text| && text[index + 1] == '/' {
        assert Follows(text, modes, index + 1, true);
        output, index := BlankLine(text, index + 2, output + [' ', ' '], modes);
      } else if c == '/' && index + 1 < |text| && text[index + 1] == '*' {
        assert Follows(text, modes, index + 1, true);
        output, index := BlankBlock(text, index + 2, output + [' ', ' '], modes);
      } else {
        output := output + [c];
        index := index + 1;
      }
    }
    StrippedByPosition(text, modes, output);
  }

  // What plain JSON makes of the stripped text

  function Outside(mode: Mode): Mode {
    if mode.Literal? then mode else Plain
  }

  /** Plain JSON finds in the stripped text what JSONC finds in the original, with blanks for comments. */
  lemma {:induction false} StripUncomments(s: string, mode: Mode)
    ensures Items(Strip(s, mode), Outside(mode), false) == Uncommented(Items(s, mode, true))
  {
    if s != [] {
      StripUncomments(s[1..], Next(s[0], Peek(s, 0), mode, true));
    }
  }

  /** Length and line breaks stay, and nothing changes but to a space. */
  lemma {:induction false} StripKeepsPlaces(s: string, mode: Mode)
    ensures |Strip(s, mode)| == |s|
    ensures forall i :: 0 <= i < |s| ==>
      && (Strip(s, mode)[i] == '\n' <==> s[i] == '\n')
      && (Strip(s, mode)[i] == s[i] || Strip(s, mode)[i] == ' ')
  {
    if s != [] {
      StripKeepsPlaces(s[1..], Next(s[0], Peek(s, 0), mode, true));
    }
  }

  /** Stripping leaves no comment behind. */
  lemma {:induction false} StripIsIdempotent(s: string, mode: Mode)
    ensures Strip(Strip(s, mode), Outside(mode)) == Strip(s, mode)
  {
    if s != [] {
      var next := Next(s[0], Peek(s, 0), mode, true);
      StripIsIdempotent(s[1..], next);
      StripKeepsPlaces(s[1..], next);
      var all := Strip(s, mode);
      assert all[1..] == Strip(s[1..], next);
      assert mode == Plain && all[0] == '/' ==> !OpensComment(all[0], Peek(all, 0));
    }
  }
}
