/**
The scanners of a configuration file by the grammar of its text: what they make of a string literal, of a
comment, of a comma and of any other character, each in front of any text.
*/
module ConfigGrammar {
  import opened ConfigCommas
  import opened ConfigText
  import opened PythonText
  import opened Sequences

  const QUOTE := "\""

  /** What may stand between the quotes of a literal: no quote and no backslash, but a backslash with any character. */
  predicate IsLiteralBody(body: string) {
    body == [] ||
    if body[0] == '\\' then |body| >= 2 && IsLiteralBody(body[2..])
    else body[0] != '"' && IsLiteralBody(body[1..])
  }

  /** No line ends in `x`. */
  predicate StaysInLine(x: string) {
    forall i :: 0 <= i < |x| ==> x[i] != '\r' && x[i] != '\n'
  }

  /** No star with a slash behind it begins in `x`, whatever `behind` follows. */
  predicate StaysOpen(x: string, behind: string) {
    forall i :: 0 <= i < |x| ==> !ClosesBlock((x + behind)[i..])
  }

  predicate ClosesBlock(s: string) {
    |s| >= 2 && s[0] == '*' && s[1] == '/'
  }

  /** `c` in front of `rest` begins neither a literal nor a comment. */
  predicate IsPlain(c: char, rest: string) {
    c != '"' && !(c == '/' && rest != [] && (rest[0] == '/' || rest[0] == '*'))
  }

  function Bodies(s: string): seq<Item> {
    if s == [] then [] else [Body(s[0])] + Bodies(s[1..])
  }

  function Comments(s: string): seq<Item> {
    if s == [] then [] else [Comment(s[0])] + Comments(s[1..])
  }

  // The reading

  lemma ItemsStep(s: string, mode: Mode, comments: bool)
    requires s != []
    ensures var c, peek := s[0], Peek(s, 0);
      Items(s, mode, comments) ==
        [Read(c, peek, mode, comments)] + Items(s[1..], Next(c, peek, mode, comments), comments)
  {
  }

  lemma BodyStep(s: string, comments: bool)
    requires s != [] && s[0] != '"'
    ensures s[0] != '\\' ==>
      Items(s, Literal(false), comments) == [Body(s[0])] + Items(s[1..], Literal(false), comments)
    ensures s[0] == '\\' && |s| >= 2 ==>
      Items(s, Literal(false), comments) == [Body(s[0]), Body(s[1])] + Items(s[2..], Literal(false), comments)
  {
    ItemsStep(s, Literal(false), comments);
    if s[0] == '\\' && |s| >= 2 {
      ItemsStep(s[1..], Literal(true), comments);
      assert s[1..][1..] == s[2..];
      assert [Body(s[0])] + ([Body(s[1])] + Items(s[2..], Literal(false), comments)) ==
             [Body(s[0]), Body(s[1])] + Items(s[2..], Literal(false), comments);
    }
  }

  lemma BodiesOfTwo(body: string)
    requires |body| >= 2
    ensures Bodies(body) == [Body(body[0]), Body(body[1])] + Bodies(body[2..])
  {
    assert body[1..][1..] == body[2..];
    assert Bodies(body) == [Body(body[0])] + ([Body(body[1])] + Bodies(body[2..]));
  }

  lemma {:induction false} ItemsOfBody(body: string, rest: string, comments: bool)
    requires IsLiteralBody(body)
    ensures Items(body + QUOTE + rest, Literal(false), comments) ==
            Bodies(body) + ([Close] + Items(rest, Plain, comments))
    decreases |body|
  {
    var s, n := body + QUOTE + rest, if body != [] && body[0] == '\\' then 2 else 1;
    var tail := [Close] + Items(rest, Plain, comments);
    if body == [] {
      ItemsStep(s, Literal(false), comments);
      assert s[1..] == rest;
      assert [] + tail == tail;
    } else {
      assert s[n..] == body[n..] + QUOTE + rest;
      BodyStep(s, comments);
      ItemsOfBody(body[n..], rest, comments);
      if n == 2 {
        BodiesOfTwo(body);
      }
      Regrouped(Bodies(body[..n]), Bodies(body[n..]), tail, Bodies(body[n..]) + tail,
                Bodies(body[..n]) + (Bodies(body[n..]) + tail));
      BodiesOfFirst(body, n);
    }
  }

  lemma BodiesOfFirst(body: string, n: nat)
    requires 1 <= n <= 2 && n <= |body|
    ensures Bodies(body[..n]) == if n == 1 then [Body(body[0])] else [Body(body[0]), Body(body[1])]
  {
    if n == 1 {
      assert body[..1] == [body[0]];
      assert Bodies([body[0]]) == [Body(body[0])] + Bodies([]);
    } else {
      BodiesOfTwo(body[..2]);
      assert body[..2][2..] == [];
    }
  }

  /** A literal is read as one, whatever is behind it, and reading goes on as code. */
  lemma ItemsOfLiteral(body: string, rest: string, comments: bool)
    requires IsLiteralBody(body)
    ensures Items(QUOTE + body + QUOTE + rest, Plain, comments) ==
            [Open] + Bodies(body) + [Close] + Items(rest, Plain, comments)
  {
    var s := QUOTE + body + QUOTE + rest;
    assert s[1..] == body + QUOTE + rest;
    ItemsStep(s, Plain, comments);
    ItemsOfBody(body, rest, comments);
    assert [Open] + Bodies(body) + [Close] + Items(rest, Plain, comments) ==
           [Open] + (Bodies(body) + ([Close] + Items(rest, Plain, comments)));
  }

  lemma LineStep(x: string, rest: string)
    requires x != [] && StaysInLine(x)
    ensures Items(x + rest, Line, true) == [Comment(x[0])] + Items(x[1..] + rest, Line, true)
  {
    assert (x + rest)[1..] == x[1..] + rest;
    ItemsStep(x + rest, Line, true);
  }

  lemma LineEnds(rest: string)
    requires rest != [] ==> rest[0] == '\r' || rest[0] == '\n'
    ensures Items(rest, Line, true) == Items(rest, Plain, true)
  {
    if rest != [] {
      ItemsStep(rest, Line, true);
      ItemsStep(rest, Plain, true);
    }
  }

  lemma {:induction false} ItemsInLine(x: string, rest: string)
    requires StaysInLine(x) && (rest != [] ==> rest[0] == '\r' || rest[0] == '\n')
    ensures Items(x + rest, Line, true) == Comments(x) + Items(rest, Plain, true)
  {
    LineEnds(rest);
    if x == [] {
      assert x + rest == rest && [] + Items(rest, Plain, true) == Items(rest, Plain, true);
    } else {
      LineStep(x, rest);
      ItemsInLine(x[1..], rest);
      Regrouped([Comment(x[0])], Comments(x[1..]), Items(rest, Plain, true),
                Items(x[1..] + rest, Line, true), Items(x + rest, Line, true));
    }
  }

  /** A comment of two slashes goes to the end of its line. */
  lemma ItemsOfLineComment(x: string, rest: string)
    requires StaysInLine(x) && (rest != [] ==> rest[0] == '\r' || rest[0] == '\n')
    ensures Items("//" + x + rest, Plain, true) == Comments("//" + x) + Items(rest, Plain, true)
  {
    var s := "//" + x + rest;
    assert s[0] == '/' && Peek(s, 0) == '/' && s[1..][0] == '/' && s[1..][1..] == x + rest;
    ItemsStep(s, Plain, true);
    ItemsStep(s[1..], SecondOfLine, true);
    ItemsInLine(x, rest);
    CommentsOfOpening('/', x, Items(rest, Plain, true));
  }

  lemma CommentsOfOpening(second: char, x: string, rest: seq<Item>)
    ensures Comments(['/', second] + x) + rest == [Comment('/')] + ([Comment(second)] + (Comments(x) + rest))
  {
    var s := ['/', second] + x;
    assert s[1..][1..] == x && s[1..][0] == second;
    assert Comments(s) == [Comment('/')] + Comments(s[1..]);
    assert Comments(s[1..]) == [Comment(second)] + Comments(x);
    assert [Comment('/')] + ([Comment(second)] + Comments(x)) + rest ==
           [Comment('/')] + ([Comment(second)] + (Comments(x) + rest));
  }

  lemma {:induction false} ItemsInBlock(x: string, behind: string)
    requires StaysOpen(x, behind)
    ensures Items(x + behind, Block, true) == Comments(x) + Items(behind, Block, true)
  {
    if x == [] {
      assert x + behind == behind && [] + Items(behind, Block, true) == Items(behind, Block, true);
    } else {
      var s := x + behind;
      assert s[0..] == s && !ClosesBlock(s[0..]);
      assert s[1..] == x[1..] + behind;
      ItemsStep(s, Block, true);
      forall i | 0 <= i < |x[1..]| ensures !ClosesBlock((x[1..] + behind)[i..]) {
        assert (x[1..] + behind)[i..] == s[i + 1..];
      }
      ItemsInBlock(x[1..], behind);
      assert [Comment(x[0])] + (Comments(x[1..]) + Items(behind, Block, true)) ==
             Comments(x) + Items(behind, Block, true);
    }
  }

  lemma ItemsOfOpening(s: string)
    requires |s| >= 2 && s[..2] == "/*"
    ensures Items(s, Plain, true) == [Comment('/')] + ([Comment('*')] + Items(s[2..], Block, true))
  {
    assert s[0] == s[..2][0] && s[1] == s[..2][1];
    assert s[1..][1..] == s[2..];
    ItemsStep(s, Plain, true);
    ItemsStep(s[1..], SecondOfBlock, true);
  }

  /** A comment of slash and star goes to the first star and slash behind them. */
  lemma ItemsOfBlockComment(x: string, rest: string)
    requires StaysOpen(x, "*/" + rest)
    ensures Items("/*" + x + "*/" + rest, Plain, true) ==
            Comments("/*" + x) + ([Comment('*')] + ([Comment('/')] + Items(rest, Plain, true)))
  {
    var behind := "*/" + rest;
    var s := "/*" + x + "*/" + rest;
    assert s[..2] == "/*" && s[2..] == x + behind;
    ItemsOfOpening(s);
    ItemsInBlock(x, behind);
    assert behind[1..][1..] == rest && behind[0] == '*' && behind[1..][0] == '/' && Peek(behind, 0) == '/';
    ItemsStep(behind, Block, true);
    ItemsStep(behind[1..], SecondOfClose, true);
    CommentsOfOpening('*', x, Items(behind, Block, true));
  }

  /** Without them, it goes to the end of the text. */
  lemma ItemsOfOpenComment(x: string)
    requires StaysOpen(x, "")
    ensures Items("/*" + x, Plain, true) == Comments("/*" + x)
  {
    var s := "/*" + x;
    assert s[..2] == "/*" && s[2..] == x && x + [] == x;
    ItemsOfOpening(s);
    ItemsInBlock(x, []);
    CommentsOfOpening('*', x, []);
    assert Comments(s) + [] == Comments(s);
    assert Comments(x) + [] == Comments(x);
  }

  /** Any other character is code. */
  lemma ItemsOfPlain(c: char, rest: string, comments: bool)
    requires IsPlain(c, rest) || (!comments && c != '"')
    ensures Items([c] + rest, Plain, comments) == [Code(c)] + Items(rest, Plain, comments)
  {
    var s := [c] + rest;
    assert s[1..] == rest;
    ItemsStep(s, Plain, comments);
  }

  // Stripping comments

  lemma {:induction false} StripIsRendered(s: string, mode: Mode)
    ensures Strip(s, mode) == Render(Uncommented(Items(s, mode, true)))
  {
    if s != [] {
      var next := Next(s[0], Peek(s, 0), mode, true);
      var items := Items(s, mode, true);
      ItemsStep(s, mode, true);
      StripIsRendered(s[1..], next);
      assert items[1..] == Items(s[1..], next, true);
      assert Uncommented(items)[1..] == Uncommented(items[1..]);
    }
  }

  lemma {:induction false} RenderOfBoth(a: seq<Item>, b: seq<Item>)
    ensures Render(Uncommented(a + b)) == Render(Uncommented(a)) + Render(Uncommented(b))
  {
    if a == [] {
      assert a + b == b;
    } else {
      assert (a + b)[1..] == a[1..] + b;
      RenderOfBoth(a[1..], b);
      assert Uncommented(a)[1..] == Uncommented(a[1..]);
      assert Uncommented(a + b)[1..] == Uncommented((a + b)[1..]);
    }
  }

  /** Spaces for all but line feeds. */
  function Blanks(s: string): string {
    seq(|s|, i requires 0 <= i < |s| => if s[i] == '\n' then '\n' else ' ')
  }

  lemma {:induction false} RenderOfComments(s: string)
    ensures Render(Uncommented(Comments(s))) == Blanks(s)
  {
    if s != [] {
      RenderOfComments(s[1..]);
      assert Uncommented(Comments(s))[1..] == Uncommented(Comments(s[1..]));
      assert Blanks(s) == [if s[0] == '\n' then '\n' else ' '] + Blanks(s[1..]);
    }
  }

  lemma {:induction false} RenderOfBodies(s: string)
    ensures Render(Uncommented(Bodies(s))) == s
  {
    if s != [] {
      RenderOfBodies(s[1..]);
      assert Uncommented(Bodies(s))[1..] == Uncommented(Bodies(s[1..]));
    }
  }

  lemma RenderOfOne(item: Item)
    ensures Render(Uncommented([item])) == [Rendered(Unsaid(item))]
  {
    assert Uncommented([item]) == [Unsaid(item)] + Uncommented([]);
  }

  /** Literals stay. */
  lemma StripLiteral(body: string, rest: string)
    requires IsLiteralBody(body)
    ensures Strip(QUOTE + body + QUOTE + rest, Plain) == QUOTE + body + QUOTE + Strip(rest, Plain)
  {
    var items := Items(rest, Plain, true);
    StripIsRendered(QUOTE + body + QUOTE + rest, Plain);
    StripIsRendered(rest, Plain);
    ItemsOfLiteral(body, rest, true);
    RenderOfBoth([Open] + Bodies(body) + [Close], items);
    RenderOfBoth([Open] + Bodies(body), [Close]);
    RenderOfBoth([Open], Bodies(body));
    RenderOfBodies(body);
    RenderOfOne(Open);
    RenderOfOne(Close);
  }

  /** A line comment becomes spaces up to the line break, which stays. */
  lemma StripLineComment(x: string, rest: string)
    requires StaysInLine(x) && (rest != [] ==> rest[0] == '\r' || rest[0] == '\n')
    ensures Strip("//" + x + rest, Plain) == Blanks("//" + x) + Strip(rest, Plain)
  {
    StripIsRendered("//" + x + rest, Plain);
    StripIsRendered(rest, Plain);
    ItemsOfLineComment(x, rest);
    RenderOfBoth(Comments("//" + x), Items(rest, Plain, true));
    RenderOfComments("//" + x);
  }

  /** A block comment becomes spaces and line feeds. */
  lemma StripBlockComment(x: string, rest: string)
    requires StaysOpen(x, "*/" + rest)
    ensures Strip("/*" + x + "*/" + rest, Plain) == Blanks("/*" + x + "*/") + Strip(rest, Plain)
  {
    var items := Items(rest, Plain, true);
    StripIsRendered("/*" + x + "*/" + rest, Plain);
    StripIsRendered(rest, Plain);
    ItemsOfBlockComment(x, rest);
    RenderOfBoth(Comments("/*" + x), [Comment('*')] + ([Comment('/')] + items));
    RenderOfBoth([Comment('*')], [Comment('/')] + items);
    RenderOfBoth([Comment('/')], items);
    RenderOfComments("/*" + x);
    RenderOfOne(Comment('*'));
    RenderOfOne(Comment('/'));
    assert Blanks("/*" + x + "*/") == Blanks("/*" + x) + [' '] + [' '];
  }

  lemma StripOpenComment(x: string)
    requires StaysOpen(x, "")
    ensures Strip("/*" + x, Plain) == Blanks("/*" + x)
  {
    StripIsRendered("/*" + x, Plain);
    ItemsOfOpenComment(x);
    RenderOfComments("/*" + x);
  }

  /** All else stays. */
  lemma StripPlain(c: char, rest: string)
    requires IsPlain(c, rest)
    ensures Strip([c] + rest, Plain) == [c] + Strip(rest, Plain)
  {
    assert ([c] + rest)[1..] == rest;
  }

  // Dropping trailing commas

  lemma RemoveOne(s: string, escaped: bool)
    requires s != [] && (escaped || s[0] != '"')
    ensures RemoveTrailing(s, Literal(escaped)) == [s[0]] + RemoveTrailing(s[1..], Literal(!escaped && s[0] == '\\'))
  {
  }

  lemma RemoveEscape(s: string)
    requires |s| >= 2 && s[0] == '\\'
    ensures RemoveTrailing(s, Literal(false)) == s[..2] + RemoveTrailing(s[2..], Literal(false))
  {
    RemoveOne(s, false);
    RemoveOne(s[1..], true);
    assert s[1..][1..] == s[2..];
    Regrouped([s[0]], [s[1]], RemoveTrailing(s[2..], Literal(false)), RemoveTrailing(s[1..], Literal(true)),
              RemoveTrailing(s, Literal(false)));
    assert s[..2] == [s[0]] + [s[1]];
  }

  lemma {:induction false} RemoveInBody(body: string, rest: string)
    requires IsLiteralBody(body)
    ensures RemoveTrailing(body + QUOTE + rest, Literal(false)) == body + QUOTE + RemoveTrailing(rest, Plain)
    decreases |body|
  {
    var s, n := body + QUOTE + rest, if body != [] && body[0] == '\\' then 2 else 1;
    if body == [] {
      assert s[1..] == rest;
    } else {
      if n == 2 {
        RemoveEscape(s);
      } else {
        RemoveOne(s, false);
        assert s[..1] == [s[0]];
      }
      assert s[n..] == body[n..] + QUOTE + rest && s[..n] == body[..n];
      RemoveInBody(body[n..], rest);
      Regrouped(body[..n], body[n..] + QUOTE, RemoveTrailing(rest, Plain), RemoveTrailing(s[n..], Literal(false)),
                RemoveTrailing(s, Literal(false)));
      assert body[..n] + (body[n..] + QUOTE) == body + QUOTE;
    }
  }

  /** Literals stay, commas and brackets in them included. */
  lemma RemoveKeepsLiteral(body: string, rest: string)
    requires IsLiteralBody(body)
    ensures RemoveTrailing(QUOTE + body + QUOTE + rest, Plain) == QUOTE + body + QUOTE + RemoveTrailing(rest, Plain)
  {
    var s := QUOTE + body + QUOTE + rest;
    assert s[1..] == body + QUOTE + rest;
    RemoveInBody(body, rest);
  }

  lemma {:induction false} CloserBehindSpaces(spaces: string, rest: string)
    requires forall i :: 0 <= i < |spaces| ==> IsSpace(spaces[i])
    ensures CloserNext(spaces + rest) == CloserNext(rest)
  {
    if spaces == [] {
      assert spaces + rest == rest;
    } else {
      assert (spaces + rest)[1..] == spaces[1..] + rest;
      CloserBehindSpaces(spaces[1..], rest);
    }
  }

  /** A comma goes if there is only white space between it and a closing bracket or brace, and otherwise stays. */
  lemma RemoveComma(spaces: string, rest: string)
    requires forall i :: 0 <= i < |spaces| ==> IsSpace(spaces[i])
    requires rest != [] ==> !IsSpace(rest[0])
    ensures RemoveTrailing("," + spaces + rest, Plain) ==
      (if rest != [] && (rest[0] == ']' || rest[0] == '}') then "" else ",") + RemoveTrailing(spaces + rest, Plain)
  {
    assert ("," + spaces + rest)[1..] == spaces + rest;
    CloserBehindSpaces(spaces, rest);
  }

  /** All else stays. */
  lemma RemoveKeepsPlain(c: char, rest: string)
    requires c != '"' && c != ','
    ensures RemoveTrailing([c] + rest, Plain) == [c] + RemoveTrailing(rest, Plain)
  {
    assert ([c] + rest)[1..] == rest;
  }
}
