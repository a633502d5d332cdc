/**
Dropping trailing commas, and what the pipeline as a whole leaves for the JSON parser.
*/
module ConfigCommas {
  import opened ConfigText
  import opened PythonText
  import opened Sequences

  predicate Closes(c: char) {
    c == ']' || c == '}'
  }

  /** The next character that is not white space closes an array or an object. */
  function CloserNext(s: string): bool {
    if s == [] then false else if IsSpace(s[0]) then CloserNext(s[1..]) else Closes(s[0])
  }

  /** What is left of `s`, read from `mode` on. */
  function RemoveTrailing(s: string, mode: Mode): string {
    if s == [] then []
    else
      (if mode == Plain && s[0] == ',' && CloserNext(s[1..]) then [] else [s[0]])
      + RemoveTrailing(s[1..], Next(s[0], Peek(s, 0), mode, false))
  }

  method LookAhead(text: string, start: nat) returns (closer: bool)
    requires start <= |text|
    ensures closer == CloserNext(text[start..])
  {
    var lookahead := start;
    while lookahead < |text| && IsSpace(text[lookahead])
      invariant start <= lookahead <= |text| && CloserNext(text[lookahead..]) == CloserNext(text[start..])
    {
      assert text[lookahead..][1..] == text[lookahead + 1..];
      lookahead := lookahead + 1;
    }
    closer := lookahead < |text| && text[lookahead] in "]}";
  }

  /** The scanner has written `output` and goes on at `index` in `mode`. */
  ghost predicate Dropping(text: string, output: string, index: nat, mode: Mode) {
    index <= |text| && output + RemoveTrailing(text[index..], mode) == RemoveTrailing(text, Plain)
  }

  lemma DroppingGoesOn(text: string, output: string, index: nat, mode: Mode)
    requires Dropping(text, output, index, mode) && index < |text|
    ensures Dropping(text,
                     if mode == Plain && text[index] == ',' && CloserNext(text[index + 1..]) then output
                     else output + [text[index]],
                     index + 1, Next(text[index], Peek(text, index), mode, false))
  {
    var s := text[index..];
    assert s[1..] == text[index + 1..] && Peek(s, 0) == Peek(text, index);
    var rest := RemoveTrailing(s[1..], Next(s[0], Peek(s, 0), mode, false));
    if mode == Plain && s[0] == ',' && CloserNext(s[1..]) {
      assert [] + rest == rest;
    } else {
      Regrouped(output, [s[0]], rest, RemoveTrailing(s, mode), RemoveTrailing(text, Plain));
    }
  }

  method RemoveTrailingCommas(text: string) returns (output: string)
    ensures output == RemoveTrailing(text, Plain)
  {
    output := [];
    var index, inString, escaped := 0, false, false;
    assert text[0..] == text && [] + RemoveTrailing(text, Plain) == RemoveTrailing(text, Plain);
    while index < |text|
      invariant 0 <= index && (escaped ==> inString)
      invariant Dropping(text, output, index, At(inString, escaped))
    {
      var c := text[index];
      DroppingGoesOn(text, output, index, At(inString, escaped));
      if inString {
        output := output + [c];
        inString, escaped := InLiteral(c, escaped);
      } else if c == '"' {
        inString := true;
        output := output + [c];
      } else {
        var trailing := false;
        if c == ',' {
          trailing := LookAhead(text, index + 1);
        }
        if !trailing {
          output := output + [c];
        }
      }
      index := index + 1;
    }
    assert output + [] == output;
  }

  // What is dropped

  /** Characters that a reader takes for white space. */
  type Spaces = char -> bool

  /** The white space of JSON (RFC 8259, section 2). */
  predicate JsonSpace(c: char) {
    c == ' ' || c == '\t' || c == '\n' || c == '\r'
  }

  predicate Separates(space: Spaces, item: Item) {
    item.Comment? || (item.Code? && space(item.c))
  }

  predicate CloserNextItem(space: Spaces, items: seq<Item>) {
    if items == [] then false
    else if Separates(space, items[0]) then CloserNextItem(space, items[1..])
    else items[0].Code? && Closes(items[0].c)
  }

  predicate Trails(space: Spaces, items: seq<Item>) {
    items != [] && items[0] == Code(',') && CloserNextItem(space, items[1..])
  }

  /** The items without the commas of code before a closing bracket or brace. */
  function WithoutTrailing(space: Spaces, items: seq<Item>): seq<Item> {
    if items == [] then []
    else (if Trails(space, items) then [] else [items[0]]) + WithoutTrailing(space, items[1..])
  }

  lemma {:induction false} CloserNextIsItem(s: string)
    ensures CloserNext(s) == CloserNextItem(IsSpace, Items(s, Plain, false))
  {
    if s != [] && IsSpace(s[0]) {
      CloserNextIsItem(s[1..]);
    }
  }

  predicate IsJsonMode(mode: Mode) {
    mode.Plain? || mode.Literal?
  }

  /** Only those commas go; literals and all other code stay as they are. */
  lemma {:induction false} RemoveTrailingKeepsItems(s: string, mode: Mode)
    requires IsJsonMode(mode)
    ensures Items(RemoveTrailing(s, mode), mode, false) == WithoutTrailing(IsSpace, Items(s, mode, false))
  {
    if s != [] {
      var next := Next(s[0], Peek(s, 0), mode, false);
      var rest := RemoveTrailing(s[1..], next);
      RemoveTrailingKeepsItems(s[1..], next);
      CloserNextIsItem(s[1..]);
      assert ([s[0]] + rest)[1..] == rest && [] + rest == rest;
    }
  }

  // The tokens a parser sees

  /** Punctuation, a run of other code (a number, say), or a piece of a string literal. */
  datatype Token = Punctuation(c: char) | Word(text: string) | Piece(item: Item)

  predicate Punctuates(c: char) {
    c in "[]{},:"
  }

  function Ended(word: string): seq<Token> {
    if word == [] then [] else [Word(word)]
  }

  /** The tokens of `items` after the part `word` of a run. White space and comments only separate. */
  function Tokens(space: Spaces, items: seq<Item>, word: string): seq<Token> {
    if items == [] then Ended(word)
    else match items[0]
      case Code(c) =>
        if space(c) then Ended(word) + Tokens(space, items[1..], [])
        else if Punctuates(c) then Ended(word) + [Punctuation(c)] + Tokens(space, items[1..], [])
        else Tokens(space, items[1..], word + [c])
      case Comment(_) => Ended(word) + Tokens(space, items[1..], [])
      case _ => Ended(word) + [Piece(items[0])] + Tokens(space, items[1..], [])
  }

  /** Blanked comments separate tokens just as comments do. */
  lemma {:induction false} UncommentedTokens(space: Spaces, items: seq<Item>, word: string)
    requires space(' ') && space('\n')
    ensures Tokens(space, Uncommented(items), word) == Tokens(space, items, word)
    decreases |items|
  {
    if items != [] {
      assert Uncommented(items)[1..] == Uncommented(items[1..]);
      UncommentedTokens(space, items[1..], []);
      if items[0].Code? {
        UncommentedTokens(space, items[1..], word + [items[0].c]);
      }
    }
  }

  /** Stripping comments keeps every token, for any white space that includes the space and the line feed. */
  lemma StripKeepsTokens(space: Spaces, text: string)
    requires space(' ') && space('\n')
    ensures Tokens(space, Items(Strip(text, Plain), Plain, false), []) == Tokens(space, Items(text, Plain, true), [])
  {
    StripUncomments(text, Plain);
    UncommentedTokens(space, Items(text, Plain, true), []);
  }

  predicate TrailsToken(tokens: seq<Token>) {
    && |tokens| >= 2 && tokens[0] == Punctuation(',') && tokens[1].Punctuation? && Closes(tokens[1].c)
  }

  /** The tokens without the commas before a closing bracket or brace. */
  function WithoutTrailingTokens(tokens: seq<Token>): seq<Token> {
    if tokens == [] then []
    else (if TrailsToken(tokens) then [] else [tokens[0]]) + WithoutTrailingTokens(tokens[1..])
  }

  lemma {:induction false} CloserNextIsToken(space: Spaces, items: seq<Item>)
    ensures var tokens := Tokens(space, items, []);
      CloserNextItem(space, items) <==> tokens != [] && tokens[0].Punctuation? && Closes(tokens[0].c)
  {
    if items != [] {
      if Separates(space, items[0]) {
        CloserNextIsToken(space, items[1..]);
      } else if items[0].Code? && !Punctuates(items[0].c) {
        assert [] + [items[0].c] == [items[0].c];
        WordComesFirst(space, items[1..], [items[0].c]);
      }
    }
  }

  lemma {:induction false} WordComesFirst(space: Spaces, items: seq<Item>, word: string)
    requires word != []
    ensures var tokens := Tokens(space, items, word); tokens != [] && tokens[0].Word?
  {
    if items != [] && items[0].Code? {
      WordComesFirst(space, items[1..], word + [items[0].c]);
    }
  }

  /** A run ends where white space or a closer follows. */
  lemma RunEndsBeforeCloser(space: Spaces, items: seq<Item>, word: string)
    requires CloserNextItem(space, items)
    ensures Tokens(space, items, word) == Ended(word) + Tokens(space, items, [])
  {
  }

  lemma WithoutTrailingAfterWord(word: string, tokens: seq<Token>)
    ensures WithoutTrailingTokens(Ended(word) + tokens) == Ended(word) + WithoutTrailingTokens(tokens)
  {
    if word == [] {
      assert Ended(word) + tokens == tokens;
    } else {
      assert (Ended(word) + tokens)[1..] == tokens;
    }
  }

  lemma {:induction false} CloserStays(space: Spaces, items: seq<Item>)
    requires !space(',') && CloserNextItem(space, items)
    ensures CloserNextItem(space, WithoutTrailing(space, items))
  {
    if Separates(space, items[0]) {
      CloserStays(space, items[1..]);
    }
  }

  lemma {:induction false} WithoutTrailingKeepsTokens(space: Spaces, items: seq<Item>, word: string)
    requires !space(',')
    ensures Tokens(space, WithoutTrailing(space, items), word) == WithoutTrailingTokens(Tokens(space, items, word))
    decreases |items|
  {
    if items == [] {
      assert Ended(word) == Ended(word) + [];
      WithoutTrailingAfterWord(word, []);
    } else {
      var rest := items[1..];
      WithoutTrailingKeepsTokens(space, rest, []);
      CloserNextIsToken(space, rest);
      if Trails(space, items) {
        assert WithoutTrailing(space, items) == WithoutTrailing(space, rest);
        CloserStays(space, rest);
        RunEndsBeforeCloser(space, WithoutTrailing(space, rest), word);
        DropTrailingComma(word, Tokens(space, rest, []));
      } else {
        assert WithoutTrailing(space, items)[1..] == WithoutTrailing(space, rest);
        if Separates(space, items[0]) {
          WithoutTrailingAfterWord(word, Tokens(space, rest, []));
        } else if items[0].Code? && !Punctuates(items[0].c) {
          WithoutTrailingKeepsTokens(space, rest, word + [items[0].c]);
        } else {
          var token := if items[0].Code? then Punctuation(items[0].c) else Piece(items[0]);
          KeepToken(word, token, Tokens(space, rest, []));
        }
      }
    }
  }

  lemma DropTrailingComma(word: string, tokens: seq<Token>)
    requires TrailsToken([Punctuation(',')] + tokens)
    ensures WithoutTrailingTokens(Ended(word) + [Punctuation(',')] + tokens) ==
            Ended(word) + WithoutTrailingTokens(tokens)
  {
    WithoutTrailingAfterWord(word, [Punctuation(',')] + tokens);
    assert Ended(word) + [Punctuation(',')] + tokens == Ended(word) + ([Punctuation(',')] + tokens);
    assert ([Punctuation(',')] + tokens)[1..] == tokens;
  }

  lemma KeepToken(word: string, token: Token, tokens: seq<Token>)
    requires !TrailsToken([token] + tokens)
    ensures WithoutTrailingTokens(Ended(word) + [token] + tokens) ==
            Ended(word) + [token] + WithoutTrailingTokens(tokens)
  {
    WithoutTrailingAfterWord(word, [token] + tokens);
    assert Ended(word) + [token] + tokens == Ended(word) + ([token] + tokens);
    assert ([token] + tokens)[1..] == tokens;
  }

  /** Some comma of code comes before a closing bracket or brace for Python's white space, but not for JSON's. */
  predicate OddComma(items: seq<Item>) {
    items != [] && ((Trails(IsSpace, items) && !Trails(JsonSpace, items)) || OddComma(items[1..]))
  }

  function Commas(items: seq<Item>): nat {
    if items == [] then 0 else (if items[0] == Code(',') then 1 else 0) + Commas(items[1..])
  }

  function CommaTokens(tokens: seq<Token>): nat {
    if tokens == [] then 0 else (if tokens[0] == Punctuation(',') then 1 else 0) + CommaTokens(tokens[1..])
  }

  lemma {:induction false} CommaTokensAfter(before: seq<Token>, tokens: seq<Token>)
    ensures CommaTokens(before + tokens) == CommaTokens(before) + CommaTokens(tokens)
  {
    if before == [] {
      assert before + tokens == tokens;
    } else {
      assert (before + tokens)[1..] == before[1..] + tokens;
      CommaTokensAfter(before[1..], tokens);
    }
  }

  lemma {:induction false} CommasAreTokens(space: Spaces, items: seq<Item>, word: string)
    requires !space(',')
    ensures CommaTokens(Tokens(space, items, word)) == Commas(items)
    decreases |items|
  {
    assert CommaTokens(Ended(word)) == 0;
    if items != [] {
      var rest := items[1..];
      CommasAreTokens(space, rest, []);
      CommaTokensAfter(Ended(word), Tokens(space, rest, []));
      if items[0].Code? && !space(items[0].c) {
        CommasAreTokens(space, rest, word + [items[0].c]);
        CommaTokensAfter(Ended(word), [Punctuation(items[0].c)]);
        CommaTokensAfter(Ended(word) + [Punctuation(items[0].c)], Tokens(space, rest, []));
      } else if !Separates(space, items[0]) {
        CommaTokensAfter(Ended(word), [Piece(items[0])]);
        CommaTokensAfter(Ended(word) + [Piece(items[0])], Tokens(space, rest, []));
      }
    }
  }

  lemma {:induction false} JsonCloserIsCloser(items: seq<Item>)
    requires CloserNextItem(JsonSpace, items)
    ensures CloserNextItem(IsSpace, items)
  {
    if Separates(JsonSpace, items[0]) {
      JsonCloserIsCloser(items[1..]);
    }
  }

  /** What Python's white space drops beyond JSON's are the odd commas. */
  lemma {:induction false} OddCommasAreExtra(items: seq<Item>)
    ensures Commas(WithoutTrailing(IsSpace, items)) <= Commas(WithoutTrailing(JsonSpace, items))
    ensures OddComma(items) ==>
              Commas(WithoutTrailing(IsSpace, items)) < Commas(WithoutTrailing(JsonSpace, items))
    ensures !OddComma(items) ==> WithoutTrailing(IsSpace, items) == WithoutTrailing(JsonSpace, items)
  {
    if items != [] {
      OddCommasAreExtra(items[1..]);
      if Trails(JsonSpace, items) {
        JsonCloserIsCloser(items[1..]);
      }
      var one := [items[0]];
      assert (one + WithoutTrailing(IsSpace, items[1..]))[1..] == WithoutTrailing(IsSpace, items[1..]);
      assert (one + WithoutTrailing(JsonSpace, items[1..]))[1..] == WithoutTrailing(JsonSpace, items[1..]);
      assert [] + WithoutTrailing(IsSpace, items[1..]) == WithoutTrailing(IsSpace, items[1..]);
      assert [] + WithoutTrailing(JsonSpace, items[1..]) == WithoutTrailing(JsonSpace, items[1..]);
    }
  }

  lemma {:induction false} UncommentedCloser(space: Spaces, items: seq<Item>)
    requires space(' ') && space('\n')
    ensures CloserNextItem(space, Uncommented(items)) == CloserNextItem(space, items)
  {
    if items != [] {
      UncommentedCloser(space, items[1..]);
      assert Uncommented(items)[1..] == Uncommented(items[1..]);
    }
  }

  lemma {:induction false} UncommentedOddComma(items: seq<Item>)
    ensures OddComma(Uncommented(items)) == OddComma(items)
  {
    if items != [] {
      UncommentedOddComma(items[1..]);
      assert Uncommented(items)[1..] == Uncommented(items[1..]);
      UncommentedCloser(IsSpace, items[1..]);
      UncommentedCloser(JsonSpace, items[1..]);
    }
  }

  /** With its own white space, the JSON parser gets the tokens of the original, comments taken as white space, but for
      trailing commas, if and only if no comma of code has other white space of Python before a closer. */
  lemma PipelineKeepsTokens(text: string)
    ensures Tokens(JsonSpace, Items(RemoveTrailing(Strip(text, Plain), Plain), Plain, false), []) ==
            WithoutTrailingTokens(Tokens(JsonSpace, Items(text, Plain, true), []))
            <==> !OddComma(Items(text, Plain, true))
  {
    var stripped := Strip(text, Plain);
    var items := Items(stripped, Plain, false);
    StripKeepsTokens(JsonSpace, text);
    RemoveTrailingKeepsItems(stripped, Plain);
    StripUncomments(text, Plain);
    UncommentedOddComma(Items(text, Plain, true));
    WithoutTrailingKeepsTokens(JsonSpace, items, []);
    OddCommasAreExtra(items);
    CommasAreTokens(JsonSpace, WithoutTrailing(IsSpace, items), []);
    CommasAreTokens(JsonSpace, WithoutTrailing(JsonSpace, items), []);
  }

  /** Such a text: a comma, a no-break space and a closing bracket. */
  lemma NoBreakSpaceLosesComma()
    ensures var text := [',', 160 as char, ']'];
      && OddComma(Items(text, Plain, true))
      && Tokens(JsonSpace, Items(RemoveTrailing(Strip(text, Plain), Plain), Plain, false), []) !=
         WithoutTrailingTokens(Tokens(JsonSpace, Items(text, Plain, true), []))
  {
    var text, rest := [',', 160 as char, ']'], [Code(160 as char), Code(']')];
    assert text[1..] == [160 as char, ']'] && text[1..][1..] == [']'] && rest[1..] == [Code(']')];
    assert Items([']'], Plain, true) == [Code(']')];
    assert Items(text[1..], Plain, true) == rest;
    assert (160 as char) as int == 160 && ']' as int == 93 && '}' as int == 125;
    assert !Separates(JsonSpace, rest[0]) && !Closes(rest[0].c);
    assert CloserNextItem(IsSpace, rest[1..]);
    assert CloserNextItem(IsSpace, rest);
    assert !CloserNextItem(JsonSpace, rest);
    assert Items(text, Plain, true)[1..] == rest;
    PipelineKeepsTokens(text);
  }

  method LoadText(text: string) returns (json: string)
    ensures Tokens(JsonSpace, Items(json, Plain, false), []) ==
            WithoutTrailingTokens(Tokens(JsonSpace, Items(text, Plain, true), []))
            <==> !OddComma(Items(text, Plain, true))
  {
    var stripped := StripJsoncComments(text);
    json := RemoveTrailingCommas(stripped);
    PipelineKeepsTokens(text);
  }

  // Two passes

  /** The next character that is not white space is a comma that itself trails. */
  predicate TrailingCommaNext(s: string) {
    s != [] && if IsSpace(s[0]) then TrailingCommaNext(s[1..]) else s[0] == ',' && CloserNext(s[1..])
  }

  /** Some comma of code is followed, after white space, by a comma that trails. */
  predicate Doubled(s: string, mode: Mode) {
    && s != []
    && (|| (mode == Plain && s[0] == ',' && TrailingCommaNext(s[1..]))
        || Doubled(s[1..], Next(s[0], Peek(s, 0), mode, false)))
  }

  lemma {:induction false} RemoveTrailingIsShorter(s: string, mode: Mode)
    ensures |RemoveTrailing(s, mode)| <= |s|
  {
    if s != [] {
      RemoveTrailingIsShorter(s[1..], Next(s[0], Peek(s, 0), mode, false));
    }
  }

  /** After one pass a closer is next where one was, or where a comma has gone. */
  lemma {:induction false} CloserNextAfterPass(s: string)
    ensures CloserNext(RemoveTrailing(s, Plain)) <==> CloserNext(s) || TrailingCommaNext(s)
  {
    if s != [] && (IsSpace(s[0]) || s[0] == ',') {
      CloserNextAfterPass(s[1..]);
      var rest := RemoveTrailing(s[1..], Plain);
      assert ([s[0]] + rest)[1..] == rest && [] + rest == rest;
    }
  }

  lemma {:induction false} CloserIsNoComma(s: string)
    requires CloserNext(s)
    ensures !TrailingCommaNext(s)
  {
    if IsSpace(s[0]) {
      CloserIsNoComma(s[1..]);
    }
  }

  /** A second pass changes nothing, if and only if no comma was doubled. */
  lemma {:induction false} RemoveTrailingIsIdempotentIff(s: string, mode: Mode)
    requires IsJsonMode(mode)
    ensures RemoveTrailing(RemoveTrailing(s, mode), mode) == RemoveTrailing(s, mode) <==> !Doubled(s, mode)
  {
    if s != [] {
      var c, next := s[0], Next(s[0], Peek(s, 0), mode, false);
      var rest := RemoveTrailing(s[1..], next);
      RemoveTrailingIsIdempotentIff(s[1..], next);
      assert [] + rest == rest && ([c] + rest)[1..] == rest;
      if mode == Plain && c == ',' {
        CloserNextAfterPass(s[1..]);
        if CloserNext(s[1..]) {
          CloserIsNoComma(s[1..]);
        } else if TrailingCommaNext(s[1..]) {
          RemoveTrailingIsShorter(rest, Plain);
        }
      }
    }
  }

  /** Such a text: one pass drops one of two commas, a second pass the other. */
  lemma RemoveTrailingIsNotIdempotent()
    ensures RemoveTrailing("[,,]", Plain) == "[,]"
    ensures RemoveTrailing("[,]", Plain) == "[]"
  {
    var two, one := "[,,]", "[,]";
    assert two[1..] == ",,]" && two[1..][1..] == ",]" && one[1..] == ",]" && ",]"[1..] == "]" && "]"[1..] == [];
    assert RemoveTrailing(",]", Plain) == "]";
    assert RemoveTrailing(",,]", Plain) == ",]";
  }
}
