/**
Variable substitution by the grammar of the text: a token in a literal gives way to its value, and everything
else, escapes and comments included, stays.
*/
module ConfigTokens {
  import opened ConfigGrammar
  import opened ConfigSubstitution
  import opened ConfigText

  /** `s` begins with a token: an opening, and a closing brace somewhere behind it. */
  predicate StartsToken(s: string) {
    ("{env:" <= s || "{file:" <= s) && exists i :: 0 <= i < |s| && s[i] == '}'
  }

  lemma {:induction false} FindCloseIsFirst(s: string)
    ensures forall i :: 0 <= i < FindClose(s) ==> s[i] != '}'
  {
    if s != [] && s[0] != '}' {
      FindCloseIsFirst(s[1..]);
      forall i | 0 <= i < FindClose(s) ensures s[i] != '}' {
        assert i > 0 ==> s[i] == s[1..][i - 1];
      }
    }
  }

  lemma StartsTokenIff(s: string)
    ensures StartsToken(s) <==> TokenEnd(s) > 0
  {
    FindCloseIsFirst(s);
  }

  /** A token goes to the first closing brace. */
  lemma TokenEndIs(opening: string, name: string, rest: string)
    requires (opening == "{env:" || opening == "{file:") && forall i :: 0 <= i < |name| ==> name[i] != '}'
    ensures TokenEnd(opening + name + "}" + rest) == |opening + name| + 1
  {
    var s := opening + name + "}" + rest;
    var n := FindClose(s);
    assert s[..|opening|] == opening;
    assert s[|opening + name|] == '}';
    FindCloseIsFirst(s);
    assert forall i :: 0 <= i < |opening| ==> opening[i] != '}';
    assert forall i :: |opening| <= i < |opening + name| ==> s[i] == name[i - |opening|];
    assert forall i :: 0 <= i < |opening| ==> s[i] == opening[i];
  }

  // In a literal

  /** `{env:NAME}` and `{file:path}` give way to the fragment of their value; a file that is missing ends it. */
  lemma TokenIsReplaced(values: Values, opening: string, name: string, rest: string)
    requires (opening == "{env:" || opening == "{file:") && forall i :: 0 <= i < |name| ==> name[i] != '}'
    ensures var token := opening + name + "}";
      Substitute(values, token + rest, Literal(false)) ==
        match values(token)
        case Missing => MissingFile(token)
        case Value(text) => Prepend(Fragment(text), Substitute(values, rest, Literal(false)))
  {
    var token := opening + name + "}";
    var s := token + rest;
    TokenEndIs(opening, name, rest);
    assert s == opening + name + "}" + rest;
    assert s[..|token|] == token && s[|token|..] == rest;
    ReplaceFirst(values, s);
  }

  lemma SubstituteStep(values: Values, s: string, mode: Mode)
    requires s != [] && !AtToken(s, mode)
    ensures Substitute(values, s, mode) ==
            Prepend([s[0]], Substitute(values, s[1..], Next(s[0], Peek(s, 0), mode, true)))
  {
  }

  /** Any other character of a literal stays. */
  lemma LiteralCharacterStays(values: Values, c: char, rest: string)
    requires c != '"' && c != '\\' && !StartsToken([c] + rest)
    ensures Substitute(values, [c] + rest, Literal(false)) == Prepend([c], Substitute(values, rest, Literal(false)))
  {
    var s := [c] + rest;
    StartsTokenIff(s);
    assert s[1..] == rest;
    SubstituteStep(values, s, Literal(false));
  }

  /** So does a backslash with the character behind it, which begins no token. */
  lemma EscapeStays(values: Values, c: char, rest: string)
    ensures Substitute(values, ['\\', c] + rest, Literal(false)) ==
            Prepend(['\\', c], Substitute(values, rest, Literal(false)))
  {
    var s := ['\\', c] + rest;
    assert s[1..][1..] == rest && s[1..][0] == c;
    SubstituteStep(values, s, Literal(false));
    SubstituteStep(values, s[1..], Literal(true));
    PrependTwice(['\\'], [c], Substitute(values, rest, Literal(false)));
    assert ['\\'] + [c] == ['\\', c];
  }

  /** The quotes of a literal stay: tokens count from the opening one to the closing one. */
  lemma QuotesStay(values: Values, rest: string)
    ensures Substitute(values, QUOTE + rest, Plain) == Prepend(QUOTE, Substitute(values, rest, Literal(false)))
    ensures Substitute(values, QUOTE + rest, Literal(false)) == Prepend(QUOTE, Substitute(values, rest, Plain))
  {
    var s := QUOTE + rest;
    assert s[1..] == rest && QUOTE == [s[0]];
    SubstituteStep(values, s, Plain);
    SubstituteStep(values, s, Literal(false));
  }

  // Elsewhere

  /** Code stays, whatever it spells. */
  lemma CodeStays(values: Values, c: char, rest: string)
    requires IsPlain(c, rest)
    ensures Substitute(values, [c] + rest, Plain) == Prepend([c], Substitute(values, rest, Plain))
  {
    var s := [c] + rest;
    assert s[1..] == rest;
    SubstituteStep(values, s, Plain);
  }

  lemma NothingPrepended<T>(result: Result<seq<T>>)
    ensures Prepend([], result) == result
  {
    if result.Ok? {
      assert [] + result.value == result.value;
    }
  }

  lemma {:induction false} RestOfLineStays(values: Values, x: string, rest: string)
    requires StaysInLine(x) && (rest != [] ==> rest[0] == '\r' || rest[0] == '\n')
    ensures Substitute(values, x + rest, Line) == Prepend(x, Substitute(values, rest, Plain))
  {
    if x == [] {
      assert x + rest == rest;
      NothingPrepended(Substitute(values, rest, Plain));
      if rest != [] {
        SubstituteStep(values, rest, Line);
        SubstituteStep(values, rest, Plain);
      }
    } else {
      assert (x + rest)[1..] == x[1..] + rest;
      SubstituteStep(values, x + rest, Line);
      RestOfLineStays(values, x[1..], rest);
      PrependTwice([x[0]], x[1..], Substitute(values, rest, Plain));
      assert [x[0]] + x[1..] == x;
    }
  }

  /** Comments stay, tokens in them included. */
  lemma LineCommentStays(values: Values, x: string, rest: string)
    requires StaysInLine(x) && (rest != [] ==> rest[0] == '\r' || rest[0] == '\n')
    ensures Substitute(values, "//" + x + rest, Plain) == Prepend("//" + x, Substitute(values, rest, Plain))
  {
    var s := "//" + x + rest;
    assert s[0] == '/' && Peek(s, 0) == '/' && s[1..][0] == '/' && s[1..][1..] == x + rest;
    SubstituteStep(values, s, Plain);
    SubstituteStep(values, s[1..], SecondOfLine);
    RestOfLineStays(values, x, rest);
    PrependTwice(['/'], x, Substitute(values, rest, Plain));
    PrependTwice(['/'], ['/'] + x, Substitute(values, rest, Plain));
    assert ['/'] + (['/'] + x) == "//" + x;
  }

  lemma {:induction false} RestOfBlockStays(values: Values, x: string, behind: string)
    requires StaysOpen(x, behind)
    ensures Substitute(values, x + behind, Block) == Prepend(x, Substitute(values, behind, Block))
  {
    var s := x + behind;
    if x == [] {
      assert s == behind;
      NothingPrepended(Substitute(values, behind, Block));
    } else {
      assert s[0..] == s && !ClosesBlock(s[0..]);
      assert s[1..] == x[1..] + behind;
      SubstituteStep(values, s, Block);
      forall i | 0 <= i < |x[1..]| ensures !ClosesBlock((x[1..] + behind)[i..]) {
        assert (x[1..] + behind)[i..] == s[i + 1..];
      }
      RestOfBlockStays(values, x[1..], behind);
      PrependTwice([x[0]], x[1..], Substitute(values, behind, Block));
      assert [x[0]] + x[1..] == x;
    }
  }

  lemma BlockCommentStays(values: Values, x: string, rest: string)
    requires StaysOpen(x, "*/" + rest)
    ensures Substitute(values, "/*" + x + "*/" + rest, Plain) ==
            Prepend("/*" + x + "*/", Substitute(values, rest, Plain))
  {
    var behind := "*/" + rest;
    var s := "/*" + x + "*/" + rest;
    assert s[0] == '/' && Peek(s, 0) == '*' && s[1..][0] == '*' && s[1..][1..] == x + behind;
    SubstituteStep(values, s, Plain);
    SubstituteStep(values, s[1..], SecondOfBlock);
    RestOfBlockStays(values, x, behind);
    BlockEnds(values, rest);
    var all := Substitute(values, rest, Plain);
    PrependTwice(x, "*/", all);
    PrependTwice(['*'], x + "*/", all);
    PrependTwice(['/'], ['*'] + (x + "*/"), all);
    assert ['/'] + (['*'] + (x + "*/")) == "/*" + x + "*/";
  }

  lemma BlockEnds(values: Values, rest: string)
    ensures Substitute(values, "*/" + rest, Block) == Prepend("*/", Substitute(values, rest, Plain))
  {
    var s := "*/" + rest;
    assert s[0] == '*' && Peek(s, 0) == '/' && s[1..][0] == '/' && s[1..][1..] == rest;
    SubstituteStep(values, s, Block);
    SubstituteStep(values, s[1..], SecondOfClose);
    PrependTwice(['*'], ['/'], Substitute(values, rest, Plain));
    assert ['*'] + ['/'] == "*/";
  }
}
