/**
What variable substitution does to the structure of a configuration file: it keeps it, for all values, exactly when
no token takes in the closing quote of its own string literal.
*/
module ConfigStructure {
  import opened ConfigText
  import opened ConfigSubstitution

  /** How much of `s`, a text inside a literal, comes before its closing quote. */
  function BodyEnd(s: string, escaped: bool): (n: nat)
    ensures n <= |s|
  {
    if s == [] || (!escaped && s[0] == '"') then 0 else 1 + BodyEnd(s[1..], !escaped && s[0] == '\\')
  }

  /** Every token that the scanner finds ends before its literal does. */
  predicate TokensInside(s: string, mode: Mode) {
    if s == [] then true
    else if AtToken(s, mode) then TokenEnd(s) <= BodyEnd(s, false) && TokensInside(s[TokenEnd(s)..], mode)
    else TokensInside(s[1..], Next(s[0], Peek(s, 0), mode, true))
  }

  // What substitution should do, on items: replace tokens within literal bodies, and nothing else

  function Bodies(s: string): seq<Item> {
    if s == [] then [] else [Body(s[0])] + Bodies(s[1..])
  }

  /** The literal body that starts `items`. */
  function Run(items: seq<Item>): (body: string)
    ensures |body| <= |items|
  {
    if items == [] || !items[0].Body? then [] else [items[0].c] + Run(items[1..])
  }

  function Expand(values: Values, items: seq<Item>, escaped: bool): Result<seq<Item>> {
    if items == [] then Ok([])
    else if !items[0].Body? then Prepend([items[0]], Expand(values, items[1..], false))
    else if !escaped && TokenEnd(Run(items)) > 0 then
      var n := TokenEnd(Run(items));
      match values(Run(items)[..n])
      case Missing => MissingFile(Run(items)[..n])
      case Value(text) => Prepend(Bodies(Fragment(text)), Expand(values, items[n..], false))
    else Prepend([items[0]], Expand(values, items[1..], !escaped && items[0].c == '\\'))
  }

  function Escaped(mode: Mode): bool {
    mode.Literal? && mode.escaped
  }

  /** The items of the result are the items of the source with the tokens replaced inside the literals. */
  predicate KeepsStructure(values: Values, s: string, mode: Mode) {
    match Substitute(values, s, mode)
    case Ok(text) => Expand(values, Items(s, mode, true), Escaped(mode)) == Ok(Items(text, mode, true))
    case MissingFile(token) => Expand(values, Items(s, mode, true), Escaped(mode)) == MissingFile(token)
  }

  // Bodies and tokens

  lemma {:induction false} RunIsBody(s: string, escaped: bool)
    ensures Run(Items(s, Literal(escaped), true)) == s[..BodyEnd(s, escaped)]
  {
    if s != [] && (escaped || s[0] != '"') {
      RunIsBody(s[1..], !escaped && s[0] == '\\');
    }
  }

  lemma {:induction false} FindCloseInPrefix(s: string, n: nat)
    requires n <= |s|
    ensures FindClose(s[..n]) == if FindClose(s) < n then FindClose(s) else n
  {
    if n > 0 && s[0] != '}' {
      assert s[..n][1..] == s[1..][..n - 1];
      FindCloseInPrefix(s[1..], n - 1);
    }
  }

  /** A token is found in the body of its literal exactly if it ends there. */
  lemma TokenEndInBody(s: string)
    ensures var n := BodyEnd(s, false); TokenEnd(s[..n]) == if TokenEnd(s) <= n then TokenEnd(s) else 0
  {
    var n := BodyEnd(s, false);
    FindCloseInPrefix(s, n);
    if TokenEnd(s) > 0 && TokenEnd(s) <= n {
      assert OpensToken(s[..n]) by {
        assert s[..n][TokenEnd(s) - 1] == '}';
        TokenIsLong(s);
      }
    }
    if OpensToken(s[..n]) {
      assert OpensToken(s);
    }
  }

  lemma TokenIsLong(s: string)
    requires TokenEnd(s) > 0
    ensures "{env:" <= s ==> TokenEnd(s) >= 5
    ensures "{file:" <= s ==> TokenEnd(s) >= 6
  {
    assert s[TokenEnd(s) - 1] == '}';
    assert "{env:" <= s ==> s[..5] == "{env:";
    assert "{file:" <= s ==> s[..6] == "{file:";
  }

  /** Part of a body can be skipped, if what follows it is not escaped. */
  lemma {:induction false} SkipBody(s: string, escaped: bool, n: nat)
    requires 0 < n <= BodyEnd(s, escaped) && s[n - 1] != '\\'
    ensures |Items(s, Literal(escaped), true)| >= n
    ensures Items(s, Literal(escaped), true)[n..] == Items(s[n..], Literal(false), true)
  {
    var next := !escaped && s[0] == '\\';
    var items := Items(s, Literal(escaped), true);
    assert items[1..] == Items(s[1..], Literal(next), true);
    if n > 1 {
      SkipBody(s[1..], next, n - 1);
      assert items[n..] == items[1..][n - 1..];
    }
  }

  // Fragments stay inside the literal

  predicate Unremarkable(p: string) {
    forall i :: 0 <= i < |p| ==> p[i] != '"' && p[i] != '\\'
  }

  lemma {:induction false} PlainBodies(p: string, t: string)
    requires Unremarkable(p)
    ensures Items(p + t, Literal(false), true) == Bodies(p) + Items(t, Literal(false), true)
  {
    if p == [] {
      assert p + t == t;
    } else {
      assert (p + t)[1..] == p[1..] + t;
      PlainBodies(p[1..], t);
    }
  }

  lemma EscapedBodies(c: char, p: string, t: string)
    requires Unremarkable(p)
    ensures Items(['\\', c] + p + t, Literal(false), true) == Bodies(['\\', c] + p) + Items(t, Literal(false), true)
  {
    PlainBodies(p, t);
    var all := ['\\', c] + p + t;
    assert all[1..] == [c] + p + t && all[1..][1..] == p + t;
    assert (['\\', c] + p)[1..] == [c] + p && ([c] + p)[1..] == p;
  }

  lemma {:induction false} BodiesAppend(a: string, b: string)
    ensures Bodies(a + b) == Bodies(a) + Bodies(b)
  {
    if a == [] {
      assert a + b == b;
    } else {
      assert (a + b)[1..] == a[1..] + b;
      BodiesAppend(a[1..], b);
    }
  }

  lemma {:induction false} EscapedUnitsStay(units: seq<Unit>, t: string)
    ensures Items(EscapedUnits(units) + t, Literal(false), true) ==
            Bodies(EscapedUnits(units)) + Items(t, Literal(false), true)
  {
    if units == [] {
      assert EscapedUnits(units) + t == t;
    } else {
      var more := EscapedUnits(units[1..]);
      assert EscapedUnits(units) + t == ['\\', 'u'] + Hex4(units[0]) + (more + t);
      EscapedBodies('u', Hex4(units[0]), more + t);
      EscapedUnitsStay(units[1..], t);
      BodiesAppend(EscapedUnit(units[0]), more);
    }
  }

  lemma EscapeStays(c: char, t: string)
    ensures Items(Escape(c) + t, Literal(false), true) == Bodies(Escape(c)) + Items(t, Literal(false), true)
  {
    if ShortEscape(c) != ' ' {
      EscapedBodies(ShortEscape(c), [], t);
      assert ['\\', ShortEscape(c)] + [] == Escape(c);
    } else if ' ' <= c <= '~' {
      PlainBodies([c], t);
    } else {
      EscapedUnitsStay(Utf16(c), t);
    }
  }

  /** A fragment neither opens nor closes a literal, and leaves nothing escaped behind it. */
  lemma {:induction false} FragmentStaysInside(value: string, t: string)
    ensures Items(Fragment(value) + t, Literal(false), true) == Bodies(Fragment(value)) + Items(t, Literal(false), true)
  {
    if value == [] {
      assert Fragment(value) + t == t;
    } else {
      var more := Fragment(value[1..]);
      assert Fragment(value) + t == Escape(value[0]) + (more + t);
      EscapeStays(value[0], more + t);
      FragmentStaysInside(value[1..], t);
      BodiesAppend(Escape(value[0]), more);
    }
  }

  // Step by step

  /** Outside literals the first character stays. */
  lemma HeadStays(values: Values, s: string, mode: Mode)
    requires mode != Literal(false) && Substitute(values, s, mode).Ok?
    ensures var t := Substitute(values, s, mode).value; (s == [] <==> t == []) && (s != [] ==> t[0] == s[0])
  {
  }

  lemma CopyKeepsFirstItem(values: Values, s: string, mode: Mode)
    requires s != [] && !AtToken(s, mode) && Substitute(values, s, mode).Ok?
    ensures var t := Substitute(values, s, mode).value; var next := Next(s[0], Peek(s, 0), mode, true);
      && Substitute(values, s[1..], next).Ok?
      && Items(t, mode, true) ==
           [Read(s[0], Peek(s, 0), mode, true)] + Items(Substitute(values, s[1..], next).value, next, true)
  {
    var next := Next(s[0], Peek(s, 0), mode, true);
    var t := Substitute(values, s, mode).value;
    var rest := Substitute(values, s[1..], next).value;
    assert t[0] == s[0] && t[1..] == rest;
    if !next.Literal? {
      HeadStays(values, s[1..], next);
      assert Peek(t, 0) == Peek(s, 0);
    }
  }

  lemma ExpandCopies(values: Values, s: string, mode: Mode)
    requires s != [] && !AtToken(s, mode)
    ensures var next := Next(s[0], Peek(s, 0), mode, true);
      Expand(values, Items(s, mode, true), Escaped(mode)) ==
      Prepend([Read(s[0], Peek(s, 0), mode, true)], Expand(values, Items(s[1..], next, true), Escaped(next)))
  {
    var items := Items(s, mode, true);
    var next := Next(s[0], Peek(s, 0), mode, true);
    assert items[0] == Read(s[0], Peek(s, 0), mode, true);
    assert items[1..] == Items(s[1..], next, true);
    if mode.Literal? {
      RunIsBody(s, mode.escaped);
      TokenEndInBody(s);
    }
  }

  lemma ExpandReplaces(values: Values, s: string)
    requires AtToken(s, Literal(false)) && TokenEnd(s) <= BodyEnd(s, false)
    ensures Expand(values, Items(s, Literal(false), true), false) ==
      match values(s[..TokenEnd(s)])
      case Missing => MissingFile(s[..TokenEnd(s)])
      case Value(v) =>
        Prepend(Bodies(Fragment(v)), Expand(values, Items(s[TokenEnd(s)..], Literal(false), true), false))
  {
    var items := Items(s, Literal(false), true);
    var n := TokenEnd(s);
    RunIsBody(s, false);
    TokenEndInBody(s);
    SkipBody(s, false, n);
    assert Run(items)[..n] == s[..n];
    assert items[0].Body?;
  }

  /** If no token takes in a closing quote, structure is kept whatever the values. */
  lemma {:induction false} InsideKeepsStructure(values: Values, s: string, mode: Mode)
    requires TokensInside(s, mode)
    ensures KeepsStructure(values, s, mode)
    decreases |s|
  {
    if s != [] {
      if AtToken(s, mode) {
        var rest := s[TokenEnd(s)..];
        ReplaceFirst(values, s);
        ExpandReplaces(values, s);
        InsideKeepsStructure(values, rest, mode);
        if values(s[..TokenEnd(s)]).Value? && Substitute(values, rest, mode).Ok? {
          FragmentStaysInside(values(s[..TokenEnd(s)]).text, Substitute(values, rest, mode).value);
        }
      } else {
        var next := Next(s[0], Peek(s, 0), mode, true);
        ExpandCopies(values, s, mode);
        InsideKeepsStructure(values, s[1..], next);
        if Substitute(values, s, mode).Ok? {
          CopyKeepsFirstItem(values, s, mode);
        }
      }
    }
  }

  /** Every variable has the value "x". */
  function ConstantX(token: string): Lookup {
    Value("x")
  }

  lemma FragmentOfX()
    ensures Fragment("x") == "x" && Bodies("x") == [Body('x')]
  {
    assert Fragment("x") == Escape('x') + Fragment([]);
  }

  lemma {:induction false} ConstantsAreFound(s: string, mode: Mode)
    ensures Substitute(ConstantX, s, mode).Ok?
    decreases |s|
  {
    if s != [] {
      if AtToken(s, mode) {
        ConstantsAreFound(s[TokenEnd(s)..], mode);
      } else {
        ConstantsAreFound(s[1..], Next(s[0], Peek(s, 0), mode, true));
      }
    }
  }

  lemma SwallowBreaksStructure(s: string)
    requires AtToken(s, Literal(false)) && TokenEnd(s) > BodyEnd(s, false)
    ensures !KeepsStructure(ConstantX, s, Literal(false))
  {
    ConstantsAreFound(s, Literal(false));
    var t := Substitute(ConstantX, s, Literal(false)).value;
    ReplaceFirst(ConstantX, s);
    FragmentOfX();
    assert t[0] == 'x';
    assert Items(t, Literal(false), true)[0] == Body('x');
    RunIsBody(s, false);
    TokenEndInBody(s);
    var items := Items(s, Literal(false), true);
    assert items[0] == Body('{');
    var rest := Expand(ConstantX, items[1..], false);
    assert Expand(ConstantX, items, false) == Prepend([items[0]], rest);
    if rest.Ok? {
      assert ([items[0]] + rest.value)[0] == Body('{');
    }
  }

  /** If some token does, constant values show it. */
  lemma {:induction false} OutsideBreaksStructure(s: string, mode: Mode)
    requires !TokensInside(s, mode)
    ensures !KeepsStructure(ConstantX, s, mode)
    decreases |s|
  {
    ConstantsAreFound(s, mode);
    if AtToken(s, mode) {
      if TokenEnd(s) > BodyEnd(s, false) {
        SwallowBreaksStructure(s);
      } else {
        var rest := s[TokenEnd(s)..];
        ReplaceFirst(ConstantX, s);
        ExpandReplaces(ConstantX, s);
        OutsideBreaksStructure(rest, mode);
        ConstantsAreFound(rest, mode);
        FragmentOfX();
        FragmentStaysInside("x", Substitute(ConstantX, rest, mode).value);
        PrependIsInjective(Bodies("x"), Expand(ConstantX, Items(rest, mode, true), false),
                           Items(Substitute(ConstantX, rest, mode).value, mode, true));
      }
    } else {
      var next := Next(s[0], Peek(s, 0), mode, true);
      ExpandCopies(ConstantX, s, mode);
      OutsideBreaksStructure(s[1..], next);
      CopyKeepsFirstItem(ConstantX, s, mode);
      PrependIsInjective([Read(s[0], Peek(s, 0), mode, true)],
                         Expand(ConstantX, Items(s[1..], next, true), Escaped(next)),
                         Items(Substitute(ConstantX, s[1..], next).value, next, true));
    }
  }

  lemma PrependIsInjective<T>(before: seq<T>, result: Result<seq<T>>, after: seq<T>)
    requires result != Ok(after)
    ensures Prepend(before, result) != Ok(before + after)
  {
    if result.Ok? {
      assert (before + result.value)[|before|..] == result.value;
      assert (before + after)[|before|..] == after;
    }
  }

  /** Substitution keeps the structure of a file for every environment if and only if no token of the file takes in
      the closing quote of its literal; an environment of constant values decides. */
  lemma StructureIsKeptIffTokensInside(values: Values, text: string)
    ensures TokensInside(text, Plain) ==> KeepsStructure(values, text, Plain)
    ensures TokensInside(text, Plain) <==> KeepsStructure(ConstantX, text, Plain)
  {
    if TokensInside(text, Plain) {
      InsideKeepsStructure(values, text, Plain);
      InsideKeepsStructure(ConstantX, text, Plain);
    } else {
      OutsideBreaksStructure(text, Plain);
    }
  }
}
