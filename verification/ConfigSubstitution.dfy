/**
Variable substitution in configuration files: `{env:NAME}` and `{file:path}` inside string literals.

The environment and the referenced files are a function from tokens to values.
*/
module ConfigSubstitution {
  import opened ConfigText

  /** What a token refers to: a text, or a file that is not there or cannot be read. */
  datatype Lookup = Value(text: string) | Missing

  datatype Result<T> = Ok(value: T) | MissingFile(token: string)

  type Values = string -> Lookup

  // Fragments

  type Unit = n: int | 0 <= n < 0x1_0000

  function HexDigit(d: int): char
    requires 0 <= d < 16
  {
    if d < 10 then ('0' as int + d) as char else ('a' as int + d - 10) as char
  }

  function Hex4(n: Unit): string {
    [HexDigit(n / 16 / 16 / 16), HexDigit(n / 16 / 16 % 16), HexDigit(n / 16 % 16), HexDigit(n % 16)]
  }

  /** One character in UTF-16. */
  function Utf16(c: char): seq<Unit> {
    var n := c as int;
    if n < 0x1_0000 then [n] else [0xD800 + (n - 0x1_0000) / 1024, 0xDC00 + (n - 0x1_0000) % 1024]
  }

  function EscapedUnit(unit: Unit): string {
    ['\\', 'u'] + Hex4(unit)
  }

  function EscapedUnits(units: seq<Unit>): string {
    if units == [] then [] else EscapedUnit(units[0]) + EscapedUnits(units[1..])
  }

  /** The letter of a two-character escape, or ' ' if there is none. */
  function ShortEscape(c: char): char {
    if c == '"' || c == '\\' then c
    else if c == '\n' then 'n'
    else if c == '\r' then 'r'
    else if c == '\t' then 't'
    else if c as int == 12 then 'f'
    else if c as int == 8 then 'b'
    else ' '
  }

  function Escape(c: char): string {
    if ShortEscape(c) != ' ' then ['\\', ShortEscape(c)]
    else if ' ' <= c <= '~' then [c]
    else EscapedUnits(Utf16(c))
  }

  /** The inside of the JSON literal for `value`. */
  function Fragment(value: string): string {
    if value == [] then [] else Escape(value[0]) + Fragment(value[1..])
  }

  // What a fragment means (RFC 8259, section 7)

  datatype Decoded = Fine(units: seq<Unit>) | Malformed

  function Then(units: seq<Unit>, rest: Decoded): Decoded {
    if rest.Fine? then Fine(units + rest.units) else Malformed
  }

  function HexValue(c: char): (d: int)
    ensures -1 <= d < 16
  {
    if '0' <= c <= '9' then c as int - '0' as int
    else if 'a' <= c <= 'f' then c as int - 'a' as int + 10
    else if 'A' <= c <= 'F' then c as int - 'A' as int + 10
    else -1
  }

  predicate IsHex4(s: string) {
    |s| == 4 && HexValue(s[0]) >= 0 && HexValue(s[1]) >= 0 && HexValue(s[2]) >= 0 && HexValue(s[3]) >= 0
  }

  function Hex4Value(s: string): Unit
    requires IsHex4(s)
  {
    HexValue(s[0]) * 4096 + HexValue(s[1]) * 256 + HexValue(s[2]) * 16 + HexValue(s[3])
  }

  /** The unit an escape letter stands for; -1 for none. */
  function ShortMeaning(letter: char): (unit: int)
    ensures -1 <= unit < 128
  {
    if letter == '"' || letter == '\\' || letter == '/' then letter as int
    else if letter == 'n' then 10
    else if letter == 'r' then 13
    else if letter == 't' then 9
    else if letter == 'f' then 12
    else if letter == 'b' then 8
    else -1
  }

  /** The inside of a JSON literal, as UTF-16. */
  function Decode(body: string): Decoded {
    if body == [] then Fine([])
    else if body[0] == '\\' then
      if |body| >= 6 && body[1] == 'u' && IsHex4(body[2..6]) then Then([Hex4Value(body[2..6])], Decode(body[6..]))
      else if |body| >= 2 && ShortMeaning(body[1]) >= 0 then Then([ShortMeaning(body[1])], Decode(body[2..]))
      else Malformed
    else if body[0] == '"' || body[0] < ' ' then Malformed
    else Then(Utf16(body[0]), Decode(body[1..]))
  }

  lemma HexRoundTrip(d: int)
    requires 0 <= d < 16
    ensures HexValue(HexDigit(d)) == d
  {
  }

  lemma Hex4RoundTrip(n: Unit)
    ensures IsHex4(Hex4(n)) && Hex4Value(Hex4(n)) == n
  {
    HexRoundTrip(n / 16 / 16 / 16);
    HexRoundTrip(n / 16 / 16 % 16);
    HexRoundTrip(n / 16 % 16);
    HexRoundTrip(n % 16);
  }

  lemma EscapedUnitMeans(unit: Unit, rest: string)
    ensures Decode(EscapedUnit(unit) + rest) == Then([unit], Decode(rest))
  {
    var all := EscapedUnit(unit) + rest;
    assert all[2..6] == Hex4(unit) && all[6..] == rest;
    Hex4RoundTrip(unit);
  }

  lemma {:induction false} EscapedUnitsMean(units: seq<Unit>, rest: string)
    ensures Decode(EscapedUnits(units) + rest) == Then(units, Decode(rest))
  {
    if units == [] {
      assert EscapedUnits(units) + rest == rest;
    } else {
      var more := EscapedUnits(units[1..]) + rest;
      assert EscapedUnits(units) + rest == EscapedUnit(units[0]) + more;
      EscapedUnitMeans(units[0], more);
      EscapedUnitsMean(units[1..], rest);
      ThenTwice([units[0]], units[1..], Decode(rest));
      assert units == [units[0]] + units[1..];
    }
  }

  lemma ThenTwice(a: seq<Unit>, b: seq<Unit>, rest: Decoded)
    ensures Then(a, Then(b, rest)) == Then(a + b, rest)
  {
    if rest.Fine? {
      assert a + (b + rest.units) == a + b + rest.units;
    }
  }

  lemma EscapeMeans(c: char, rest: string)
    ensures Decode(Escape(c) + rest) == Then(Utf16(c), Decode(rest))
  {
    var all := Escape(c) + rest;
    if ShortEscape(c) != ' ' {
      assert all[0] == '\\' && all[1] == ShortEscape(c) && all[2..] == rest;
      assert ShortMeaning(ShortEscape(c)) == c as int;
    } else if ' ' <= c <= '~' {
      assert all[0] == c && all[1..] == rest;
    } else {
      EscapedUnitsMean(Utf16(c), rest);
    }
  }

  function Utf16Text(value: string): seq<Unit> {
    if value == [] then [] else Utf16(value[0]) + Utf16Text(value[1..])
  }

  /** Put anywhere in a literal, the fragment of a value reads as that value. */
  lemma {:induction false} FragmentMeansValue(value: string, rest: string)
    ensures Decode(Fragment(value) + rest) == Then(Utf16Text(value), Decode(rest))
  {
    if value == [] {
      assert Fragment(value) + rest == rest;
    } else {
      var more := Fragment(value[1..]) + rest;
      assert Fragment(value) + rest == Escape(value[0]) + more;
      EscapeMeans(value[0], more);
      FragmentMeansValue(value[1..], rest);
      ThenTwice(Utf16(value[0]), Utf16Text(value[1..]), Decode(rest));
    }
  }

  /** Values that differ are written differently in UTF-16. */
  lemma {:induction false} Utf16IsInjective(v: string, w: string)
    requires Utf16Text(v) == Utf16Text(w)
    ensures v == w
  {
    if v != [] && w != [] {
      var a, b := Utf16Text(v), Utf16Text(w);
      assert a[0] == Utf16(v[0])[0] && b[0] == Utf16(w[0])[0];
      assert a[1..] == Utf16(v[0])[1..] + Utf16Text(v[1..]) && b[1..] == Utf16(w[0])[1..] + Utf16Text(w[1..]);
      assert v[0] as int >= 0x1_0000 ==> w[0] as int >= 0x1_0000 && a[1] == Utf16(v[0])[1] && b[1] == Utf16(w[0])[1];
      assert v[0] == w[0];
      assert a[|Utf16(v[0])|..] == Utf16Text(v[1..]) && b[|Utf16(w[0])|..] == Utf16Text(w[1..]);
      Utf16IsInjective(v[1..], w[1..]);
    }
  }

  /** Values that differ have fragments that differ. */
  lemma FragmentIsInjective(v: string, w: string)
    requires Fragment(v) == Fragment(w)
    ensures v == w
  {
    FragmentMeansValue(v, []);
    FragmentMeansValue(w, []);
    assert Fragment(v) + [] == Fragment(v) && Fragment(w) + [] == Fragment(w);
    assert Utf16Text(v) + [] == Utf16Text(v) && Utf16Text(w) + [] == Utf16Text(w);
    Utf16IsInjective(v, w);
  }

  // Tokens

  /** Where the first closing brace of `s` is. */
  function FindClose(s: string): (n: nat)
    ensures n <= |s| && (n < |s| ==> s[n] == '}')
  {
    if s == [] || s[0] == '}' then 0 else 1 + FindClose(s[1..])
  }

  predicate OpensToken(s: string) {
    "{env:" <= s || "{file:" <= s
  }

  /** The length of the variable token that starts `s`; 0 if none does. */
  function TokenEnd(s: string): (n: nat)
    ensures n <= |s| && (n > 0 ==> s[0] == '{' && s[n - 1] == '}')
  {
    if OpensToken(s) && FindClose(s) < |s| then FindClose(s) + 1 else 0
  }

  function Prepend<T>(before: seq<T>, result: Result<seq<T>>): Result<seq<T>> {
    if result.Ok? then Ok(before + result.value) else result
  }

  lemma PrependTwice<T>(a: seq<T>, b: seq<T>, result: Result<seq<T>>)
    ensures Prepend(a + b, result) == Prepend(a, Prepend(b, result))
  {
    if result.Ok? {
      assert a + b + result.value == a + (b + result.value);
    }
  }

  predicate AtToken(s: string, mode: Mode) {
    mode == Literal(false) && TokenEnd(s) > 0
  }

  /** `s`, read from `mode` on, with the tokens of its literals replaced. */
  function Substitute(values: Values, s: string, mode: Mode): Result<string> {
    if s == [] then Ok([])
    else if AtToken(s, mode) then
      var token := s[..TokenEnd(s)];
      match values(token)
      case Missing => MissingFile(token)
      case Value(text) => Prepend(Fragment(text), Substitute(values, s[TokenEnd(s)..], mode))
    else Prepend([s[0]], Substitute(values, s[1..], Next(s[0], Peek(s, 0), mode, true)))
  }

  // The loop

  /** The scanner has written `output` and goes on at `index` in `mode`. */
  ghost predicate Writing(values: Values, text: string, output: string, index: nat, mode: Mode) {
    && index <= |text|
    && Prepend(output, Substitute(values, text[index..], mode)) == Substitute(values, text, Plain)
  }

  lemma WritingGoesOn(values: Values, text: string, output: string, index: nat, piece: string, end: nat, mode: Mode,
                      next: Mode)
    requires Writing(values, text, output, index, mode) && end <= |text|
    requires Substitute(values, text[index..], mode) == Prepend(piece, Substitute(values, text[end..], next))
    ensures Writing(values, text, output + piece, end, next)
  {
    PrependTwice(output, piece, Substitute(values, text[end..], next));
  }

  lemma CopyOne(values: Values, text: string, output: string, index: nat, mode: Mode)
    requires Writing(values, text, output, index, mode) && index < |text| && !AtToken(text[index..], mode)
    ensures Writing(values, text, output + [text[index]], index + 1, Next(text[index], Peek(text, index), mode, true))
  {
    var s := text[index..];
    var next := Next(s[0], Peek(s, 0), mode, true);
    assert Peek(s, 0) == Peek(text, index);
    assert s[1..] == text[index + 1..];
    assert Substitute(values, s, mode) == Prepend([s[0]], Substitute(values, s[1..], next));
    WritingGoesOn(values, text, output, index, [s[0]], index + 1, mode, next);
  }

  lemma ReplaceOne(values: Values, text: string, output: string, index: nat, token: string, v: string)
    requires Writing(values, text, output, index, Literal(false)) && AtToken(text[index..], Literal(false))
    requires token == text[index..][..TokenEnd(text[index..])] && values(token) == Value(v)
    ensures Writing(values, text, output + Fragment(v), index + |token|, Literal(false))
  {
    var s := text[index..];
    ReplaceFirst(values, s);
    assert s[|token|..] == text[index + |token|..];
    WritingGoesOn(values, text, output, index, Fragment(v), index + |token|, Literal(false), Literal(false));
  }

  lemma MissOne(values: Values, text: string, output: string, index: nat, token: string)
    requires Writing(values, text, output, index, Literal(false)) && AtToken(text[index..], Literal(false))
    requires token == text[index..][..TokenEnd(text[index..])] && values(token) == Missing
    ensures Substitute(values, text, Plain) == MissingFile(token)
  {
    ReplaceFirst(values, text[index..]);
  }

  lemma ReplaceFirst(values: Values, s: string)
    requires AtToken(s, Literal(false))
    ensures Substitute(values, s, Literal(false)) ==
      match values(s[..TokenEnd(s)])
      case Missing => MissingFile(s[..TokenEnd(s)])
      case Value(v) => Prepend(Fragment(v), Substitute(values, s[TokenEnd(s)..], Literal(false)))
  {
  }

  lemma WritingStarts(values: Values, text: string)
    ensures Writing(values, text, [], 0, Plain)
  {
    assert text[0..] == text;
    var all := Substitute(values, text, Plain);
    assert all.Ok? ==> [] + all.value == all.value;
  }

  lemma WritingEnds(values: Values, text: string, output: string, mode: Mode)
    requires Writing(values, text, output, |text|, mode)
    ensures Substitute(values, text, Plain) == Ok(output)
  {
    assert output + [] == output;
  }

  /** At a line break, a line comment is over. */
  lemma LineIsOver(values: Values, text: string, output: string, index: nat)
    requires Writing(values, text, output, index, Line) && (index < |text| ==> Breaks(text[index]))
    ensures Writing(values, text, output, index, Plain)
  {
  }

  method CopyLine(values: Values, text: string, start: nat, before: string) returns (output: string, index: nat)
    requires Writing(values, text, before, start, Plain) && start + 1 < |text| && text[start] == text[start + 1] == '/'
    ensures start < index && Writing(values, text, output, index, Plain)
  {
    output, index := before, start;
    ghost var mode := Plain;
    while index < |text| && text[index] !in "\r\n"
      invariant start <= index && Writing(values, text, output, index, mode)
      invariant mode == if index == start then Plain else if index == start + 1 then SecondOfLine else Line
    {
      CopyOne(values, text, output, index, mode);
      mode := Next(text[index], Peek(text, index), mode, true);
      output := output + [text[index]];
      index := index + 1;
    }
    LineIsOver(values, text, output, index);
  }

  method CopyBlock(values: Values, text: string, start: nat, before: string) returns (output: string, index: nat)
    requires Writing(values, text, before, start, Block)
    ensures start <= index && Writing(values, text, output, index, Plain)
  {
    output, index := before, start;
    while index < |text|
      invariant start <= index && Writing(values, text, output, index, Block)
    {
      CopyOne(values, text, output, index, Block);
      output := output + [text[index]];
      if text[index] == '*' && index + 1 < |text| && text[index + 1] == '/' {
        CopyOne(values, text, output, index + 1, SecondOfClose);
        output := output + [text[index + 1]];
        index := index + 2;
        return;
      }
      index := index + 1;
    }
  }

  method FindTokenEnd(text: string, start: nat) returns (end: nat)
    requires start <= |text|
    ensures end == if TokenEnd(text[start..]) > 0 then start + TokenEnd(text[start..]) else 0
  {
    if !("{env:" <= text[start..] || "{file:" <= text[start..]) {
      return 0;
    }
    end := start;
    while end < |text| && text[end] != '}'
      invariant start <= end <= |text|
      invariant end + FindClose(text[end..]) == start + FindClose(text[start..])
    {
      assert text[end..][1..] == text[end + 1..];
      end := end + 1;
    }
    end := if end < |text| then end + 1 else 0;
  }

  /** A token inside a literal is replaced, or its file is missing. */
  method ReplaceToken(values: Values, text: string, before: string, start: nat, end: nat)
    returns (output: Result<string>)
    requires Writing(values, text, before, start, Literal(false)) && start < |text|
    requires end > 0 && TokenEnd(text[start..]) > 0 && end == start + TokenEnd(text[start..])
    ensures output.MissingFile? ==> Substitute(values, text, Plain) == MissingFile(output.token)
    ensures output.Ok? ==> end <= |text| && Writing(values, text, output.value, end, Literal(false))
  {
    var token := text[start..end];
    assert token == text[start..][..TokenEnd(text[start..])];
    match values(token)
    case Missing =>
      MissOne(values, text, before, start, token);
      output := MissingFile(token);
    case Value(v) =>
      ReplaceOne(values, text, before, start, token, v);
      output := Ok(before + Fragment(v));
  }

  /** One round inside a literal: a token is replaced, or one character copied. */
  method LiteralStep(values: Values, text: string, before: string, start: nat, escaped: bool)
    returns (output: Result<string>, index: nat, inString: bool, stillEscaped: bool)
    requires Writing(values, text, before, start, Literal(escaped)) && start < |text|
    ensures output.MissingFile? ==> Substitute(values, text, Plain) == MissingFile(output.token)
    ensures output.Ok? ==> index > start && Writing(values, text, output.value, index, At(inString, stillEscaped))
    ensures stillEscaped ==> inString
  {
    inString, stillEscaped := true, escaped;
    if !escaped {
      var end := FindTokenEnd(text, start);
      if end > 0 {
        output := ReplaceToken(values, text, before, start, end);
        return output, end, true, false;
      }
    }
    CopyOne(values, text, before, start, Literal(escaped));
    var c := text[start];
    output, index := Ok(before + [c]), start + 1;
    inString, stillEscaped := InLiteral(c, escaped);
  }

  method SubstituteConfigVariables(values: Values, text: string) returns (result: Result<string>)
    ensures result == Substitute(values, text, Plain)
  {
    var output := [];
    var index, inString, escaped := 0, false, false;
    WritingStarts(values, text);
    while index < |text|
      invariant Writing(values, text, output, index, At(inString, escaped)) && (escaped ==> inString)
      decreases |text| - index
    {
      if inString {
        var written: Result<string>;
        written, index, inString, escaped := LiteralStep(values, text, output, index, escaped);
        if written.MissingFile? {
          return written;
        }
        output := written.value;
      } else if text[index] == '/' && index + 1 < |text| && text[index + 1] == '/' {
        output, index := CopyLine(values, text, index, output);
      } else if text[index] == '/' && index + 1 < |text| && text[index + 1] == '*' {
        CopyOne(values, text, output, index, Plain);
        CopyOne(values, text, output + ['/'], index + 1, SecondOfBlock);
        output, index := CopyBlock(values, text, index + 2, output + ['/'] + ['*']);
      } else {
        CopyOne(values, text, output, index, Plain);
        inString := text[index] == '"';
        output := output + [text[index]];
        index := index + 1;
      }
    }
    WritingEnds(values, text, output, At(inString, escaped));
    result := Ok(output);
  }
}
