/**
Rendering the template of a slash command, with a mask that tells the characters of the template from those that came
from the arguments. The arguments, split into words, are given.
*/
module CommandTemplates {
  import opened Sequences

  // Template variables: `$ARGUMENTS` and `$1`, `$2`, ..., not followed by a letter, digit or underscore

  const ARGUMENTS := "$ARGUMENTS"

  predicate IsDigit(c: char) {
    '0' <= c <= '9'
  }

  predicate IsWordChar(c: char) {
    'A' <= c <= 'Z' || 'a' <= c <= 'z' || IsDigit(c) || c == '_'
  }

  /** How many digits start `s`. */
  function Digits(s: string): (n: nat)
    ensures n <= |s|
  {
    if s == [] || !IsDigit(s[0]) then 0 else 1 + Digits(s[1..])
  }

  /** The length of what could be a variable at the start of `s`, whatever follows it. */
  function Candidate(s: string): (n: nat)
    ensures n <= |s|
  {
    if ARGUMENTS <= s then |ARGUMENTS|
    else if |s| >= 2 && s[0] == '$' && '1' <= s[1] <= '9' then 1 + Digits(s[1..])
    else 0
  }

  /** The length of the variable that starts `s`; 0 if there is none. */
  function VariableLength(s: string): (n: nat)
    ensures n <= |s|
  {
    var n := Candidate(s);
    if n < |s| && IsWordChar(s[n]) then 0 else n
  }

  /** The number that a string of digits writes, in tens. */
  function Number(digits: string): nat {
    if digits == [] then 0
    else
      var d := digits[|digits| - 1];
      Number(digits[..|digits| - 1]) * 10 + if IsDigit(d) then d as int - '0' as int else 0
  }

  function Value(variable: string, arguments: string, words: seq<string>): string {
    if variable == ARGUMENTS then arguments
    else if variable == [] then []
    else
      var index := Number(variable[1..]) - 1;
      if 0 <= index < |words| then words[index] else []
  }

  // The rendered text, character by character, with the mask

  datatype Marked = Marked(c: char, template: bool)

  function Marks(s: string, template: bool): seq<Marked> {
    if s == [] then [] else [Marked(s[0], template)] + Marks(s[1..], template)
  }

  function Text(marked: seq<Marked>): string {
    if marked == [] then [] else [marked[0].c] + Text(marked[1..])
  }

  function Mask(marked: seq<Marked>): seq<bool> {
    if marked == [] then [] else [marked[0].template] + Mask(marked[1..])
  }

  /** What is rendered so far, and the rest of the template. */
  function RenderFrom(content: string, arguments: string, words: seq<string>, done: seq<Marked>): seq<Marked> {
    if content == [] then done
    else
      var n := VariableLength(content);
      if n > 0 then
        RenderFrom(content[n..], arguments, words, done + Marks(Value(content[..n], arguments, words), false))
      else RenderFrom(content[1..], arguments, words, done + [Marked(content[0], true)])
  }

  function Rendered(content: string, arguments: string, words: seq<string>): seq<Marked> {
    RenderFrom(content, arguments, words, [])
  }

  lemma {:induction false} OfAppend(a: seq<Marked>, b: seq<Marked>)
    ensures Text(a + b) == Text(a) + Text(b) && Mask(a + b) == Mask(a) + Mask(b)
  {
    if a == [] {
      assert a + b == b;
    } else {
      assert (a + b)[1..] == a[1..] + b;
      OfAppend(a[1..], b);
    }
  }

  lemma {:induction false} OfMarks(s: string, template: bool)
    ensures Text(Marks(s, template)) == s && |Mask(Marks(s, template))| == |s|
    ensures forall m <- Mask(Marks(s, template)) :: m == template
  {
    if s != [] {
      OfMarks(s[1..], template);
    }
  }

  /** Text and mask are equally long. */
  lemma {:induction false} SameLength(marked: seq<Marked>)
    ensures |Text(marked)| == |Mask(marked)| == |marked|
    ensures forall i :: 0 <= i < |marked| ==> marked[i] == Marked(Text(marked)[i], Mask(marked)[i])
  {
    if marked != [] {
      SameLength(marked[1..]);
    }
  }

  // The loop

  lemma {:induction false} MarksOneMore(s: string, c: char, template: bool)
    ensures Marks(s + [c], template) == Marks(s, template) + [Marked(c, template)]
  {
    if s == [] {
      assert s + [c] == [c];
      assert Marks([c], template) == [Marked(c, template)] + Marks([], template);
    } else {
      assert (s + [c])[1..] == s[1..] + [c];
      MarksOneMore(s[1..], c, template);
    }
  }

  lemma MaskOfMarks(s: string, template: bool)
    ensures Mask(Marks(s, template)) == seq(|s|, i => template)
  {
    OfMarks(s, template);
    var mask := Mask(Marks(s, template));
    forall i | 0 <= i < |s| ensures mask[i] == template {
      assert mask[i] in mask;
    }
  }

  lemma LiteralIsKept(content: string, start: nat, index: nat, arguments: string, words: seq<string>, done: seq<Marked>)
    requires start <= index < |content| && VariableLength(content[index..]) == 0
    ensures RenderFrom(content[index..], arguments, words, done + Marks(content[start..index], true)) ==
            RenderFrom(content[index + 1..], arguments, words, done + Marks(content[start..index + 1], true))
  {
    var s := content[index..];
    assert s[1..] == content[index + 1..];
    assert content[start..index + 1] == content[start..index] + [content[index]];
    MarksOneMore(content[start..index], content[index], true);
    Regrouped(done, Marks(content[start..index], true), [Marked(s[0], true)], Marks(content[start..index + 1], true),
              done + Marks(content[start..index + 1], true));
  }

  /** The next variable at or after `start`, or the end. */
  method FindVariable(content: string, start: nat, ghost arguments: string, ghost words: seq<string>,
                      ghost done: seq<Marked>)
    returns (index: nat, length: nat)
    requires start <= |content|
    ensures start <= index <= |content| && length == VariableLength(content[index..])
    ensures index == |content| || length > 0
    ensures RenderFrom(content[start..], arguments, words, done) ==
            RenderFrom(content[index..], arguments, words, done + Marks(content[start..index], true))
  {
    index := start;
    length := VariableLength(content[index..]);
    assert done + Marks(content[start..start], true) == done;
    while index < |content| && length == 0
      invariant start <= index <= |content| && length == VariableLength(content[index..])
      invariant RenderFrom(content[start..], arguments, words, done) ==
                RenderFrom(content[index..], arguments, words, done + Marks(content[start..index], true))
    {
      LiteralIsKept(content, start, index, arguments, words, done);
      index := index + 1;
      length := VariableLength(content[index..]);
    }
  }

  /** Append `part`, marked as the template's or not. */
  method Extend(text: string, mask: seq<bool>, part: string, template: bool, ghost done: seq<Marked>)
    returns (longer: string, wider: seq<bool>)
    requires text == Text(done) && mask == Mask(done)
    ensures longer == Text(done + Marks(part, template)) && wider == Mask(done + Marks(part, template))
  {
    OfAppend(done, Marks(part, template));
    OfMarks(part, template);
    MaskOfMarks(part, template);
    longer, wider := text + part, mask + seq(|part|, i => template);
  }

  method RenderCommandTemplate(content: string, arguments: string, words: seq<string>)
    returns (text: string, mask: seq<bool>)
    ensures text == Text(Rendered(content, arguments, words)) && mask == Mask(Rendered(content, arguments, words))
  {
    text, mask := [], [];
    var cursor := 0;
    ghost var done: seq<Marked> := [];
    assert content[0..] == content;
    while cursor < |content|
      invariant 0 <= cursor <= |content| && text == Text(done) && mask == Mask(done)
      invariant RenderFrom(content[cursor..], arguments, words, done) == Rendered(content, arguments, words)
    {
      var index, length := FindVariable(content, cursor, arguments, words, done);
      text, mask := Extend(text, mask, content[cursor..index], true, done);
      done := done + Marks(content[cursor..index], true);
      if index < |content| {
        var s := content[index..];
        assert s[length..] == content[index + length..];
        text, mask := Extend(text, mask, Value(s[..length], arguments, words), false, done);
        done := done + Marks(Value(s[..length], arguments, words), false);
      }
      cursor := index + length;
    }
  }

  // What is from the template and what is not

  function Those(marked: seq<Marked>, template: bool): string {
    if marked == [] then []
    else (if marked[0].template == template then [marked[0].c] else []) + Those(marked[1..], template)
  }

  lemma {:induction false} ThoseAppend(a: seq<Marked>, b: seq<Marked>, template: bool)
    ensures Those(a + b, template) == Those(a, template) + Those(b, template)
  {
    if a == [] {
      assert a + b == b;
    } else {
      assert (a + b)[1..] == a[1..] + b;
      ThoseAppend(a[1..], b, template);
    }
  }

  lemma {:induction false} ThoseOfMarks(s: string, template: bool, asked: bool)
    ensures Those(Marks(s, template), asked) == if template == asked then s else []
  {
    if s != [] {
      ThoseOfMarks(s[1..], template, asked);
    }
  }

  /** The template without its variables. */
  function Literals(content: string): string {
    if content == [] then []
    else
      var n := VariableLength(content);
      if n > 0 then Literals(content[n..]) else [content[0]] + Literals(content[1..])
  }

  /** The values of the variables of the template, in order. */
  function Values(content: string, arguments: string, words: seq<string>): string {
    if content == [] then []
    else
      var n := VariableLength(content);
      if n > 0 then Value(content[..n], arguments, words) + Values(content[n..], arguments, words)
      else Values(content[1..], arguments, words)
  }

  lemma {:induction false} RenderFromTells(content: string, arguments: string, words: seq<string>, done: seq<Marked>)
    ensures var all := RenderFrom(content, arguments, words, done);
      && Those(all, true) == Those(done, true) + Literals(content)
      && Those(all, false) == Those(done, false) + Values(content, arguments, words)
    decreases |content|
  {
    if content != [] {
      var n := VariableLength(content);
      if n > 0 {
        var value := Value(content[..n], arguments, words);
        RenderFromTells(content[n..], arguments, words, done + Marks(value, false));
        ThoseAppend(done, Marks(value, false), true);
        ThoseAppend(done, Marks(value, false), false);
        ThoseOfMarks(value, false, true);
        ThoseOfMarks(value, false, false);
      } else {
        var one := [Marked(content[0], true)];
        RenderFromTells(content[1..], arguments, words, done + one);
        ThoseAppend(done, one, true);
        ThoseAppend(done, one, false);
        assert one == Marks([content[0]], true);
      }
    }
  }

  /** The characters marked as the template's are the template without its variables, whatever the arguments; the
      others are the values of the variables, each written once and never searched for variables again. */
  lemma MaskTellsTemplateFromValues(content: string, arguments: string, words: seq<string>)
    ensures Those(Rendered(content, arguments, words), true) == Literals(content)
    ensures Those(Rendered(content, arguments, words), false) == Values(content, arguments, words)
  {
    RenderFromTells(content, arguments, words, []);
  }
}
