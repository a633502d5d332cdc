/**
What a template variable is and stands for, by its characters, and that rendering replaces each one where it is.
*/
module TemplateVariables {
  import opened CommandTemplates
  import opened Sequences

  /** `$ARGUMENTS`, or a dollar sign and digits that do not begin with a zero. */
  predicate IsVariable(v: string) {
    || v == "$ARGUMENTS"
    || (&& |v| >= 2 && v[0] == '$' && '1' <= v[1] <= '9'
        && forall k :: 1 <= k < |v| ==> '0' <= v[k] <= '9')
  }

  /** No letter, digit or underscore follows. */
  predicate EndsWord(rest: string) {
    rest == [] ||
    !('A' <= rest[0] <= 'Z' || 'a' <= rest[0] <= 'z' || '0' <= rest[0] <= '9' || rest[0] == '_')
  }

  function Power10(n: nat): nat {
    if n == 0 then 1 else 10 * Power10(n - 1)
  }

  /** The number that decimal digits write, place by place. */
  function Decimal(digits: string): nat {
    if digits == [] then 0
    else
      var d := digits[0];
      (if '0' <= d <= '9' then d as int - '0' as int else 0) * Power10(|digits| - 1) + Decimal(digits[1..])
  }

  lemma {:induction false} DecimalOfOneMore(digits: string, d: char)
    ensures Decimal(digits + [d]) == Decimal(digits) * 10 + if '0' <= d <= '9' then d as int - '0' as int else 0
  {
    if digits == [] {
      assert digits + [d] == [d];
      assert Decimal([d][1..]) == 0 && Power10(0) == 1;
    } else {
      var s := digits + [d];
      assert s[1..] == digits[1..] + [d];
      DecimalOfOneMore(digits[1..], d);
      assert Power10(|s| - 1) == 10 * Power10(|digits| - 1);
      var x := if '0' <= digits[0] <= '9' then digits[0] as int - '0' as int else 0;
      TenTimes(x, Power10(|digits| - 1));
    }
  }

  lemma TenTimes(x: int, y: int)
    ensures x * (10 * y) == x * y * 10
  {
  }

  lemma {:induction false} NumberIsDecimal(digits: string)
    ensures Number(digits) == Decimal(digits)
  {
    if digits != [] {
      var most, last := digits[..|digits| - 1], digits[|digits| - 1];
      NumberIsDecimal(most);
      DecimalOfOneMore(most, last);
      assert digits == most + [last];
    }
  }

  // Which variable begins a text

  lemma {:induction false} DigitsAreLongest(s: string)
    ensures forall k :: 0 <= k < Digits(s) ==> '0' <= s[k] <= '9'
    ensures Digits(s) < |s| ==> !('0' <= s[Digits(s)] <= '9')
  {
    if s != [] && IsDigit(s[0]) {
      DigitsAreLongest(s[1..]);
      forall k | 0 <= k < Digits(s) ensures '0' <= s[k] <= '9' {
        assert k > 0 ==> s[k] == s[1..][k - 1];
      }
    }
  }

  lemma CandidateIsVariable(s: string)
    requires Candidate(s) > 0
    ensures IsVariable(s[..Candidate(s)])
    ensures !(ARGUMENTS <= s) ==> EndsWord(s[Candidate(s)..]) || !('0' <= s[Candidate(s)] <= '9')
  {
    if !(ARGUMENTS <= s) {
      var n := Candidate(s);
      DigitsAreLongest(s[1..]);
      assert forall k :: 1 <= k < |s| ==> s[k] == s[1..][k - 1];
    }
  }

  /** A text begins with a variable of length `n` exactly if its first `n` characters are one and the word ends
      there. */
  lemma VariableLengthIff(s: string, n: nat)
    requires 0 < n <= |s|
    ensures VariableLength(s) == n <==> IsVariable(s[..n]) && EndsWord(s[n..])
  {
    if VariableLength(s) == n {
      CandidateIsVariable(s);
    }
    if IsVariable(s[..n]) && EndsWord(s[n..]) {
      if s[..n] == "$ARGUMENTS" {
        assert ARGUMENTS <= s && n == |ARGUMENTS|;
      } else {
        assert s[0] == s[..n][0] && s[1] == s[..n][1];
        assert !(ARGUMENTS <= s);
        assert forall k :: 1 <= k < n ==> s[..n][k] == s[k];
        DigitsAreLongest(s[1..]);
        DigitsEndAt(s, n);
      }
    }
  }

  lemma DigitsEndAt(s: string, n: nat)
    requires 1 <= n <= |s| && (forall k :: 1 <= k < n ==> '0' <= s[k] <= '9') && EndsWord(s[n..])
    ensures Digits(s[1..]) == n - 1
  {
    DigitsAreLongest(s[1..]);
    assert forall k :: 0 <= k < |s| - 1 ==> s[1..][k] == s[k + 1];
    assert n < |s| ==> s[1..][n - 1] == s[n..][0];
  }

  // Rendering

  /** What the beginning of a template becomes, and what is left of it. */
  function Piece(content: string, arguments: string, words: seq<string>): seq<Marked>
    requires content != []
  {
    var n := VariableLength(content);
    if n > 0 then Marks(Value(content[..n], arguments, words), false) else [Marked(content[0], true)]
  }

  function Rest(content: string): (rest: string)
    requires content != []
    ensures |rest| < |content|
  {
    var n := VariableLength(content);
    if n > 0 then content[n..] else content[1..]
  }

  lemma RenderFromStep(content: string, arguments: string, words: seq<string>, done: seq<Marked>)
    requires content != []
    ensures RenderFrom(content, arguments, words, done) ==
            RenderFrom(Rest(content), arguments, words, done + Piece(content, arguments, words))
  {
  }

  lemma {:induction false} RenderFromDone(content: string, arguments: string, words: seq<string>, done: seq<Marked>)
    ensures RenderFrom(content, arguments, words, done) == done + Rendered(content, arguments, words)
    decreases |content|, 1
  {
    if content == [] {
      assert done + [] == done;
    } else {
      var piece := Piece(content, arguments, words);
      RenderFromStep(content, arguments, words, done);
      RenderFromDone(Rest(content), arguments, words, done + piece);
      RenderedStep(content, arguments, words);
      Regrouped(done, piece, Rendered(Rest(content), arguments, words), Rendered(content, arguments, words),
                done + Rendered(content, arguments, words));
    }
  }

  lemma {:induction false} RenderedStep(content: string, arguments: string, words: seq<string>)
    requires content != []
    ensures Rendered(content, arguments, words) ==
            Piece(content, arguments, words) + Rendered(Rest(content), arguments, words)
    decreases |content|, 0
  {
    var piece := Piece(content, arguments, words);
    RenderFromStep(content, arguments, words, []);
    assert [] + piece == piece;
    RenderFromDone(Rest(content), arguments, words, piece);
  }

  lemma {:induction false} DigitsInFront(a: string, rest: string)
    requires rest != [] && rest[0] == '$'
    ensures Digits(a + rest) == Digits(a)
  {
    if a == [] {
      assert a + rest == rest;
    } else {
      assert (a + rest)[1..] == a[1..] + rest;
      DigitsInFront(a[1..], rest);
    }
  }

  /** A variable reaches up to the next dollar sign at most. */
  lemma VariableInFront(a: string, rest: string)
    requires a != [] && rest != [] && rest[0] == '$'
    ensures VariableLength(a + rest) == VariableLength(a)
  {
    var s := a + rest;
    assert s[|a|] == '$';
    if ARGUMENTS <= s {
      assert forall k :: 1 <= k < |ARGUMENTS| ==> ARGUMENTS[k] != '$';
      assert forall k :: 1 <= k < |ARGUMENTS| ==> s[k] == ARGUMENTS[k];
      assert |a| >= |ARGUMENTS|;
      assert a == s[..|a|];
    } else {
      assert ARGUMENTS <= a ==> ARGUMENTS <= s;
      assert s[1..] == a[1..] + rest;
      DigitsInFront(a[1..], rest);
    }
    assert Candidate(s) == Candidate(a);
  }

  lemma CutInFront(a: string, rest: string, n: nat)
    requires n <= |a|
    ensures (a + rest)[..n] == a[..n] && (a + rest)[n..] == a[n..] + rest
  {
  }

  lemma PieceInFront(a: string, rest: string, arguments: string, words: seq<string>)
    requires a != [] && rest != [] && rest[0] == '$'
    ensures Piece(a + rest, arguments, words) == Piece(a, arguments, words) && Rest(a + rest) == Rest(a) + rest
  {
    VariableInFront(a, rest);
    var n := VariableLength(a);
    if n > 0 {
      CutInFront(a, rest, n);
    } else {
      CutInFront(a, rest, 1);
    }
  }

  /** Rendering is done piece by piece between dollar signs. */
  lemma {:induction false} RenderedInFront(a: string, rest: string, arguments: string, words: seq<string>)
    requires rest != [] && rest[0] == '$'
    ensures Rendered(a + rest, arguments, words) ==
            Rendered(a, arguments, words) + Rendered(rest, arguments, words)
    decreases |a|
  {
    if a == [] {
      assert a + rest == rest;
      assert [] + Rendered(rest, arguments, words) == Rendered(rest, arguments, words);
    } else {
      PieceInFront(a, rest, arguments, words);
      RenderedStep(a, arguments, words);
      RenderedStep(a + rest, arguments, words);
      RenderedInFront(Rest(a), rest, arguments, words);
      Regrouped(Piece(a, arguments, words), Rendered(Rest(a), arguments, words), Rendered(rest, arguments, words),
                Rendered(Rest(a) + rest, arguments, words), Rendered(a + rest, arguments, words));
    }
  }

  /**
  Wherever a variable stands in a template, it is replaced in its place, and what is in front of it and behind it is
  rendered as if the rest were not there: `$ARGUMENTS` by the whole argument text, and a number by the word it counts,
  or by nothing if there are not so many.
  */
  lemma VariableIsReplaced(a: string, v: string, b: string, arguments: string, words: seq<string>)
    requires IsVariable(v) && EndsWord(b)
    ensures var value := if v == "$ARGUMENTS" then arguments
                         else if 1 <= Decimal(v[1..]) <= |words| then words[Decimal(v[1..]) - 1]
                         else "";
      Rendered(a + v + b, arguments, words) ==
        Rendered(a, arguments, words) + Marks(value, false) + Rendered(b, arguments, words)
  {
    var s, value := v + b, Value(v, arguments, words);
    assert s[..|v|] == v && s[|v|..] == b;
    VariableLengthIff(s, |v|);
    RenderedStep(s, arguments, words);
    NumberIsDecimal(v[1..]);
    RenderedInFront(a, s, arguments, words);
    assert a + v + b == a + s;
    Regrouped(Rendered(a, arguments, words), Marks(value, false), Rendered(b, arguments, words),
              Rendered(s, arguments, words), Rendered(a + s, arguments, words));
  }

  /** Any other character stays, as the template's. */
  lemma LiteralStays(c: char, b: string, arguments: string, words: seq<string>)
    requires forall n :: 0 < n <= |[c] + b| ==> !(IsVariable(([c] + b)[..n]) && EndsWord(([c] + b)[n..]))
    ensures Rendered([c] + b, arguments, words) == [Marked(c, true)] + Rendered(b, arguments, words)
  {
    var s := [c] + b;
    var n := VariableLength(s);
    if n > 0 {
      VariableLengthIff(s, n);
    }
    RenderedStep(s, arguments, words);
    assert s[1..] == b;
  }

  /** What a mark says, character by character. */
  lemma {:induction false} MarksAre(s: string, template: bool)
    ensures |Marks(s, template)| == |s| && forall i :: 0 <= i < |s| ==> Marks(s, template)[i] == Marked(s[i], template)
  {
    if s != [] {
      MarksAre(s[1..], template);
    }
  }
}
