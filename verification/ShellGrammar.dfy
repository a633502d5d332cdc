/**
The cut of a shell command by the grammar of its text: escapes, runs in single and in double quotes, operators, and
other characters; and that no operator is left outside of quotes.
*/
module ShellGrammar {
  import opened ShellCommands

  /** The operator that `s` begins with: `&&`, `||`, `;`, a line feed or `|`; "" if it begins with none. */
  function OperatorAt(s: string): (operator: string)
    ensures operator <= s
  {
    if "&&" <= s then "&&"
    else if "||" <= s then "||"
    else if ";" <= s then ";"
    else if "\n" <= s then "\n"
    else if "|" <= s then "|"
    else ""
  }

  /** Where the first single quote of `s` is; its length if there is none. */
  function SingleEnd(s: string): (n: nat)
    ensures n <= |s| && (n < |s| ==> s[n] == '\'') && forall i :: 0 <= i < n ==> s[i] != '\''
  {
    if s == [] || s[0] == '\'' then 0 else 1 + SingleEnd(s[1..])
  }

  /** Where the first double quote of `s` is that no backslash takes away; its length if there is none. */
  function DoubleEnd(s: string): (n: nat)
    ensures n <= |s| && (n < |s| ==> s[n] == '"')
  {
    if s == [] || s[0] == '"' then 0
    else if s[0] == '\\' && |s| >= 2 then 2 + DoubleEnd(s[2..])
    else 1 + DoubleEnd(s[1..])
  }

  function AtMost(n: nat, length: nat): nat {
    if n < length then n else length
  }

  /** How long the first unit of `s` is: a backslash with what it escapes, a run in quotes, or one character. A run that
      is not closed goes to the end. */
  function UnitLength(s: string): (n: nat)
    requires s != []
    ensures 1 <= n <= |s|
  {
    if s[0] == '\\' then AtMost(2, |s|)
    else if s[0] == '\'' then AtMost(SingleEnd(s[1..]) + 2, |s|)
    else if s[0] == '"' then AtMost(DoubleEnd(s[1..]) + 2, |s|)
    else 1
  }

  /** Cutting between units, at the operators. */
  function Cut(s: string): (pieces: seq<Piece>)
    ensures pieces != []
  {
    if s == [] then [Piece("", "")]
    else if OperatorAt(s) != "" then [Piece("", OperatorAt(s))] + Cut(s[|OperatorAt(s)|..])
    else
      var n := UnitLength(s);
      var rest := Cut(s[n..]);
      [Piece(s[..n] + rest[0].text, rest[0].operator)] + rest[1..]
  }

  lemma OperatorIs(s: string)
    ensures |OperatorAt(s)| == OperatorLength(s) && OperatorAt(s) == s[..OperatorLength(s)]
  {
    assert "&&" <= s <==> |s| >= 2 && s[0] == '&' && s[1] == '&';
    assert "||" <= s <==> |s| >= 2 && s[0] == '|' && s[1] == '|';
  }

  // The state machine reads units

  lemma AfterTwice(a: string, b: string, pieces: seq<Piece>)
    requires pieces != []
    ensures After(a, After(b, pieces)) == After(a + b, pieces)
  {
    assert a + (b + pieces[0].text) == a + b + pieces[0].text;
  }

  lemma PiecesStep(s: string, quote: Quote, escaped: bool)
    requires s != [] && !AtOperator(s, quote, escaped)
    ensures Pieces(s, quote, escaped) ==
            After(s[..1], Pieces(s[1..], NextQuote(s[0], quote, escaped), NextEscaped(s[0], quote, escaped)))
  {
    assert s[..1] == [s[0]];
  }

  /** The pieces of `s` when its first `n` characters are kept together, and reading goes on unquoted. */
  predicate KeepsTogether(pieces: seq<Piece>, s: string, n: nat)
    requires n <= |s|
  {
    pieces == After(s[..n], Pieces(s[n..], Unquoted, false))
  }

  lemma OneMoreTogether(s: string, k: nat, n: nat, pieces: seq<Piece>, rest: seq<Piece>)
    requires k <= |s| && n <= |s| - k && rest != [] && pieces == After(s[..k], rest)
    requires KeepsTogether(rest, s[k..], n)
    ensures KeepsTogether(pieces, s, k + n)
  {
    assert s[k..][n..] == s[k + n..];
    assert s[..k] + s[k..][..n] == s[..k + n];
    AfterTwice(s[..k], s[k..][..n], Pieces(s[k + n..], Unquoted, false));
  }

  lemma NothingTogether(s: string, quote: Quote, escaped: bool)
    requires s == []
    ensures KeepsTogether(Pieces(s, quote, escaped), s, 0)
  {
    assert s[..0] == [] && s[0..] == [];
    AfterNothing([Piece("", "")]);
  }

  /** A quote that opens or closes a run, and a character that does neither. */
  lemma QuoteTogether(s: string, mark: char)
    requires s != [] && s[0] == mark && (mark == '\'' || mark == '"')
    ensures Pieces(s, Unquoted, false) == After(s[..1], Pieces(s[1..], Quoted(mark), false))
    ensures KeepsTogether(Pieces(s, Quoted(mark), false), s, 1)
  {
    PiecesStep(s, Unquoted, false);
    PiecesStep(s, Quoted(mark), false);
  }

  lemma CharTogether(s: string, mark: char)
    requires s != [] && s[0] != mark && (mark == '\'' || (mark == '"' && s[0] != '\\'))
    ensures Pieces(s, Quoted(mark), false) == After(s[..1], Pieces(s[1..], Quoted(mark), false))
  {
    PiecesStep(s, Quoted(mark), false);
  }

  lemma EscapeTogether(s: string, quote: Quote)
    requires |s| >= 2 && s[0] == '\\' && quote != Quoted('\'')
    ensures Pieces(s, quote, false) == After(s[..2], Pieces(s[2..], quote, false))
  {
    PiecesStep(s, quote, false);
    PiecesStep(s[1..], quote, true);
    assert s[1..][1..] == s[2..] && s[..1] + s[1..][..1] == s[..2];
    AfterTwice(s[..1], s[1..][..1], Pieces(s[2..], quote, false));
  }

  lemma LastBackslash(s: string, quote: Quote)
    requires |s| == 1 && s[0] == '\\' && quote != Quoted('\'')
    ensures KeepsTogether(Pieces(s, quote, false), s, 1)
  {
    PiecesStep(s, quote, false);
    assert Pieces(s[1..], quote, true) == [Piece("", "")] == Pieces(s[1..], Unquoted, false);
  }

  lemma {:induction false} SingleRun(s: string)
    ensures KeepsTogether(Pieces(s, Quoted('\''), false), s, AtMost(SingleEnd(s) + 1, |s|))
  {
    if s == [] {
      NothingTogether(s, Quoted('\''), false);
    } else if s[0] == '\'' {
      QuoteTogether(s, '\'');
    } else {
      CharTogether(s, '\'');
      SingleRun(s[1..]);
      OneMoreTogether(s, 1, AtMost(SingleEnd(s[1..]) + 1, |s[1..]|), Pieces(s, Quoted('\''), false),
                      Pieces(s[1..], Quoted('\''), false));
    }
  }

  lemma {:induction false} DoubleRun(s: string)
    ensures KeepsTogether(Pieces(s, Quoted('"'), false), s, AtMost(DoubleEnd(s) + 1, |s|))
    decreases |s|
  {
    if s == [] {
      NothingTogether(s, Quoted('"'), false);
    } else if s[0] == '"' {
      QuoteTogether(s, '"');
    } else if s == "\\" {
      LastBackslash(s, Quoted('"'));
    } else {
      var k := if s[0] == '\\' then 2 else 1;
      if k == 2 {
        EscapeTogether(s, Quoted('"'));
      } else {
        CharTogether(s, '"');
      }
      DoubleRun(s[k..]);
      OneMoreTogether(s, k, AtMost(DoubleEnd(s[k..]) + 1, |s[k..]|), Pieces(s, Quoted('"'), false),
                      Pieces(s[k..], Quoted('"'), false));
    }
  }

  lemma SingleTogether(s: string, pieces: seq<Piece>)
    requires s != [] && s[0] == '\'' && pieces == After(s[..1], Pieces(s[1..], Quoted('\''), false))
    ensures KeepsTogether(pieces, s, UnitLength(s))
  {
    SingleRun(s[1..]);
    OneMoreTogether(s, 1, AtMost(SingleEnd(s[1..]) + 1, |s[1..]|), pieces, Pieces(s[1..], Quoted('\''), false));
  }

  lemma DoubleTogether(s: string, pieces: seq<Piece>)
    requires s != [] && s[0] == '"' && pieces == After(s[..1], Pieces(s[1..], Quoted('"'), false))
    ensures KeepsTogether(pieces, s, UnitLength(s))
  {
    DoubleRun(s[1..]);
    OneMoreTogether(s, 1, AtMost(DoubleEnd(s[1..]) + 1, |s[1..]|), pieces, Pieces(s[1..], Quoted('"'), false));
  }

  lemma UnitTogether(s: string)
    requires s != [] && OperatorLength(s) == 0
    ensures KeepsTogether(Pieces(s, Unquoted, false), s, UnitLength(s))
  {
    if s[0] == '\'' {
      QuoteTogether(s, '\'');
      SingleTogether(s, Pieces(s, Unquoted, false));
    } else if s[0] == '"' {
      QuoteTogether(s, '"');
      DoubleTogether(s, Pieces(s, Unquoted, false));
    } else if s[0] != '\\' {
      PiecesStep(s, Unquoted, false);
    } else if |s| == 1 {
      LastBackslash(s, Unquoted);
    } else {
      EscapeTogether(s, Unquoted);
    }
  }

  /** The character by character reading, with its two flags, cuts between units. */
  lemma {:induction false} PiecesAreCut(s: string)
    ensures Pieces(s, Unquoted, false) == Cut(s)
    decreases |s|
  {
    OperatorIs(s);
    if s != [] {
      if OperatorLength(s) > 0 {
        PiecesAreCut(s[OperatorLength(s)..]);
      } else {
        UnitTogether(s);
        PiecesAreCut(s[UnitLength(s)..]);
      }
    }
  }

  // No operator is left

  /** A unit of `s` starts at `i`: the character there is in no quotes and has no backslash before it. */
  predicate StartsUnit(s: string, i: nat)
    requires i < |s|
    decreases |s|
  {
    i == 0 || (UnitLength(s) <= i && StartsUnit(s[UnitLength(s)..], i - UnitLength(s)))
  }

  predicate OperatorStands(s: string, i: nat)
    requires i < |s|
  {
    s[i] == ';' || s[i] == '|' || s[i] == '\n' || (i + 1 < |s| && s[i] == '&' && s[i + 1] == '&')
  }

  lemma DoubleEndInPrefix(s: string, n: nat)
    requires n <= |s| && DoubleEnd(s) < n
    ensures DoubleEnd(s[..n]) == DoubleEnd(s)
    decreases |s|
  {
    if s[0] == '\\' && |s| >= 2 {
      assert s[..n][2..] == s[2..][..n - 2];
      DoubleEndInPrefix(s[2..], n - 2);
    } else if s[0] != '"' {
      assert s[..n][1..] == s[1..][..n - 1];
      DoubleEndInPrefix(s[1..], n - 1);
    }
  }

  lemma SingleEndInPrefix(s: string, n: nat)
    requires n <= |s| && SingleEnd(s) < n
    ensures SingleEnd(s[..n]) == SingleEnd(s)
  {
    var m := SingleEnd(s[..n]);
    assert s[..n][SingleEnd(s)] == '\'';
  }

  /** A text that begins with the first unit of `s` begins with that unit. */
  lemma UnitInPrefix(s: string, n: nat)
    requires s != [] && UnitLength(s) <= n <= |s|
    ensures UnitLength(s[..n]) == UnitLength(s)
  {
    assert s[..n][1..] == s[1..][..n - 1];
    assert s[..|s|] == s;
    if s[0] == '\'' && SingleEnd(s[1..]) + 2 <= n {
      SingleEndInPrefix(s[1..], n - 1);
    } else if s[0] == '"' && DoubleEnd(s[1..]) + 2 <= n {
      DoubleEndInPrefix(s[1..], n - 1);
    }
  }

  lemma CutUnit(s: string)
    requires s != [] && OperatorAt(s) == ""
    ensures Cut(s) == After(s[..UnitLength(s)], Cut(s[UnitLength(s)..]))
  {
  }

  lemma CutOperator(s: string)
    requires s != [] && OperatorAt(s) != ""
    ensures Cut(s) == [Piece("", OperatorAt(s))] + Cut(s[|OperatorAt(s)|..])
  {
  }

  lemma PrefixBehind(s: string, n: nat, x: string)
    requires n <= |s| && x <= s[n..]
    ensures s[..n] + x <= s
  {
  }

  lemma {:induction false} FirstPieceOfCut(s: string)
    ensures Cut(s)[0].text <= s
    decreases |s|
  {
    if s != [] && OperatorAt(s) == "" {
      CutUnit(s);
      FirstPieceOfCut(s[UnitLength(s)..]);
      PrefixBehind(s, UnitLength(s), Cut(s[UnitLength(s)..])[0].text);
    }
  }

  /** No operator stands where a unit starts. */
  predicate NoneStands(s: string) {
    forall i :: 0 <= i < |s| && StartsUnit(s, i) ==> !OperatorStands(s, i)
  }

  lemma NoneStandsBehindUnit(s: string)
    requires s != [] && !OperatorStands(s, 0) && NoneStands(s[UnitLength(s)..])
    ensures NoneStands(s)
  {
    var n := UnitLength(s);
    forall i | 0 < i < |s| && StartsUnit(s, i) ensures !OperatorStands(s, i) {
      assert !OperatorStands(s[n..], i - n);
      assert s[n..][i - n] == s[i];
      assert i + 1 < |s| ==> s[n..][i + 1 - n] == s[i + 1];
    }
  }

  lemma {:induction false} FirstPieceHasNone(s: string)
    ensures NoneStands(Cut(s)[0].text)
    decreases |s|
  {
    if s != [] && OperatorAt(s) == "" {
      var n, text := UnitLength(s), Cut(s)[0].text;
      CutUnit(s);
      FirstPieceOfCut(s);
      FirstPieceHasNone(s[n..]);
      assert text == s[..|text|] && text[n..] == Cut(s[n..])[0].text;
      UnitInPrefix(s, |text|);
      NoOperatorAtStart(s, text);
      NoneStandsBehindUnit(text);
    }
  }

  lemma NoOperatorAtStart(s: string, text: string)
    requires text != [] && text <= s && OperatorAt(s) == ""
    ensures !OperatorStands(text, 0)
  {
    assert s[0] == text[0];
    assert |text| > 1 ==> s[1] == text[1];
    assert s[..1] == [s[0]];
    assert |s| > 1 ==> s[..2] == [s[0], s[1]];
  }

  predicate NoneStandsIn(pieces: seq<Piece>) {
    forall k :: 0 <= k < |pieces| ==> NoneStands(pieces[k].text)
  }

  lemma BehindOperator(operator: string, rest: seq<Piece>)
    requires NoneStandsIn(rest)
    ensures NoneStandsIn([Piece("", operator)] + rest)
  {
  }

  lemma BehindUnit(unit: string, rest: seq<Piece>)
    requires rest != [] && NoneStandsIn(rest) && NoneStands(unit + rest[0].text)
    ensures NoneStandsIn(After(unit, rest))
  {
  }

  lemma {:induction false} CutLeavesNone(s: string)
    ensures NoneStandsIn(Cut(s))
    decreases |s|
  {
    if s != [] {
      if OperatorAt(s) != "" {
        CutOperator(s);
        CutLeavesNone(s[|OperatorAt(s)|..]);
        BehindOperator(OperatorAt(s), Cut(s[|OperatorAt(s)|..]));
      } else {
        CutUnit(s);
        FirstPieceHasNone(s);
        CutLeavesNone(s[UnitLength(s)..]);
        BehindUnit(s[..UnitLength(s)], Cut(s[UnitLength(s)..]));
      }
    }
  }

  /** The cut is complete: wherever a simple command, as written, is outside of quotes, none of the operators stands. */
  lemma NoOperatorIsLeft(command: string, piece: Piece, i: nat)
    requires piece in Pieces(command, Unquoted, false) && i < |piece.text| && StartsUnit(piece.text, i)
    ensures !OperatorStands(piece.text, i)
  {
    PiecesAreCut(command);
    var k :| 0 <= k < |Cut(command)| && Cut(command)[k] == piece;
    CutLeavesNone(command);
    assert NoneStands(Cut(command)[k].text);
  }
}
