/**
What the search for shell interpolations finds in a whole text, told by the characters of its lines:
where a line ends, what begins it, and which backtick of the template closes a command.
*/
module CommandLines {
  import opened PythonText
  import opened CommandSpans

  /** A line ends, with its line break, in front of `n`. */
  predicate Breaks(s: string, n: nat) {
    0 < n <= |s| && EndsLine(s[n - 1]) && !(s[n - 1] == '\r' && n < |s| && s[n] == '\n')
  }

  ghost predicate IsLine(s: string, start: nat, end: nat) {
    && start < end <= |s|
    && (start == 0 || Breaks(s, start)) && (end == |s| || Breaks(s, end))
    && forall n :: start < n < end ==> !Breaks(s, n)
  }

  /** The line from `start` to `end` ends at `body` but for carriage returns and line feeds. */
  ghost predicate IsBody(s: string, start: nat, body: nat, end: nat) {
    && start <= body <= end <= |s|
    && (forall k :: body <= k < end ==> s[k] == '\r' || s[k] == '\n')
    && (body == start || (s[body - 1] != '\r' && s[body - 1] != '\n'))
  }

  /** The template wrote a `c` at `i`. */
  predicate Wrote(s: string, mask: TemplateMask, i: int, c: char) {
    0 <= i < |s| && s[i] == c && (mask.All? || (i < |mask.mask| && mask.mask[i]))
  }

  /** The first visible character of the line is a `!` of the template. */
  ghost predicate Leads(s: string, mask: TemplateMask, start: nat, first: nat, body: nat) {
    start <= first < body <= |s| && Wrote(s, mask, first, '!') && forall k :: start <= k < first ==> IsSpace(s[k])
  }

  /** The first backtick of the template from `from` on is at `c`. */
  ghost predicate Closes(s: string, mask: TemplateMask, from: nat, c: int, body: nat) {
    from <= c < body && Wrote(s, mask, c, '`') && forall k :: from <= k < c ==> !Wrote(s, mask, k, '`')
  }

  ghost predicate IsClosed(s: string, mask: TemplateMask, from: nat, body: nat) {
    exists c :: Closes(s, mask, from, c, body)
  }

  /** The template opens, in backticks, a command at `i` that it closes before the line ends. */
  ghost predicate OpensCommand(s: string, mask: TemplateMask, i: nat, body: nat) {
    i + 1 < body && Wrote(s, mask, i + 1, '`') && IsClosed(s, mask, i + 2, body)
  }

  /** `span` is the command in backticks that opens at `i`. */
  ghost predicate IsInBackticks(s: string, mask: TemplateMask, i: nat, body: nat, span: Span)
    requires body <= |s|
  {
    && span.start == i && Closes(s, mask, i + 2, span.end - 1, body) && span.command == s[i + 2..span.end - 1]
  }

  /** `span` is the command of a line that a `!` begins at `first`: in backticks, if the backtick directly behind it is
      closed, and otherwise the rest of the line. */
  ghost predicate IsLineCommand(s: string, mask: TemplateMask, first: nat, body: nat, span: Span)
    requires first < body <= |s|
  {
    if OpensCommand(s, mask, first, body) then IsInBackticks(s, mask, first, body, span)
    else span.start == first && span.end == body && span.command == Stripped(s[first + 1..body])
  }

  /** The spans in a line that a `!` of the template begins: that command, and no other. */
  ghost predicate ReadsCommandLine(s: string, mask: TemplateMask, start: nat, first: nat, body: nat, end: nat,
                                   spans: seq<Span>)
    requires first < body <= |s|
  {
    && (exists span <- spans :: IsLineCommand(s, mask, first, body, span))
    && forall span <- spans :: start <= span.start < end ==> IsLineCommand(s, mask, first, body, span)
  }

  /** The spans in any other line: commands in backticks, and every one that opens in front of or behind the others. */
  ghost predicate ReadsInline(s: string, mask: TemplateMask, start: nat, body: nat, end: nat, spans: seq<Span>)
    requires body <= |s|
  {
    && (forall span <- spans :: start <= span.start < end ==>
         Wrote(s, mask, span.start, '!') && Wrote(s, mask, span.start + 1, '`')
         && IsInBackticks(s, mask, span.start, body, span))
    && forall i :: start <= i && Wrote(s, mask, i, '!') && OpensCommand(s, mask, i, body) ==>
         exists span <- spans :: span.start <= i < span.end
  }

  ghost predicate ReadsLine(s: string, mask: TemplateMask, start: nat, body: nat, end: nat, spans: seq<Span>) {
    && body <= |s|
    && (forall first :: Leads(s, mask, start, first, body) ==>
         ReadsCommandLine(s, mask, start, first, body, end, spans))
    && ((forall first :: !Leads(s, mask, start, first, body)) ==> ReadsInline(s, mask, start, body, end, spans))
  }

  // The scans

  lemma {:induction false} LineEndIsFirstBreak(s: string, i: nat)
    requires i < |s|
    ensures var n := LineEnd(s, i); (n == |s| || Breaks(s, n)) && forall k :: i < k < n ==> !Breaks(s, k)
    decreases |s| - i
  {
    if !(s[i] == '\r' && i + 1 < |s| && s[i + 1] == '\n') && !EndsLine(s[i]) && i + 1 < |s| {
      LineEndIsFirstBreak(s, i + 1);
    }
  }

  lemma LineEndOfLine(s: string, start: nat, end: nat)
    requires IsLine(s, start, end)
    ensures LineEnd(s, start) == end
  {
    LineEndIsFirstBreak(s, start);
  }

  lemma {:induction false} LineAtStart(s: string, offset: nat, start: nat)
    requires offset <= start < |s| && (start == offset || Breaks(s, start))
    ensures LineAt(s, offset, start) == start
    decreases |s| - offset
  {
    LineEndIsFirstBreak(s, offset);
    if LineEnd(s, offset) <= start {
      LineAtStart(s, LineEnd(s, offset), start);
    }
  }

  lemma {:induction false} BodyEndOfBody(s: string, start: nat, body: nat, end: nat)
    requires IsBody(s, start, body, end)
    ensures BodyEnd(s, start, end) == body
    decreases end
  {
    if body < end {
      assert s[end - 1] == '\r' || s[end - 1] == '\n';
      BodyEndOfBody(s, start, body, end - 1);
    }
  }

  lemma {:induction false} FirstVisible(s: string, i: nat, end: nat)
    requires i <= end <= |s|
    ensures var n := FirstNonSpace(s, i, end); (n < end ==> !IsSpace(s[n])) && forall k :: i <= k < n ==> IsSpace(s[k])
    decreases end - i
  {
    if i < end && IsSpace(s[i]) {
      FirstVisible(s, i + 1, end);
    }
  }

  lemma LeadsIff(s: string, mask: TemplateMask, start: nat, first: nat, body: nat)
    requires start <= body <= |s|
    ensures Leads(s, mask, start, first, body) <==>
            first < body && first == FirstNonSpace(s, start, body) && Bang(s, mask, first)
  {
    FirstVisible(s, start, body);
  }

  lemma {:induction false} ClosingIsFirst(s: string, mask: TemplateMask, i: nat, end: nat)
    requires i <= end <= |s|
    ensures var n := Closing(s, mask, i, end);
      (n < end ==> Closes(s, mask, i, n, end)) && forall k :: i <= k < n ==> !Wrote(s, mask, k, '`')
    decreases end - i
  {
    if i < end && !Backtick(s, mask, i) {
      ClosingIsFirst(s, mask, i + 1, end);
    }
  }

  lemma ClosesIff(s: string, mask: TemplateMask, i: nat, end: nat)
    requires i <= end <= |s|
    ensures IsClosed(s, mask, i, end) <==> Closing(s, mask, i, end) < end
    ensures forall c :: Closes(s, mask, i, c, end) ==> c == Closing(s, mask, i, end)
  {
    ClosingIsFirst(s, mask, i, end);
  }

  // The spans

  ghost predicate InTheMidst(before: seq<Span>, these: seq<Span>, all: seq<Span>, start: nat, end: nat) {
    && Chained(before, 0, start, 1) && before + these <= all
    && forall j :: |before + these| <= j < |all| ==> end <= all[j].start
  }

  lemma FirstLineIsInTheMidst(s: string, mask: TemplateMask, offset: nat, spans: seq<Span>)
    requires offset < |s| && Chained(spans, 0, offset, 1)
    ensures var end := LineEnd(s, offset);
      InTheMidst(spans, LineSpans(s, mask, offset, BodyEnd(s, offset, end), |spans| + 1),
                 SpansFrom(s, mask, offset, spans), offset, end)
  {
    var end := LineEnd(s, offset);
    SpansFromExtends(s, mask, end, spans + LineSpans(s, mask, offset, BodyEnd(s, offset, end), |spans| + 1));
  }

  lemma NextLineIsChained(s: string, mask: TemplateMask, offset: nat, spans: seq<Span>)
    requires offset < |s| && Chained(spans, 0, offset, 1)
    ensures var end := LineEnd(s, offset);
      Chained(spans + LineSpans(s, mask, offset, BodyEnd(s, offset, end), |spans| + 1), 0, end, 1)
  {
    var end := LineEnd(s, offset);
    var body := BodyEnd(s, offset, end);
    LineEndEndsBody(s, offset);
    BodyEndEndsBody(s, offset, end);
    LineSpansAreRight(s, mask, offset, body, |spans| + 1);
    ChainedAppend(spans, LineSpans(s, mask, offset, body, |spans| + 1), 0, offset, end, 1);
  }

  /** The spans of the line that starts at `start`, in the midst of all. */
  lemma {:induction false} SpansOfLine(s: string, mask: TemplateMask, offset: nat, spans: seq<Span>, start: nat)
      returns (before: seq<Span>)
    requires offset <= start < |s| && LineAt(s, offset, start) == start && Chained(spans, 0, offset, 1)
    ensures var end := LineEnd(s, start);
      InTheMidst(before, LineSpans(s, mask, start, BodyEnd(s, start, end), |before| + 1),
                 SpansFrom(s, mask, offset, spans), start, end)
    decreases |s| - offset
  {
    var end := LineEnd(s, offset);
    if start < end {
      before := spans;
      FirstLineIsInTheMidst(s, mask, offset, spans);
    } else {
      var these := LineSpans(s, mask, offset, BodyEnd(s, offset, end), |spans| + 1);
      NextLineIsChained(s, mask, offset, spans);
      before := SpansOfLine(s, mask, end, spans + these, start);
    }
  }

  lemma OnlyTheseInLine(before: seq<Span>, these: seq<Span>, all: seq<Span>, start: nat, end: nat)
    requires InTheMidst(before, these, all, start, end)
    ensures forall span <- these :: span in all
    ensures forall span <- all :: start <= span.start < end ==> span in these
  {
    forall span <- these ensures span in all {
      var j :| 0 <= j < |these| && these[j] == span;
      assert all[|before| + j] == span;
    }
    forall span <- all | start <= span.start < end ensures span in these {
      var j :| 0 <= j < |all| && all[j] == span;
      assert |before| <= j < |before + these|;
      assert these[j - |before|] == span;
    }
  }

  lemma BangSpanIsLineCommand(s: string, mask: TemplateMask, first: nat, body: nat, index: nat)
    requires first < body <= |s|
    ensures IsLineCommand(s, mask, first, body, BangSpan(s, mask, first, body, index))
  {
    if first + 1 < body && Backtick(s, mask, first + 1) {
      ClosesIff(s, mask, first + 2, body);
      ClosingIsFirst(s, mask, first + 2, body);
    }
  }

  lemma {:induction false} InlineSpansAreInBackticks(s: string, mask: TemplateMask, from: nat, body: nat, index: nat,
                                                     span: Span)
    requires from <= body <= |s| && span in InlineSpans(s, mask, from, body, index)
    ensures Wrote(s, mask, span.start, '!') && Wrote(s, mask, span.start + 1, '`')
    ensures IsInBackticks(s, mask, span.start, body, span)
    decreases body - from
  {
    if !Opens(s, mask, from) {
      InlineSpansAreInBackticks(s, mask, from + 1, body, index, span);
    } else {
      var closing := Closing(s, mask, from + 2, body);
      ClosingIsFirst(s, mask, from + 2, body);
      if span != Span(index, s[from + 2..closing], from, closing + 1) {
        InlineSpansAreInBackticks(s, mask, closing + 1, body, index + 1, span);
      }
    }
  }

  lemma CommandLineIsRead(s: string, mask: TemplateMask, start: nat, first: nat, body: nat, end: nat,
                          these: seq<Span>, all: seq<Span>, index: nat)
    requires start <= body <= |s| && Leads(s, mask, start, first, body)
    requires these == LineSpans(s, mask, start, body, index)
    requires (forall span <- these :: span in all) &&
             forall span <- all :: start <= span.start < end ==> span in these
    ensures ReadsCommandLine(s, mask, start, first, body, end, all)
  {
    LeadsIff(s, mask, start, first, body);
    var span := BangSpan(s, mask, first, body, index);
    BangSpanIsLineCommand(s, mask, first, body, index);
    assert these == [span] && span in these;
  }

  lemma InlineIsRead(s: string, mask: TemplateMask, start: nat, body: nat, end: nat,
                     these: seq<Span>, all: seq<Span>, index: nat)
    requires start <= body <= |s| && forall first :: !Leads(s, mask, start, first, body)
    requires these == LineSpans(s, mask, start, body, index)
    requires (forall span <- these :: span in all) &&
             forall span <- all :: start <= span.start < end ==> span in these
    ensures ReadsInline(s, mask, start, body, end, all)
  {
    LeadsIff(s, mask, start, FirstNonSpace(s, start, body), body);
    assert these == InlineSpans(s, mask, start, body, index);
    forall span <- all | start <= span.start < end
      ensures Wrote(s, mask, span.start, '!') && Wrote(s, mask, span.start + 1, '`')
      ensures IsInBackticks(s, mask, span.start, body, span)
    {
      InlineSpansAreInBackticks(s, mask, start, body, index, span);
    }
    forall i | start <= i && Wrote(s, mask, i, '!') && OpensCommand(s, mask, i, body)
      ensures exists span <- all :: span.start <= i < span.end
    {
      ClosesIff(s, mask, i + 2, body);
      InlineSpansAreAll(s, mask, start, body, index, i);
      var span :| span in these && Covers(span, i);
      assert span in all;
    }
  }

  /** Line by line, the search finds the commands that the characters of the template make, and no others. */
  lemma LinesAreRead(s: string, mask: TemplateMask, start: nat, body: nat, end: nat)
    requires IsLine(s, start, end) && IsBody(s, start, body, end)
    ensures ReadsLine(s, mask, start, body, end, Spans(s, mask))
  {
    LineEndOfLine(s, start, end);
    LineAtStart(s, 0, start);
    BodyEndOfBody(s, start, body, end);
    var before := SpansOfLine(s, mask, 0, [], start);
    var these, all := LineSpans(s, mask, start, body, |before| + 1), Spans(s, mask);
    OnlyTheseInLine(before, these, all, start, end);
    forall first | Leads(s, mask, start, first, body)
      ensures ReadsCommandLine(s, mask, start, first, body, end, all)
    {
      CommandLineIsRead(s, mask, start, first, body, end, these, all, |before| + 1);
    }
    if forall first :: !Leads(s, mask, start, first, body) {
      InlineIsRead(s, mask, start, body, end, these, all, |before| + 1);
    }
  }

  lemma {:induction false} LineAtIsLine(s: string, offset: nat, i: nat)
    requires offset <= i < |s| && (offset == 0 || Breaks(s, offset))
    ensures var start := LineAt(s, offset, i); IsLine(s, start, LineEnd(s, start))
    decreases |s| - offset
  {
    LineEndIsFirstBreak(s, offset);
    if i >= LineEnd(s, offset) {
      LineAtIsLine(s, LineEnd(s, offset), i);
    }
  }

  lemma {:induction false} BodyEndIsBody(s: string, start: nat, end: nat, whole: nat)
    requires start <= end <= whole <= |s| && forall k :: end <= k < whole ==> s[k] == '\r' || s[k] == '\n'
    ensures IsBody(s, start, BodyEnd(s, start, end), whole)
    decreases end
  {
    if end > start && s[end - 1] in "\r\n" {
      BodyEndIsBody(s, start, end - 1, whole);
    }
  }

  /** Each character is in a line. */
  lemma LinesAreTheText(s: string, i: nat)
    requires i < |s|
    ensures exists start: nat, body: nat, end: nat ::
              IsLine(s, start, end) && IsBody(s, start, body, end) && start <= i < end
  {
    LineAtIsLine(s, 0, i);
    var start := LineAt(s, 0, i);
    var end := LineEnd(s, start);
    BodyEndIsBody(s, start, end, end);
    assert IsLine(s, start, end) && IsBody(s, start, BodyEnd(s, start, end), end);
  }

  /** The spans of a text are those that each of its lines has. */
  ghost predicate ReadsLines(s: string, mask: TemplateMask, spans: seq<Span>) {
    forall start, body, end :: IsLine(s, start, end) && IsBody(s, start, body, end) ==>
      ReadsLine(s, mask, start, body, end, spans)
  }

  lemma SpansReadLines(s: string, mask: TemplateMask)
    ensures ReadsLines(s, mask, Spans(s, mask))
  {
    forall start, body, end | IsLine(s, start, end) && IsBody(s, start, body, end)
      ensures ReadsLine(s, mask, start, body, end, Spans(s, mask))
    {
      LinesAreRead(s, mask, start, body, end);
    }
  }
}
