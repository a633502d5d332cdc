/**
Finding the shell interpolations of a rendered command: `!command` lines and inline commands in backticks, as far as
the mask says that their syntax came from the template.
*/
module CommandSpans {
  import opened PythonText
  import opened Sequences

  datatype Span = Span(index: nat, command: string, start: nat, end: nat)

  /** Which characters are the template's; all of them, if nothing is known. */
  datatype TemplateMask = All | Known(mask: seq<bool>)

  predicate IsTemplate(mask: TemplateMask, i: nat) {
    mask.All? || (i < |mask.mask| && mask.mask[i])
  }

  // Scanning

  /** Where the line from `start` to `end` ends without its line break. */
  function BodyEnd(s: string, start: nat, end: nat): (n: nat)
    requires start <= end <= |s|
    ensures start <= n <= end
    decreases end
  {
    if end > start && s[end - 1] in "\r\n" then BodyEnd(s, start, end - 1) else end
  }

  function FirstNonSpace(s: string, i: nat, end: nat): (n: nat)
    requires i <= end <= |s|
    ensures i <= n <= end
    decreases end - i
  {
    if i < end && IsSpace(s[i]) then FirstNonSpace(s, i + 1, end) else i
  }

  predicate Backtick(s: string, mask: TemplateMask, i: nat)
    requires i < |s|
  {
    s[i] == '`' && IsTemplate(mask, i)
  }

  /** The first backtick of the template from `i` on; `end` if there is none. */
  function Closing(s: string, mask: TemplateMask, i: nat, end: nat): (n: nat)
    requires i <= end <= |s|
    ensures i <= n <= end && (n < end ==> Backtick(s, mask, n))
    decreases end - i
  {
    if i < end && !Backtick(s, mask, i) then Closing(s, mask, i + 1, end) else i
  }

  predicate Bang(s: string, mask: TemplateMask, i: nat)
    requires i < |s|
  {
    s[i] == '!' && IsTemplate(mask, i)
  }

  predicate Opens(s: string, mask: TemplateMask, i: nat)
    requires i + 1 < |s|
  {
    Bang(s, mask, i) && Backtick(s, mask, i + 1)
  }

  // The spans

  function InlineSpans(s: string, mask: TemplateMask, from: nat, end: nat, index: nat): seq<Span>
    requires end <= |s|
    decreases end - from
  {
    if from + 1 >= end then []
    else if !Opens(s, mask, from) then InlineSpans(s, mask, from + 1, end, index)
    else
      var closing := Closing(s, mask, from + 2, end);
      if closing == end then []
      else [Span(index, s[from + 2..closing], from, closing + 1)] + InlineSpans(s, mask, closing + 1, end, index + 1)
  }

  /** The span of a line whose first visible character is a template's `!`. */
  function BangSpan(s: string, mask: TemplateMask, first: nat, end: nat, index: nat): Span
    requires first < end <= |s|
  {
    var closing := if first + 1 < end && Backtick(s, mask, first + 1) then Closing(s, mask, first + 2, end) else end;
    if closing < end then Span(index, s[first + 2..closing], first, closing + 1)
    else Span(index, Stripped(s[first + 1..end]), first, end)
  }

  function LineSpans(s: string, mask: TemplateMask, start: nat, end: nat, index: nat): seq<Span>
    requires start <= end <= |s|
  {
    var first := FirstNonSpace(s, start, end);
    if first < end && Bang(s, mask, first) then [BangSpan(s, mask, first, end, index)]
    else InlineSpans(s, mask, start, end, index)
  }

  /** The spans found before `offset` and those from there on. */
  function SpansFrom(s: string, mask: TemplateMask, offset: nat, spans: seq<Span>): seq<Span>
    requires offset <= |s|
    decreases |s| - offset
  {
    if offset == |s| then spans
    else
      var end := LineEnd(s, offset);
      SpansFrom(s, mask, end, spans + LineSpans(s, mask, offset, BodyEnd(s, offset, end), |spans| + 1))
  }

  function Spans(s: string, mask: TemplateMask): seq<Span> {
    SpansFrom(s, mask, 0, [])
  }

  // The loops

  method LineBodyEnd(s: string, start: nat, end: nat) returns (bodyEnd: nat)
    requires start <= end <= |s|
    ensures bodyEnd == BodyEnd(s, start, end)
  {
    bodyEnd := end;
    while bodyEnd > start && s[bodyEnd - 1] in "\r\n"
      invariant start <= bodyEnd <= end && BodyEnd(s, start, bodyEnd) == BodyEnd(s, start, end)
    {
      bodyEnd := bodyEnd - 1;
    }
  }

  method FindTemplateBacktick(s: string, mask: TemplateMask, start: nat, end: nat) returns (cursor: nat)
    requires start <= end <= |s|
    ensures cursor == Closing(s, mask, start, end)
  {
    cursor := start;
    while cursor < end
      invariant start <= cursor <= end && Closing(s, mask, cursor, end) == Closing(s, mask, start, end)
    {
      if s[cursor] == '`' {
        if IsTemplate(mask, cursor) {
          return;
        }
      }
      cursor := cursor + 1;
    }
  }

  method FirstNonSpaceIndex(s: string, start: nat, end: nat) returns (first: nat)
    requires start <= end <= |s|
    ensures first == FirstNonSpace(s, start, end)
  {
    first := start;
    while first < end && IsSpace(s[first])
      invariant start <= first <= end && FirstNonSpace(s, first, end) == FirstNonSpace(s, start, end)
    {
      first := first + 1;
    }
  }

  method LineShellInterpolation(s: string, mask: TemplateMask, first: nat, end: nat, index: nat) returns (span: Span)
    requires first < end <= |s|
    ensures span == BangSpan(s, mask, first, end, index)
  {
    if first + 1 < end && s[first + 1] == '`' && IsTemplate(mask, first + 1) {
      var closing := FindTemplateBacktick(s, mask, first + 2, end);
      if closing < end {
        return Span(index, s[first + 2..closing], first, closing + 1);
      }
    }
    span := Span(index, Stripped(s[first + 1..end]), first, end);
  }

  /** The first "!`" at or after `from`; `end` if there is none. */
  method FindOpening(s: string, mask: TemplateMask, from: nat, end: nat, index: nat) returns (start: nat)
    requires from <= end <= |s|
    ensures from <= start <= end
    ensures start + 1 < end ==> s[start] == '!' && s[start + 1] == '`'
    ensures start + 1 >= end ==> start == end
    ensures InlineSpans(s, mask, start, end, index) == InlineSpans(s, mask, from, end, index)
  {
    start := from;
    while start + 1 < end
      invariant from <= start <= end
      invariant InlineSpans(s, mask, start, end, index) == InlineSpans(s, mask, from, end, index)
      decreases end - start
    {
      if s[start] == '!' && s[start + 1] == '`' {
        return;
      }
      start := start + 1;
    }
    start := end;
  }

  /** The inline spans before `from`. */
  ghost predicate InlineSoFar(s: string, mask: TemplateMask, from: nat, end: nat, spans: seq<Span>, index: nat,
                              whole: seq<Span>)
  {
    from <= end <= |s| && spans + InlineSpans(s, mask, from, end, index + |spans|) == whole
  }

  lemma OneMoreInline(s: string, mask: TemplateMask, from: nat, end: nat, spans: seq<Span>, index: nat,
                      whole: seq<Span>, closing: nat)
    requires InlineSoFar(s, mask, from, end, spans, index, whole) && from + 1 < end && Opens(s, mask, from)
    requires closing == Closing(s, mask, from + 2, end)
    ensures closing == end ==> spans == whole
    ensures closing < end ==>
      InlineSoFar(s, mask, closing + 1, end, spans + [Span(index + |spans|, s[from + 2..closing], from, closing + 1)],
                  index, whole)
  {
    if closing < end {
      var span := Span(index + |spans|, s[from + 2..closing], from, closing + 1);
      Regrouped(spans, [span], InlineSpans(s, mask, closing + 1, end, index + |spans| + 1),
                InlineSpans(s, mask, from, end, index + |spans|), whole);
    }
  }

  method InlineShellInterpolations(s: string, mask: TemplateMask, start: nat, end: nat, index: nat)
    returns (spans: seq<Span>)
    requires start <= end <= |s|
    ensures spans == InlineSpans(s, mask, start, end, index)
  {
    spans := [];
    var searchStart := start;
    ghost var whole := InlineSpans(s, mask, start, end, index);
    assert [] + whole == whole;
    while searchStart < end
      invariant start <= searchStart <= end && InlineSoFar(s, mask, searchStart, end, spans, index, whole)
    {
      var opening := FindOpening(s, mask, searchStart, end, index + |spans|);
      if opening == end {
        searchStart := end;
        break;
      }
      if !(IsTemplate(mask, opening) && IsTemplate(mask, opening + 1)) {
        NothingOpensAt(s, mask, opening + 1, end, index + |spans|);
        searchStart := opening + 2;
        continue;
      }
      var closing := FindTemplateBacktick(s, mask, opening + 2, end);
      OneMoreInline(s, mask, opening, end, spans, index, whole, closing);
      if closing == end {
        return;
      }
      spans := spans + [Span(index + |spans|, s[opening + 2..closing], opening, closing + 1)];
      searchStart := closing + 1;
    }
    assert spans + [] == spans;
  }

  lemma NothingOpensAt(s: string, mask: TemplateMask, i: nat, end: nat, index: nat)
    requires i < end <= |s| && s[i] != '!'
    ensures InlineSpans(s, mask, i, end, index) == InlineSpans(s, mask, i + 1, end, index)
  {
  }

  method LineInterpolations(s: string, mask: TemplateMask, offset: nat, end: nat, index: nat) returns (these: seq<Span>)
    requires offset <= end <= |s|
    ensures these == LineSpans(s, mask, offset, end, index)
  {
    var first := FirstNonSpaceIndex(s, offset, end);
    if first < end && s[first] == '!' && IsTemplate(mask, first) {
      var span := LineShellInterpolation(s, mask, first, end, index);
      these := [span];
    } else {
      these := InlineShellInterpolations(s, mask, offset, end, index);
    }
  }

  method FindCommandShellInterpolations(s: string, mask: TemplateMask) returns (spans: seq<Span>)
    ensures spans == Spans(s, mask)
  {
    spans := [];
    var offset := 0;
    while offset < |s|
      invariant 0 <= offset <= |s| && SpansFrom(s, mask, offset, spans) == Spans(s, mask)
      decreases |s| - offset
    {
      var lineEnd := LineEnd(s, offset);
      var end := LineBodyEnd(s, offset, lineEnd);
      var these := LineInterpolations(s, mask, offset, end, |spans| + 1);
      spans := spans + these;
      offset := lineEnd;
    }
  }

  // What is found

  /** Numbered from `index`, increasing, disjoint, and between `lo` and `hi`. */
  ghost predicate Chained(spans: seq<Span>, lo: nat, hi: nat, index: nat) {
    && (forall i :: 0 <= i < |spans| ==> lo <= spans[i].start < spans[i].end <= hi && spans[i].index == index + i)
    && (forall i, j :: 0 <= i < j < |spans| ==> spans[i].end <= spans[j].start)
  }

  lemma ChainedAppend(a: seq<Span>, b: seq<Span>, lo: nat, mid: nat, hi: nat, index: nat)
    requires lo <= mid <= hi && Chained(a, lo, mid, index) && Chained(b, mid, hi, index + |a|)
    ensures Chained(a + b, lo, hi, index)
  {
  }

  /** A line's body ends at `n`. */
  predicate EndsBody(s: string, n: nat) {
    n >= |s| || s[n] in "\r\n" || (n > 0 && EndsLine(s[n - 1]))
  }

  /** The opening `!` is the template's. In backticks, so are both backticks, and the command is what is between them;
      otherwise the command is the rest of the line. */
  predicate FromTemplate(s: string, mask: TemplateMask, span: Span) {
    && span.start < span.end <= |s| && Bang(s, mask, span.start)
    && (InBackticks(s, mask, span) || (span.command == Stripped(s[span.start + 1..span.end]) && EndsBody(s, span.end)))
  }

  predicate InBackticks(s: string, mask: TemplateMask, span: Span) {
    && span.start + 2 < span.end <= |s| && Backtick(s, mask, span.start + 1) && Backtick(s, mask, span.end - 1)
    && span.command == s[span.start + 2..span.end - 1]
  }

  lemma {:induction false} InlineSpansAreChained(s: string, mask: TemplateMask, from: nat, end: nat, index: nat)
    requires from <= end <= |s|
    ensures Chained(InlineSpans(s, mask, from, end, index), from, end, index)
    decreases end - from
  {
    if from + 1 < end {
      if !Opens(s, mask, from) {
        InlineSpansAreChained(s, mask, from + 1, end, index);
      } else {
        var closing := Closing(s, mask, from + 2, end);
        if closing < end {
          InlineSpansAreChained(s, mask, closing + 1, end, index + 1);
          var span := Span(index, s[from + 2..closing], from, closing + 1);
          ChainedAppend([span], InlineSpans(s, mask, closing + 1, end, index + 1), from, closing + 1, end, index);
        }
      }
    }
  }

  lemma {:induction false} InlineSpansAreTemplates(s: string, mask: TemplateMask, from: nat, end: nat, index: nat)
    requires from <= end <= |s|
    ensures forall span <- InlineSpans(s, mask, from, end, index) :: FromTemplate(s, mask, span)
    decreases end - from
  {
    if from + 1 < end {
      if !Opens(s, mask, from) {
        InlineSpansAreTemplates(s, mask, from + 1, end, index);
      } else {
        var closing := Closing(s, mask, from + 2, end);
        if closing < end {
          InlineSpansAreTemplates(s, mask, closing + 1, end, index + 1);
          assert InBackticks(s, mask, Span(index, s[from + 2..closing], from, closing + 1));
        }
      }
    }
  }

  lemma {:induction false} BodyEndEndsBody(s: string, start: nat, end: nat)
    requires start <= end <= |s| && EndsBody(s, end)
    ensures EndsBody(s, BodyEnd(s, start, end))
    decreases end
  {
    if end > start && s[end - 1] in "\r\n" {
      BodyEndEndsBody(s, start, end - 1);
    }
  }

  lemma {:induction false} LineEndEndsBody(s: string, i: nat)
    requires i < |s|
    ensures EndsBody(s, LineEnd(s, i))
    decreases |s| - i
  {
    if !(s[i] == '\r' && i + 1 < |s| && s[i + 1] == '\n') && !EndsLine(s[i]) && i + 1 < |s| {
      LineEndEndsBody(s, i + 1);
    }
  }

  lemma BangSpanIsRight(s: string, mask: TemplateMask, first: nat, end: nat, index: nat)
    requires first < end <= |s| && EndsBody(s, end) && Bang(s, mask, first)
    ensures var span := BangSpan(s, mask, first, end, index);
      span.start == first && span.end <= end && span.index == index && FromTemplate(s, mask, span)
  {
    var closing := if first + 1 < end && Backtick(s, mask, first + 1) then Closing(s, mask, first + 2, end) else end;
    if closing < end {
      assert InBackticks(s, mask, Span(index, s[first + 2..closing], first, closing + 1));
    }
  }

  lemma LineSpansAreRight(s: string, mask: TemplateMask, start: nat, end: nat, index: nat)
    requires start <= end <= |s| && EndsBody(s, end)
    ensures Chained(LineSpans(s, mask, start, end, index), start, end, index)
    ensures forall span <- LineSpans(s, mask, start, end, index) :: FromTemplate(s, mask, span)
  {
    var first := FirstNonSpace(s, start, end);
    if first < end && Bang(s, mask, first) {
      BangSpanIsRight(s, mask, first, end, index);
    } else {
      InlineSpansAreChained(s, mask, start, end, index);
      InlineSpansAreTemplates(s, mask, start, end, index);
    }
  }

  lemma {:induction false} SpansFromAreRight(s: string, mask: TemplateMask, offset: nat, spans: seq<Span>)
    requires offset <= |s| && Chained(spans, 0, offset, 1) && forall span <- spans :: FromTemplate(s, mask, span)
    ensures Chained(SpansFrom(s, mask, offset, spans), 0, |s|, 1)
    ensures forall span <- SpansFrom(s, mask, offset, spans) :: FromTemplate(s, mask, span)
    decreases |s| - offset
  {
    if offset < |s| {
      var end := LineEnd(s, offset);
      var body := BodyEnd(s, offset, end);
      var these := LineSpans(s, mask, offset, body, |spans| + 1);
      LineEndEndsBody(s, offset);
      BodyEndEndsBody(s, offset, end);
      LineSpansAreRight(s, mask, offset, body, |spans| + 1);
      ChainedAppend(spans, these, 0, offset, end, 1);
      SpansFromAreRight(s, mask, end, spans + these);
    }
  }

  /** All spans are numbered in order, disjoint and within the text, and their syntax is the template's. */
  lemma SpansAreRight(s: string, mask: TemplateMask)
    ensures Chained(Spans(s, mask), 0, |s|, 1)
    ensures forall span <- Spans(s, mask) :: FromTemplate(s, mask, span)
  {
    SpansFromAreRight(s, mask, 0, []);
  }

  lemma {:induction false} ClosingIsMonotonic(s: string, mask: TemplateMask, i: nat, j: nat, end: nat)
    requires i <= j <= end <= |s|
    ensures Closing(s, mask, i, end) <= Closing(s, mask, j, end)
    decreases j - i
  {
    if i < j {
      ClosingIsMonotonic(s, mask, i + 1, j, end);
    }
  }

  predicate Covers(span: Span, i: nat) {
    span.start <= i < span.end
  }

  /** Nothing is missed: what opens in backticks and is closed later in the line starts a span, or is inside one. */
  lemma {:induction false} InlineSpansAreAll(s: string, mask: TemplateMask, from: nat, end: nat, index: nat, i: nat)
    requires from <= i && i + 1 < end <= |s| && Opens(s, mask, i) && Closing(s, mask, i + 2, end) < end
    ensures exists span <- InlineSpans(s, mask, from, end, index) :: Covers(span, i)
    decreases end - from
  {
    var spans := InlineSpans(s, mask, from, end, index);
    if !Opens(s, mask, from) {
      InlineSpansAreAll(s, mask, from + 1, end, index, i);
    } else {
      var closing := Closing(s, mask, from + 2, end);
      ClosingIsMonotonic(s, mask, from + 2, i + 2, end);
      var span := Span(index, s[from + 2..closing], from, closing + 1);
      var rest := InlineSpans(s, mask, closing + 1, end, index + 1);
      assert spans == [span] + rest;
      if i <= closing {
        assert span in spans && Covers(span, i);
      } else {
        InlineSpansAreAll(s, mask, closing + 1, end, index + 1, i);
        var found :| found in rest && Covers(found, i);
        assert found in spans;
      }
    }
  }

  /** Where the line that holds `i` starts, going on from a line that starts at `offset`. */
  function LineAt(s: string, offset: nat, i: nat): (start: nat)
    requires offset <= i < |s|
    ensures offset <= start <= i < LineEnd(s, start)
    decreases |s| - offset
  {
    if i < LineEnd(s, offset) then offset else LineAt(s, LineEnd(s, offset), i)
  }

  /** Spans are only added, and not before `offset`. */
  lemma {:induction false} SpansFromExtends(s: string, mask: TemplateMask, offset: nat, spans: seq<Span>)
    requires offset <= |s|
    ensures spans <= SpansFrom(s, mask, offset, spans)
    ensures forall i :: |spans| <= i < |SpansFrom(s, mask, offset, spans)| ==>
              offset <= SpansFrom(s, mask, offset, spans)[i].start
    decreases |s| - offset
  {
    if offset < |s| {
      var end := LineEnd(s, offset);
      var body := BodyEnd(s, offset, end);
      var these := LineSpans(s, mask, offset, body, |spans| + 1);
      LineEndEndsBody(s, offset);
      BodyEndEndsBody(s, offset, end);
      LineSpansAreRight(s, mask, offset, body, |spans| + 1);
      SpansFromExtends(s, mask, end, spans + these);
      assert spans <= spans + these;
    }
  }

  /** The line from `start` to `end` opens, with its first visible characters, a backtick command of the template that
      is closed before `i`. */
  predicate FollowsCommand(s: string, mask: TemplateMask, start: nat, end: nat, i: nat)
    requires start <= end <= |s|
  {
    var first := FirstNonSpace(s, start, end);
    && first + 1 < end && Bang(s, mask, first) && Backtick(s, mask, first + 1)
    && Closing(s, mask, first + 2, end) < i
  }

  lemma {:induction false} NoSpaceBefore(s: string, start: nat, end: nat, i: nat)
    requires start <= i < end <= |s| && !IsSpace(s[i])
    ensures FirstNonSpace(s, start, end) <= i
    decreases i - start
  {
    if IsSpace(s[start]) {
      NoSpaceBefore(s, start + 1, end, i);
    }
  }

  /** An inline command opens at `i`, and is closed before `end`. */
  predicate OpensAndCloses(s: string, mask: TemplateMask, i: nat, end: nat)
    requires end <= |s|
  {
    i + 1 < end && Opens(s, mask, i) && Closing(s, mask, i + 2, end) < end
  }

  lemma LineSpansAreAll(s: string, mask: TemplateMask, start: nat, end: nat, index: nat, i: nat)
    requires start <= i && start <= end <= |s| && OpensAndCloses(s, mask, i, end)
    ensures (exists span <- LineSpans(s, mask, start, end, index) :: Covers(span, i))
            <==> !FollowsCommand(s, mask, start, end, i)
  {
    var first := FirstNonSpace(s, start, end);
    NoSpaceBefore(s, start, end, i);
    if first < end && Bang(s, mask, first) {
      var span := BangSpan(s, mask, first, end, index);
      assert LineSpans(s, mask, start, end, index) == [span] && span in [span];
      assert Covers(span, i) <==> !FollowsCommand(s, mask, start, end, i);
    } else {
      InlineSpansAreAll(s, mask, start, end, index, i);
    }
  }

  lemma {:induction false} SpansFromAreAll(s: string, mask: TemplateMask, offset: nat, spans: seq<Span>, i: nat)
    requires offset <= i < |s| && Chained(spans, 0, offset, 1)
    requires var start := LineAt(s, offset, i);
      OpensAndCloses(s, mask, i, BodyEnd(s, start, LineEnd(s, start)))
    ensures var start := LineAt(s, offset, i);
      (exists span <- SpansFrom(s, mask, offset, spans) :: Covers(span, i))
      <==> !FollowsCommand(s, mask, start, BodyEnd(s, start, LineEnd(s, start)), i)
    decreases |s| - offset
  {
    var end := LineEnd(s, offset);
    var body := BodyEnd(s, offset, end);
    var these := LineSpans(s, mask, offset, body, |spans| + 1);
    LineEndEndsBody(s, offset);
    BodyEndEndsBody(s, offset, end);
    LineSpansAreRight(s, mask, offset, body, |spans| + 1);
    if i < end {
      LineSpansAreAll(s, mask, offset, body, |spans| + 1, i);
      SpansFromExtends(s, mask, end, spans + these);
      OnlyTheseCover(spans, these, SpansFrom(s, mask, offset, spans), offset, end, i);
    } else {
      ChainedAppend(spans, these, 0, offset, end, 1);
      SpansFromAreAll(s, mask, end, spans + these, i);
    }
  }

  lemma OnlyTheseCover(before: seq<Span>, these: seq<Span>, all: seq<Span>, offset: nat, end: nat, i: nat)
    requires offset <= i < end && Chained(before, 0, offset, 1) && before + these <= all
    requires forall j :: |before + these| <= j < |all| ==> end <= all[j].start
    ensures (exists span <- all :: Covers(span, i)) <==> exists span <- these :: Covers(span, i)
  {
    if span :| span in these && Covers(span, i) {
      var j :| 0 <= j < |these| && these[j] == span;
      assert all[|before| + j] == span;
    }
    if span :| span in all && Covers(span, i) {
      var j :| 0 <= j < |all| && all[j] == span;
      assert |before| <= j < |before + these|;
      assert these[j - |before|] == span;
    }
  }

  /** Nothing is missed in a whole text but behind a command that begins its line: what opens in backticks and is closed
      later in its line is covered by a span if and only if it does not follow such a command. */
  lemma SpansAreAll(s: string, mask: TemplateMask, i: nat)
    requires i < |s|
    requires var start := LineAt(s, 0, i); OpensAndCloses(s, mask, i, BodyEnd(s, start, LineEnd(s, start)))
    ensures var start := LineAt(s, 0, i);
      (exists span <- Spans(s, mask) :: Covers(span, i))
      <==> !FollowsCommand(s, mask, start, BodyEnd(s, start, LineEnd(s, start)), i)
  {
    SpansFromAreAll(s, mask, 0, [], i);
  }

  /** Such a line: its second command is never found. */
  lemma SecondCommandIsMissed()
    ensures var s := "!`a`!`b`"; OpensAndCloses(s, All, 4, |s|) && !exists span <- Spans(s, All) :: Covers(span, 4)
  {
    var s := "!`a`!`b`";
    assert LineEnd(s, 6) == 8 && LineEnd(s, 4) == 8 && LineEnd(s, 2) == 8 && LineEnd(s, 0) == 8;
    assert Closing(s, All, 2, 8) == 3 && Closing(s, All, 6, 8) == 7;
    SpansAreAll(s, All, 4);
  }
}
