/**
Putting the results of shell commands in the place of their spans, and the way of a command from template to splice.
*/
module CommandSplice {
  import opened CommandLines
  import opened CommandSpans
  import opened CommandTemplates
  import opened Sequences

  /** A result: its span, and how it is rendered. */
  datatype Result = Result(span: Span, text: string)

  // Ordering

  /** Insert before the first that starts later. */
  function Insert(r: Result, sorted: seq<Result>): seq<Result> {
    if sorted == [] then [r]
    else if r.span.start <= sorted[0].span.start then [r] + sorted
    else [sorted[0]] + Insert(r, sorted[1..])
  }

  /** The results by the start of their spans, equal ones in the order given. */
  function Sorted(results: seq<Result>): seq<Result> {
    if results == [] then [] else Insert(results[0], Sorted(results[1..]))
  }

  // Splicing

  /** `content[from:to]`, for any bounds. */
  function Slice(content: string, from: nat, to: nat): string {
    var hi := if to < |content| then to else |content|;
    if from <= hi then content[from..hi] else []
  }

  function SpliceFrom(content: string, results: seq<Result>, cursor: nat): string {
    if results == [] then Slice(content, cursor, |content|)
    else
      Slice(content, cursor, results[0].span.start) + results[0].text
      + SpliceFrom(content, results[1..], results[0].span.end)
  }

  function Spliced(content: string, results: seq<Result>): string {
    if results == [] then content else SpliceFrom(content, Sorted(results), 0)
  }

  method ApplyCommandShellResults(content: string, results: seq<Result>) returns (spliced: string)
    ensures spliced == Spliced(content, results)
  {
    var ordered := Sorted(results);
    if results == [] {
      return content;
    }
    spliced := [];
    var cursor := 0;
    var i := 0;
    assert ordered[0..] == ordered;
    while i < |ordered|
      invariant 0 <= i <= |ordered|
      invariant spliced + SpliceFrom(content, ordered[i..], cursor) == SpliceFrom(content, ordered, 0)
    {
      assert ordered[i..][1..] == ordered[i + 1..];
      var part := Slice(content, cursor, ordered[i].span.start) + ordered[i].text;
      Regrouped(spliced, part, SpliceFrom(content, ordered[i + 1..], ordered[i].span.end),
                SpliceFrom(content, ordered[i..], cursor), SpliceFrom(content, ordered, 0));
      spliced := spliced + part;
      cursor := ordered[i].span.end;
      i := i + 1;
    }
    spliced := spliced + Slice(content, cursor, |content|);
  }

  // Disjoint spans in any order

  predicate Apart(a: Result, b: Result) {
    a.span.end <= b.span.start || b.span.end <= a.span.start
  }

  /** Spans within a text of length `n` that do not overlap. */
  ghost predicate Disjoint(results: seq<Result>, n: nat) {
    && (forall r <- results :: r.span.start < r.span.end <= n)
    && (forall i, j :: 0 <= i < j < |results| ==> Apart(results[i], results[j]))
  }

  /** Disjoint spans from `lo` on, in order. */
  ghost predicate InLine(results: seq<Result>, lo: nat, n: nat) {
    lo <= n
    && (results != [] ==>
          && lo <= results[0].span.start < results[0].span.end <= n
          && InLine(results[1..], results[0].span.end, n))
  }

  lemma {:induction false} InLineMembers(results: seq<Result>, lo: nat, n: nat)
    requires InLine(results, lo, n)
    ensures forall r <- results :: lo <= r.span.start < r.span.end <= n
  {
    if results != [] {
      InLineMembers(results[1..], results[0].span.end, n);
    }
  }

  lemma {:induction false} InsertMembers(r: Result, sorted: seq<Result>)
    ensures forall x :: x in Insert(r, sorted) <==> x == r || x in sorted
  {
    if sorted != [] {
      InsertMembers(r, sorted[1..]);
    }
  }

  lemma {:induction false} SortedMembers(results: seq<Result>)
    ensures forall x :: x in Sorted(results) <==> x in results
  {
    if results != [] {
      SortedMembers(results[1..]);
      InsertMembers(results[0], Sorted(results[1..]));
    }
  }

  lemma {:induction false} InsertIntoLine(r: Result, sorted: seq<Result>, lo: nat, n: nat)
    requires InLine(sorted, lo, n) && lo <= r.span.start < r.span.end <= n
    requires forall x <- sorted :: Apart(r, x)
    ensures InLine(Insert(r, sorted), lo, n)
  {
    if sorted != [] {
      assert sorted[0] in sorted && Apart(r, sorted[0]);
      if r.span.start <= sorted[0].span.start {
        assert ([r] + sorted)[1..] == sorted;
      } else {
        InsertIntoLine(r, sorted[1..], sorted[0].span.end, n);
        assert ([sorted[0]] + Insert(r, sorted[1..]))[1..] == Insert(r, sorted[1..]);
      }
    }
  }

  /** Sorting puts disjoint spans in line. */
  lemma {:induction false} SortedIsInLine(results: seq<Result>, n: nat)
    requires Disjoint(results, n)
    ensures InLine(Sorted(results), 0, n)
  {
    if results != [] {
      var rest := results[1..];
      forall i, j | 0 <= i < j < |rest| ensures Apart(rest[i], rest[j]) {
        assert Apart(results[i + 1], results[j + 1]);
      }
      SortedIsInLine(rest, n);
      SortedMembers(rest);
      forall x <- Sorted(rest) ensures Apart(results[0], x) {
        var i :| 0 <= i < |rest| && rest[i] == x;
        assert Apart(results[0], results[i + 1]);
      }
      InsertIntoLine(results[0], Sorted(rest), 0, n);
    }
  }

  // What splicing keeps

  predicate Restores(r: Result, content: string) {
    r.text == Slice(content, r.span.start, r.span.end)
  }

  lemma {:induction false} RestoringInLine(content: string, results: seq<Result>, cursor: nat)
    requires InLine(results, cursor, |content|) && forall r <- results :: Restores(r, content)
    ensures SpliceFrom(content, results, cursor) == content[cursor..]
  {
    if results != [] {
      RestoringInLine(content, results[1..], results[0].span.end);
      assert Restores(results[0], content);
      var start, end := results[0].span.start, results[0].span.end;
      assert content[cursor..] == content[cursor..start] + content[start..end] + content[end..];
    }
  }

  /** Putting the original text of disjoint spans back in their place, in any order, gives the content. */
  lemma RestoringGivesContent(content: string, results: seq<Result>)
    requires Disjoint(results, |content|) && forall r <- results :: Restores(r, content)
    ensures Spliced(content, results) == content
  {
    if results != [] {
      SortedIsInLine(results, |content|);
      SortedMembers(results);
      RestoringInLine(content, Sorted(results), 0);
    }
  }

  predicate Covered(results: seq<Result>, i: nat) {
    exists r <- results :: Covers(r.span, i)
  }

  /** The characters from `i` on that no span covers. */
  function Uncovered(content: string, results: seq<Result>, i: nat): string
    decreases |content| - i
  {
    if i >= |content| then []
    else (if Covered(results, i) then [] else [content[i]]) + Uncovered(content, results, i + 1)
  }

  /** The spliced text, marked: what was outside of the spans, and what was put in. */
  function SplicedMarks(content: string, results: seq<Result>, cursor: nat): seq<Marked> {
    if results == [] then Marks(Slice(content, cursor, |content|), true)
    else
      Marks(Slice(content, cursor, results[0].span.start), true) + Marks(results[0].text, false)
      + SplicedMarks(content, results[1..], results[0].span.end)
  }

  function Texts(results: seq<Result>): string {
    if results == [] then [] else results[0].text + Texts(results[1..])
  }

  lemma {:induction false} UncoveredRun(content: string, results: seq<Result>, from: nat, to: nat, covered: bool)
    requires from <= to <= |content| && forall i :: from <= i < to ==> Covered(results, i) == covered
    ensures Uncovered(content, results, from) ==
            (if covered then [] else content[from..to]) + Uncovered(content, results, to)
    decreases |content| - from
  {
    if from < to {
      UncoveredRun(content, results, from + 1, to, covered);
      assert content[from..to] == [content[from]] + content[from + 1..to];
      var tail := Uncovered(content, results, from + 1);
      if !covered {
        Regrouped([content[from]], content[from + 1..to], Uncovered(content, results, to), tail,
                  [content[from]] + tail);
      }
    }
  }

  lemma {:induction false} UncoveredDrop(content: string, results: seq<Result>, i: nat)
    requires results != [] && results[0].span.end <= i
    ensures Uncovered(content, results, i) == Uncovered(content, results[1..], i)
    decreases |content| - i
  {
    if i < |content| {
      UncoveredDrop(content, results, i + 1);
      assert Covered(results, i) == Covered(results[1..], i) by {
        if Covered(results, i) {
          var r :| r in results && Covers(r.span, i);
          assert r in results[1..];
        }
      }
    }
  }

  lemma {:induction false} MarksInLine(content: string, results: seq<Result>, cursor: nat)
    requires InLine(results, cursor, |content|)
    ensures var marks := SplicedMarks(content, results, cursor);
      && Text(marks) == SpliceFrom(content, results, cursor)
      && Those(marks, true) == Uncovered(content, results, cursor)
      && Those(marks, false) == Texts(results)
  {
    InLineMembers(results, cursor, |content|);
    if results == [] {
      var tail := Slice(content, cursor, |content|);
      OfMarks(tail, true);
      ThoseOfMarks(tail, true, true);
      ThoseOfMarks(tail, true, false);
      UncoveredRun(content, results, cursor, |content|, false);
    } else {
      MarksInLine(content, results[1..], results[0].span.end);
      InLineMembers(results[1..], results[0].span.end, |content|);
      GapIsUncovered(content, results, cursor);
      var gap := Slice(content, cursor, results[0].span.start);
      MarksOfPiece(gap, results[0].text, SplicedMarks(content, results[1..], results[0].span.end));
    }
  }

  /** Up to the first span nothing is covered, and in it everything is. */
  lemma GapIsUncovered(content: string, results: seq<Result>, cursor: nat)
    requires InLine(results, cursor, |content|) && results != []
    requires forall r <- results :: cursor <= r.span.start < r.span.end <= |content|
    requires forall r <- results[1..] :: results[0].span.end <= r.span.start
    ensures Uncovered(content, results, cursor) ==
      Slice(content, cursor, results[0].span.start) + Uncovered(content, results[1..], results[0].span.end)
  {
    var start, end := results[0].span.start, results[0].span.end;
    forall i | cursor <= i < start ensures !Covered(results, i) {
      forall r <- results ensures !Covers(r.span, i) {
        assert r == results[0] || r in results[1..];
      }
    }
    forall i | start <= i < end ensures Covered(results, i) {
      assert results[0] in results && Covers(results[0].span, i);
    }
    UncoveredRun(content, results, cursor, start, false);
    UncoveredRun(content, results, start, end, true);
    UncoveredDrop(content, results, end);
  }

  lemma MarksOfPiece(gap: string, text: string, rest: seq<Marked>)
    ensures var marks := Marks(gap, true) + Marks(text, false) + rest;
      && Text(marks) == gap + text + Text(rest)
      && Those(marks, true) == gap + Those(rest, true)
      && Those(marks, false) == text + Those(rest, false)
  {
    var both := Marks(gap, true) + Marks(text, false);
    OfAppend(both, rest);
    OfAppend(Marks(gap, true), Marks(text, false));
    OfMarks(gap, true);
    OfMarks(text, false);
    forall t: bool ensures Those(both + rest, t) == Those(both, t) + Those(rest, t) {
      ThoseAppend(both, rest, t);
    }
    forall t: bool ensures Those(both, t) == if t then gap else text {
      ThoseAppend(Marks(gap, true), Marks(text, false), t);
      ThoseOfMarks(gap, true, t);
      ThoseOfMarks(text, false, t);
    }
  }

  /** Splicing keeps exactly the characters outside of the spans, in order, and puts the results between them, in the
      order of their spans. */
  lemma SplicingKeepsTheRest(content: string, results: seq<Result>) returns (marks: seq<Marked>)
    requires Disjoint(results, |content|) && results != []
    ensures Text(marks) == Spliced(content, results)
    ensures Those(marks, true) == Uncovered(content, Sorted(results), 0)
    ensures Those(marks, false) == Texts(Sorted(results))
  {
    SortedIsInLine(results, |content|);
    MarksInLine(content, Sorted(results), 0);
    marks := SplicedMarks(content, Sorted(results), 0);
  }

  // From template to splice

  function Take<T>(s: seq<T>, n: nat): seq<T> {
    if n < |s| then s[..n] else s
  }

  /** Render, truncate text and mask alike, and find the spans. */
  method ExpandCommand(content: string, arguments: string, words: seq<string>, maxChars: nat)
    returns (text: string, mask: seq<bool>, spans: seq<Span>)
    ensures var marked := Take(Rendered(content, arguments, words), maxChars);
      text == Text(marked) && mask == Mask(marked) && |mask| == |text|
    ensures var all := Rendered(content, arguments, words);
      text <= Text(all) && mask <= Mask(all) && |text| == if maxChars < |all| then maxChars else |all|
    ensures spans == Spans(text, Known(mask)) && ReadsLines(text, Known(mask), spans)
  {
    text, mask := RenderCommandTemplate(content, arguments, words);
    TakeOfMarked(Rendered(content, arguments, words), maxChars);
    SameLength(Take(Rendered(content, arguments, words), maxChars));
    text, mask := Take(text, maxChars), Take(mask, maxChars);
    spans := FindCommandShellInterpolations(text, Known(mask));
    SpansReadLines(text, Known(mask));
  }

  lemma TakeOfMarked(marked: seq<Marked>, n: nat)
    ensures Text(Take(marked, n)) == Take(Text(marked), n) && Mask(Take(marked, n)) == Take(Mask(marked), n)
  {
    SameLength(marked);
    if n < |marked| {
      OfAppend(marked[..n], marked[n..]);
      SameLength(marked[..n]);
      assert marked == marked[..n] + marked[n..];
    }
  }

  /** For every template, argument text and truncation, the spans found are disjoint, begin with a `!` that the template
      wrote, and give the text again when their own text is put back. */
  lemma ExpandedSpansAreSafe(content: string, arguments: string, words: seq<string>, maxChars: nat)
    ensures var marked := Take(Rendered(content, arguments, words), maxChars); var text := Text(marked);
      var spans := Spans(text, Known(Mask(marked)));
      && |text| == |marked|
      && Chained(spans, 0, |text|, 1)
      && (forall span <- spans :: span.start < |marked| && marked[span.start] == Marked('!', true))
      && Spliced(text, PutBack(text, spans)) == text
  {
    var marked := Take(Rendered(content, arguments, words), maxChars);
    var text, mask := Text(marked), Known(Mask(marked));
    SameLength(marked);
    SpansAreRight(text, mask);
    var spans := Spans(text, mask);
    forall span <- spans ensures span.start < |marked| && marked[span.start] == Marked('!', true) {
      assert FromTemplate(text, mask, span);
    }
    var results := PutBack(text, spans);
    forall i, j | 0 <= i < j < |results| ensures Apart(results[i], results[j]) {
      assert results[i].span == spans[i] && results[j].span == spans[j];
    }
    RestoringGivesContent(text, results);
  }

  function PutBack(text: string, spans: seq<Span>): seq<Result> {
    seq(|spans|, i requires 0 <= i < |spans| => Result(spans[i], Slice(text, spans[i].start, spans[i].end)))
  }
}
