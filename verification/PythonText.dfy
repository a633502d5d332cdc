/**
Python's notions of white space and of lines.
*/
module PythonText {
  /** The white space of Python's `str.isspace`. */
  predicate IsSpace(c: char) {
    var n := c as int;
    || 9 <= n <= 13 || 28 <= n <= 32 || n == 133 || n == 160 || n == 5760 || 8192 <= n <= 8202
    || n == 8232 || n == 8233 || n == 8239 || n == 8287 || n == 12288
  }

  /** What ends a line for `str.splitlines`. */
  predicate EndsLine(c: char) {
    var n := c as int;
    10 <= n <= 13 || 28 <= n <= 30 || n == 133 || n == 8232 || n == 8233
  }

  /** Where the line that starts at `i` ends, its line break included. */
  function LineEnd(s: string, i: nat): (n: nat)
    ensures i < |s| ==> i < n <= |s|
    decreases |s| - i
  {
    if i >= |s| then |s|
    else if s[i] == '\r' && i + 1 < |s| && s[i + 1] == '\n' then i + 2
    else if EndsLine(s[i]) || i + 1 == |s| then i + 1
    else LineEnd(s, i + 1)
  }

  /** `str.strip`. */
  function Stripped(s: string): string {
    if s != [] && IsSpace(s[0]) then Stripped(s[1..])
    else if s != [] && IsSpace(s[|s| - 1]) then Stripped(s[..|s| - 1])
    else s
  }

  /** Stripping leaves what is from the first to the last character that is no white space. */
  lemma {:induction false} StrippedIs(s: string) returns (from: nat, to: nat)
    ensures from <= to <= |s| && Stripped(s) == s[from..to]
    ensures forall i :: 0 <= i < from || to <= i < |s| ==> IsSpace(s[i])
    ensures from < to ==> !IsSpace(s[from]) && !IsSpace(s[to - 1])
    decreases |s|
  {
    if s != [] && IsSpace(s[0]) {
      from, to := StrippedIs(s[1..]);
      assert s[1..][from..to] == s[from + 1..to + 1];
      assert forall i :: 0 < i < |s| ==> s[i] == s[1..][i - 1];
      from, to := from + 1, to + 1;
    } else if s != [] && IsSpace(s[|s| - 1]) {
      from, to := StrippedIs(s[..|s| - 1]);
      assert s[..|s| - 1][from..to] == s[from..to];
    } else {
      from, to := 0, |s|;
      assert s[0..|s|] == s;
    }
  }
}
