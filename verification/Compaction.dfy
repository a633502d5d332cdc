/**
History compaction: messages, what they cost, and splitting a conversation by token share.

Token costs follow the program's estimate: four characters a token, floored, plus 20 per cent,
with the factor 1.2 taken as the exact fraction 6/5.
*/
module Compaction {
  const DEFAULT_PARTS := 2

  /** A tool call: its id ("" when it has none) and the length of its printed form. */
  datatype ToolCall = ToolCall(id: string, printed: nat)

  /** An absent content, tool id or tool-call list is an empty one. */
  datatype Message = Message(role: string, content: string, toolCalls: seq<ToolCall>, toolUseId: string)

  // Token costs

  type CostModel = Message -> nat

  /** The same message, with tool calls that print no longer. */
  predicate FewerCalls(less: Message, more: Message) {
    && less.(toolCalls := more.toolCalls) == more
    && PrintedLength(less.toolCalls) <= PrintedLength(more.toolCalls)
  }

  /** What the results below need of a token estimate: no message is free, and dropping tool calls makes none
      dearer. */
  ghost predicate Reasonable(cost: CostModel) {
    && (forall m :: cost(m) >= 1)
    && (forall less, more :: FewerCalls(less, more) ==> cost(less) <= cost(more))
  }

  function PrintedLength(calls: seq<ToolCall>): nat {
    if calls == [] then 0 else calls[0].printed + 2 + PrintedLength(calls[1..])
  }

  /** 20 per cent more, for safety. */
  function WithMargin(tokens: nat): nat {
    tokens * 6 / 5
  }

  function Estimate(m: Message): nat {
    WithMargin(|m.content| / 4 + |m.role| / 4 + 2 + PrintedLength(m.toolCalls) / 4)
  }

  /** The estimate is a fifth more than what the parts of the message are counted for, in whole tokens. */
  lemma EstimateIsAFifthMore(m: Message)
    ensures var counted := |m.content| / 4 + |m.role| / 4 + 2 + PrintedLength(m.toolCalls) / 4;
      Estimate(m) as real <= counted as real * 1.2 < Estimate(m) as real + 1.0
  {
    var counted := |m.content| / 4 + |m.role| / 4 + 2 + PrintedLength(m.toolCalls) / 4;
    assert 5 * Estimate(m) <= 6 * counted < 5 * (Estimate(m) + 1);
  }

  lemma MarginIsMonotonic(a: nat, b: nat)
    requires a <= b
    ensures WithMargin(a) <= WithMargin(b) && (a >= 1 ==> WithMargin(a) >= 1)
  {
  }

  lemma QuarterIsMonotonic(a: nat, b: nat)
    requires a <= b
    ensures a / 4 <= b / 4
  {
  }

  lemma EstimateIsReasonable()
    ensures Reasonable(Estimate)
  {
    forall m ensures Estimate(m) >= 1 {
      MarginIsMonotonic(|m.content| / 4 + |m.role| / 4 + 2 + PrintedLength(m.toolCalls) / 4,
                        |m.content| / 4 + |m.role| / 4 + 2 + PrintedLength(m.toolCalls) / 4);
    }
    forall less, more | FewerCalls(less, more) ensures Estimate(less) <= Estimate(more) {
      assert less.content == more.content && less.role == more.role;
      QuarterIsMonotonic(PrintedLength(less.toolCalls), PrintedLength(more.toolCalls));
      MarginIsMonotonic(|less.content| / 4 + |less.role| / 4 + 2 + PrintedLength(less.toolCalls) / 4,
                        |more.content| / 4 + |more.role| / 4 + 2 + PrintedLength(more.toolCalls) / 4);
    }
  }

  function Tokens(cost: CostModel, ms: seq<Message>): nat {
    if ms == [] then 0 else cost(ms[0]) + Tokens(cost, ms[1..])
  }

  lemma {:induction false} TokensAppend(cost: CostModel, a: seq<Message>, b: seq<Message>)
    ensures Tokens(cost, a + b) == Tokens(cost, a) + Tokens(cost, b)
  {
    if a == [] {
      assert a + b == b;
    } else {
      assert (a + b)[1..] == a[1..] + b;
      TokensAppend(cost, a[1..], b);
    }
  }

  lemma TokensOfOneMore(cost: CostModel, a: seq<Message>, m: Message)
    ensures Tokens(cost, a + [m]) == Tokens(cost, a) + cost(m)
  {
    TokensAppend(cost, a, [m]);
    assert Tokens(cost, [m]) == cost(m) + Tokens(cost, []);
  }

  /** No message is free, so longer conversations cost more. */
  lemma {:induction false} TokensAtLeast(cost: CostModel, ms: seq<Message>)
    requires Reasonable(cost)
    ensures Tokens(cost, ms) >= |ms|
  {
    if ms != [] {
      TokensAtLeast(cost, ms[1..]);
    }
  }

  // Splitting

  function Min(a: int, b: int): int {
    if a < b then a else b
  }

  function NormalizeParts(parts: int, count: nat): nat {
    if parts <= 1 then 1 else Min(parts, if count < 1 then 1 else count)
  }

  function Flatten(chunks: seq<seq<Message>>): seq<Message> {
    if chunks == [] then [] else Flatten(chunks[..|chunks| - 1]) + chunks[|chunks| - 1]
  }

  /** `chunk` costs no more than its share of `total`, or could not be smaller. */
  predicate WithinShare(cost: CostModel, chunk: seq<Message>, total: nat, parts: nat) {
    |chunk| == 1 || Tokens(cost, chunk) * parts <= total
  }

  /** ... and there was no room in it for `next`. */
  predicate Full(cost: CostModel, chunk: seq<Message>, next: Message, total: nat, parts: nat) {
    WithinShare(cost, chunk, total, parts) && (Tokens(cost, chunk) + cost(next)) * parts > total
  }

  /** Non-empty chunks, each but the last full. */
  ghost predicate Greedy(cost: CostModel, chunks: seq<seq<Message>>, total: nat, parts: nat) {
    && (forall j :: 0 <= j < |chunks| ==> chunks[j] != [])
    && (forall j :: 0 <= j < |chunks| - 1 ==> Full(cost, chunks[j], chunks[j + 1][0], total, parts))
  }

  /** The greedy split of `ms` into at most `parts` chunks. */
  ghost predicate IsSplit(cost: CostModel, ms: seq<Message>, parts: nat, chunks: seq<seq<Message>>) {
    && Flatten(chunks) == ms
    && |chunks| <= parts
    && Greedy(cost, chunks, Tokens(cost, ms), parts)
    && (0 < |chunks| < parts ==> WithinShare(cost, chunks[|chunks| - 1], Tokens(cost, ms), parts))
  }

  lemma FlattenOneMore(chunks: seq<seq<Message>>, chunk: seq<Message>)
    ensures Flatten(chunks + [chunk]) == Flatten(chunks) + chunk
  {
    assert (chunks + [chunk])[..|chunks|] == chunks;
  }

  lemma GreedyOneMore(cost: CostModel, chunks: seq<seq<Message>>, chunk: seq<Message>, total: nat, parts: nat)
    requires Greedy(cost, chunks, total, parts) && chunk != []
    requires chunks != [] ==> Full(cost, chunks[|chunks| - 1], chunk[0], total, parts)
    ensures Greedy(cost, chunks + [chunk], total, parts)
  {
  }

  /** What the splitting loop makes of the messages still to come. */
  function SplitFrom(cost: CostModel, rest: seq<Message>, total: nat, parts: nat, chunks: seq<seq<Message>>,
                     current: seq<Message>): seq<seq<Message>>
  {
    if rest == [] then chunks + [current]
    else if |chunks| < parts - 1 && current != [] && (Tokens(cost, current) + cost(rest[0])) * parts > total then
      SplitFrom(cost, rest[1..], total, parts, chunks + [current], [rest[0]])
    else SplitFrom(cost, rest[1..], total, parts, chunks, current + [rest[0]])
  }

  function Split(cost: CostModel, ms: seq<Message>, parts: int): seq<seq<Message>> {
    var n := NormalizeParts(parts, |ms|);
    if ms == [] then [] else if n <= 1 then [ms] else SplitFrom(cost, ms, Tokens(cost, ms), n, [], [])
  }

  method SplitByTokenShare(cost: CostModel, ms: seq<Message>, parts: int) returns (chunks: seq<seq<Message>>)
    ensures chunks == Split(cost, ms, parts)
  {
    chunks := [];
    if ms == [] {
      return;
    }
    var n := NormalizeParts(parts, |ms|);
    if n <= 1 {
      return [ms];
    }
    var total := Tokens(cost, ms);
    var current: seq<Message> := [];
    var currentTokens := 0;
    var i := 0;
    assert ms[0..] == ms;
    while i < |ms|
      invariant 0 <= i <= |ms| && currentTokens == Tokens(cost, current)
      invariant SplitFrom(cost, ms[i..], total, n, chunks, current) == Split(cost, ms, parts)
    {
      var message := ms[i];
      var price := cost(message);
      assert ms[i..][1..] == ms[i + 1..];
      if |chunks| < n - 1 && current != [] && (currentTokens + price) * n > total {
        chunks := chunks + [current];
        current := [];
        currentTokens := 0;
        assert current + [message] == [message];
      }
      TokensOfOneMore(cost, current, message);
      current := current + [message];
      currentTokens := currentTokens + price;
      i := i + 1;
    }
    chunks := chunks + [current];
  }

  lemma HeadMoves(done: seq<Message>, current: seq<Message>, rest: seq<Message>)
    requires rest != []
    ensures done + current + rest == done + current + [rest[0]] + rest[1..]
    ensures done + current + rest == done + (current + [rest[0]]) + rest[1..]
  {
  }

  lemma {:induction false} SplitFromIsGreedy(cost: CostModel, rest: seq<Message>, total: nat, parts: nat,
                                             chunks: seq<seq<Message>>, current: seq<Message>)
    requires |chunks| < parts && Greedy(cost, chunks, total, parts) && (current != [] || rest != [])
    requires chunks != [] ==> current != [] && Full(cost, chunks[|chunks| - 1], current[0], total, parts)
    requires |chunks| < parts - 1 && current != [] ==> WithinShare(cost, current, total, parts)
    ensures var all := SplitFrom(cost, rest, total, parts, chunks, current);
      && Flatten(all) == Flatten(chunks) + current + rest
      && 0 < |all| <= parts && Greedy(cost, all, total, parts)
      && (|all| < parts ==> WithinShare(cost, all[|all| - 1], total, parts))
    decreases rest
  {
    if rest == [] {
      FlattenOneMore(chunks, current);
      GreedyOneMore(cost, chunks, current, total, parts);
    } else if |chunks| < parts - 1 && current != [] && (Tokens(cost, current) + cost(rest[0])) * parts > total {
      FlattenOneMore(chunks, current);
      GreedyOneMore(cost, chunks, current, total, parts);
      SplitFromIsGreedy(cost, rest[1..], total, parts, chunks + [current], [rest[0]]);
      HeadMoves(Flatten(chunks), current, rest);
    } else {
      TokensOfOneMore(cost, current, rest[0]);
      SplitFromIsGreedy(cost, rest[1..], total, parts, chunks, current + [rest[0]]);
      HeadMoves(Flatten(chunks), current, rest);
    }
  }

  /** The split keeps every message in order, gives each chunk its share and no more, and, asked for two or more parts
      of two or more messages, makes at least two chunks. */
  lemma SplitIsGreedy(cost: CostModel, ms: seq<Message>, parts: int)
    requires Reasonable(cost)
    ensures IsSplit(cost, ms, NormalizeParts(parts, |ms|), Split(cost, ms, parts))
    ensures ms != [] ==> Split(cost, ms, parts) != []
    ensures |ms| >= 2 && parts >= 2 ==> |Split(cost, ms, parts)| >= 2
  {
    var n := NormalizeParts(parts, |ms|);
    FlattenOneMore([], ms);
    if ms != [] && n >= 2 {
      SplitFromIsGreedy(cost, ms, Tokens(cost, ms), n, [], []);
      var all := Split(cost, ms, parts);
      if |all| == 1 {
        assert Flatten(all) == Flatten(all[..0]) + all[0] == all[0];
        WholeIsNotWithinShare(cost, ms, n);
      }
    }
  }

  /** Two or more messages never fit one share of two or more. */
  lemma WholeIsNotWithinShare(cost: CostModel, ms: seq<Message>, parts: nat)
    requires Reasonable(cost) && |ms| >= 2 && parts >= 2
    ensures !WithinShare(cost, ms, Tokens(cost, ms), parts)
  {
    TokensAtLeast(cost, ms);
    assert Tokens(cost, ms) * parts >= Tokens(cost, ms) * 2;
  }
}
