/**
Pruning a history until it fits its share of the context, and the entry point of compaction.

The summary of old messages comes from a language model and is a function parameter here.
*/
module HistoryCompaction {
  import opened Compaction
  import opened RepairedHistory
  import opened ToolCallPairing
  import opened Options

  const SYSTEM := "system"
  const SUMMARY_HEADING := "Summary of earlier conversation:\n\n"
  const HISTORY_SHARE := 0.5

  datatype Stats = Stats(droppedChunks: nat, droppedMessages: nat, droppedTokens: nat, keptTokens: nat,
                         budgetTokens: int, summary: Option<string>)

  const NOTHING_DONE := Stats(0, 0, 0, 0, 0, None)

  function Budget(maxContextTokens: int, share: real): int {
    var whole := (maxContextTokens as real * share).Floor;
    if whole < 1 then 1 else whole
  }

  /** A number of parts that is absent, or 0, is the default one. */
  function EffectiveParts(parts: int): int {
    if parts == 0 then DEFAULT_PARTS else parts
  }

  // Pruning

  lemma {:induction false} FlattenFromTheFront(chunks: seq<seq<Message>>)
    requires chunks != []
    ensures Flatten(chunks) == chunks[0] + Flatten(chunks[1..])
  {
    var most := chunks[..|chunks| - 1];
    if most == [] {
      assert Flatten(chunks) == Flatten([]) + chunks[0] == chunks[0];
    } else {
      FlattenFromTheFront(most);
      assert most[1..] == chunks[1..][..|chunks[1..]| - 1];
    }
  }

  /** The first of several chunks is a proper, non-empty prefix, and the others are the rest. */
  lemma FirstChunkIsPrefix(cost: CostModel, ms: seq<Message>, parts: int)
    requires |Split(cost, ms, parts)| > 1
    ensures var chunks := Split(cost, ms, parts);
      0 < |chunks[0]| < |ms| && ms == chunks[0] + Flatten(chunks[1..])
  {
    var n := NormalizeParts(parts, |ms|);
    SplitFromIsGreedy(cost, ms, Tokens(cost, ms), n, [], []);
    var chunks := Split(cost, ms, parts);
    FlattenFromTheFront(chunks);
    FlattenFromTheFront(chunks[1..]);
    assert chunks[1] != [];
  }

  /** How many of the oldest messages go: chunk by chunk, while what is left is over budget and still splits. */
  function DroppedFrom(cost: CostModel, ms: seq<Message>, budget: int, parts: int): (n: nat)
    ensures n <= |ms| && (ms != [] ==> n < |ms|)
    decreases |ms|
  {
    var chunks := Split(cost, ms, parts);
    if Tokens(cost, ms) > budget && |chunks| > 1 then
      FirstChunkIsPrefix(cost, ms, parts);
      |chunks[0]| + DroppedFrom(cost, ms[|chunks[0]|..], budget, parts)
    else 0
  }

  method PruneHistory(cost: CostModel, ms: seq<Message>, maxContextTokens: int, share: real, parts: int)
    returns (kept: seq<Message>, stats: Stats)
    ensures stats.droppedMessages <= |ms| && kept == ms[stats.droppedMessages..]
    ensures stats.droppedMessages ==
      DroppedFrom(cost, ms, Budget(maxContextTokens, share), NormalizeParts(EffectiveParts(parts), |ms|))
    ensures stats.droppedChunks == 0 <==> kept == ms
    ensures stats.droppedTokens == Tokens(cost, ms[..stats.droppedMessages])
    ensures stats.keptTokens == Tokens(cost, kept)
    ensures stats.budgetTokens == Budget(maxContextTokens, share) && stats.summary == None
  {
    var budget := Budget(maxContextTokens, share);
    var droppedChunks, droppedMessages, droppedTokens := 0, 0, 0;
    var n := NormalizeParts(EffectiveParts(parts), |ms|);
    kept := ms;
    while kept != [] && Tokens(cost, kept) > budget
      invariant 0 <= droppedMessages <= |ms| && kept == ms[droppedMessages..]
      invariant droppedTokens == Tokens(cost, ms[..droppedMessages])
      invariant droppedChunks == 0 <==> droppedMessages == 0
      invariant droppedMessages + DroppedFrom(cost, kept, budget, n) == DroppedFrom(cost, ms, budget, n)
      decreases |kept|
    {
      var chunks := SplitByTokenShare(cost, kept, n);
      if |chunks| <= 1 {
        break;
      }
      FirstChunkIsPrefix(cost, kept, n);
      var dropped := chunks[0];
      TokensAppend(cost, ms[..droppedMessages], dropped);
      assert ms[..droppedMessages + |dropped|] == ms[..droppedMessages] + dropped;
      kept := Flatten(chunks[1..]);
      assert kept == ms[droppedMessages..][|dropped|..];
      droppedChunks := droppedChunks + 1;
      droppedMessages := droppedMessages + |dropped|;
      droppedTokens := droppedTokens + Tokens(cost, dropped);
    }
    stats := Stats(droppedChunks, droppedMessages, droppedTokens, Tokens(cost, kept), budget, None);
  }

  /** What is left stays over budget only because its one message, the newest, is. */
  lemma {:induction false} PruneStopsAtOneMessage(cost: CostModel, ms: seq<Message>, budget: int, parts: int)
    requires Reasonable(cost) && ms != [] && (parts >= 2 || |ms| == 1)
    ensures var kept := ms[DroppedFrom(cost, ms, budget, parts)..];
      && (Tokens(cost, kept) <= budget || kept == [ms[|ms| - 1]])
      && (Tokens(cost, kept) > budget <==> cost(ms[|ms| - 1]) > budget)
    decreases |ms|
  {
    TokensOfOneMore(cost, ms[..|ms| - 1], ms[|ms| - 1]);
    assert ms == ms[..|ms| - 1] + [ms[|ms| - 1]];
    var chunks := Split(cost, ms, parts);
    if Tokens(cost, ms) > budget {
      if |chunks| > 1 {
        FirstChunkIsPrefix(cost, ms, parts);
        var rest := ms[|chunks[0]|..];
        PruneStopsAtOneMessage(cost, rest, budget, parts);
        assert rest[DroppedFrom(cost, rest, budget, parts)..] == ms[DroppedFrom(cost, ms, budget, parts)..];
      } else {
        SplitIsGreedy(cost, ms, parts);
        assert |ms| == 1;
      }
    }
  }

  /** The last chunk dropped had to go: it was the first share of a suffix that was over budget. */
  lemma {:induction false} PruneDropsOnlyWhenOver(cost: CostModel, ms: seq<Message>, budget: int, parts: int)
      returns (before: nat)
    requires DroppedFrom(cost, ms, budget, parts) > 0
    ensures var dropped := DroppedFrom(cost, ms, budget, parts);
      && before < dropped && Tokens(cost, ms[before..]) > budget
      && |Split(cost, ms[before..], parts)| > 1
      && ms[before..dropped] == Split(cost, ms[before..], parts)[0]
    decreases |ms|
  {
    var chunks := Split(cost, ms, parts);
    FirstChunkIsPrefix(cost, ms, parts);
    var first := |chunks[0]|;
    var rest := ms[first..];
    if DroppedFrom(cost, rest, budget, parts) == 0 {
      assert ms[0..] == ms;
      before := 0;
    } else {
      var later := PruneDropsOnlyWhenOver(cost, rest, budget, parts);
      before := first + later;
      assert ms[before..] == rest[later..];
      assert ms[before..DroppedFrom(cost, ms, budget, parts)] == rest[later..DroppedFrom(cost, rest, budget, parts)];
    }
  }

  /** With two or more parts, pruning ends within budget exactly when the newest message alone is; asked for fewer, it
      drops nothing. */
  lemma PruneFitsIffNewestFits(cost: CostModel, ms: seq<Message>, budget: int, parts: int)
    requires Reasonable(cost) && ms != []
    ensures var kept := ms[DroppedFrom(cost, ms, budget, NormalizeParts(EffectiveParts(parts), |ms|))..];
      if EffectiveParts(parts) >= 2 then
        && (Tokens(cost, kept) <= budget <==> cost(ms[|ms| - 1]) <= budget)
        && (Tokens(cost, kept) > budget ==> kept == [ms[|ms| - 1]])
      else kept == ms
  {
    if EffectiveParts(parts) >= 2 {
      PruneStopsAtOneMessage(cost, ms, budget, NormalizeParts(EffectiveParts(parts), |ms|));
    }
  }

  // Compaction

  /** Where `ms[-count..]` starts, and `ms[..-count]` ends, for any integer count. */
  function CutBefore(count: int, length: nat): (cut: nat)
    ensures cut <= length
  {
    if count > length then 0
    else if count > 0 then length - count
    else if -count < length then -count
    else length
  }

  function SummaryMessage(summary: string): Message {
    Message(SYSTEM, SUMMARY_HEADING + summary, [], "")
  }

  function PrunedTo(cost: CostModel, ms: seq<Message>, maxTokens: int): seq<Message> {
    ms[DroppedFrom(cost, ms, Budget(maxTokens, HISTORY_SHARE), NormalizeParts(DEFAULT_PARTS, |ms|))..]
  }

  /** The shortened histories: a repaired suffix, or a summary with the newest message. */
  predicate IsCompacted(cost: CostModel, summarize: seq<Message> -> string, ms: seq<Message>, maxTokens: int,
                        recentCount: int, result: seq<Message>)
    requires ms != []
  {
    var repaired := Fixed(PrunedTo(cost, ms, maxTokens));
    if Tokens(cost, repaired) <= maxTokens / 2 then result == repaired
    else
      && PrunedTo(cost, ms, maxTokens) == [ms[|ms| - 1]]
      && result == if recentCount >= 0 then [SummaryMessage(summarize([]))] + repaired
                   else [SummaryMessage(summarize(repaired))]
  }

  /** A repaired history in front of which a system message is put needs no further repair. */
  lemma FixedBehindSummary(summary: string, ms: seq<Message>)
    ensures Fixed([SummaryMessage(summary)] + Fixed(ms)) == [SummaryMessage(summary)] + Fixed(ms)
  {
    var head := SummaryMessage(summary);
    var all := [head] + Fixed(ms);
    assert all[1..] == Fixed(ms);
    assert CallIds(all) == CallIds(Fixed(ms)) && ResponseIds(all) == ResponseIds(Fixed(ms));
    FixedIsIdempotent(ms);
  }

  lemma FixedSummaryAlone(summary: string)
    ensures Fixed([SummaryMessage(summary)]) == [SummaryMessage(summary)]
  {
    FixedBehindSummary(summary, []);
    assert [SummaryMessage(summary)] + [] == [SummaryMessage(summary)];
  }

  lemma {:induction false} RepairAddsNoMessage(ms: seq<Message>, calls: set<string>, responses: set<string>)
    ensures |RepairedWith(ms, calls, responses)| <= |ms|
  {
    if ms != [] {
      RepairAddsNoMessage(ms[1..], calls, responses);
    }
  }

  lemma HalfBudget(maxTokens: int)
    ensures Budget(maxTokens, HISTORY_SHARE) == if maxTokens < 2 then 1 else maxTokens / 2
  {
    var half := maxTokens as real * 0.5;
    assert half < half.Floor as real + 1.0;
    assert maxTokens - 2 * half.Floor == 0 || maxTokens - 2 * half.Floor == 1;
  }

  /** A repaired history over half the limit is one message at most: the summary is asked for only then. */
  lemma OverHalfIsOneMessage(cost: CostModel, ms: seq<Message>, maxTokens: int)
    requires Reasonable(cost) && ms != []
    requires Tokens(cost, Fixed(PrunedTo(cost, ms, maxTokens))) > maxTokens / 2
    ensures PrunedTo(cost, ms, maxTokens) == [ms[|ms| - 1]]
    ensures |Fixed(PrunedTo(cost, ms, maxTokens))| <= 1
    ensures maxTokens >= 0 ==> cost(ms[|ms| - 1]) > maxTokens / 2
  {
    var kept := PrunedTo(cost, ms, maxTokens);
    HalfBudget(maxTokens);
    PruneStopsAtOneMessage(cost, ms, Budget(maxTokens, HISTORY_SHARE), NormalizeParts(DEFAULT_PARTS, |ms|));
    RepairCostsNoMore(cost, kept, CallIds(kept), ResponseIds(kept));
    RepairAddsNoMessage(kept, CallIds(kept), ResponseIds(kept));
    TokensAtLeast(cost, kept);
    assert kept != [] && kept[|kept| - 1] == ms[|ms| - 1];
    assert |kept| == 1;
    assert Tokens(cost, [ms[|ms| - 1]]) == cost(ms[|ms| - 1]) + Tokens(cost, []);
  }

  /** What compaction makes of a repaired history that is still too long. */
  method Summarize(summarize: seq<Message> -> string, repaired: seq<Message>, recentCount: int)
    returns (result: seq<Message>, summary: string)
    ensures summary == summarize(repaired[..CutBefore(recentCount, |repaired|)])
    ensures result == Fixed([SummaryMessage(summary)] + repaired[CutBefore(recentCount, |repaired|)..])
  {
    var cut := CutBefore(recentCount, |repaired|);
    var recent, earlier := repaired[cut..], repaired[..cut];
    summary := summarize(earlier);
    result := FixToolCallConsistency([SummaryMessage(summary)] + recent);
  }

  /** With at most one message left, the summary is of no message, and that message stays, unless the count of recent
      messages is negative; then it is the other way round. */
  lemma SummaryOfOneMessage(summary: string, kept: seq<Message>, recentCount: int)
    requires |Fixed(kept)| <= 1
    ensures var cut := CutBefore(recentCount, |Fixed(kept)|);
      && Fixed(kept)[..cut] == (if recentCount >= 0 then [] else Fixed(kept))
      && Fixed([SummaryMessage(summary)] + Fixed(kept)[cut..]) ==
           (if recentCount >= 0 then [SummaryMessage(summary)] + Fixed(kept) else [SummaryMessage(summary)])
  {
    var cut := CutBefore(recentCount, |Fixed(kept)|);
    if recentCount >= 0 {
      assert Fixed(kept)[cut..] == Fixed(kept);
      FixedBehindSummary(summary, kept);
    } else {
      assert [SummaryMessage(summary)] + Fixed(kept)[cut..] == [SummaryMessage(summary)];
      FixedSummaryAlone(summary);
    }
  }

  /** What is left of the messages that were not dropped: their repair, or a summary with or, for a negative count of
      recent messages, without the repair of the only one. */
  ghost predicate KeepsSuffix(suffix: seq<Message>, recentCount: int, result: seq<Message>) {
    || IsRepairOf(suffix, result)
    || (&& |suffix| == 1 && result != []
        && result[0].role == "system" && SUMMARY_HEADING <= result[0].content
        && if recentCount >= 0 then IsRepairOf(suffix, result[1..]) else |result| == 1)
  }

  lemma CompactedKeepsSuffix(cost: CostModel, summarize: seq<Message> -> string, ms: seq<Message>, maxTokens: int,
                             recentCount: int, result: seq<Message>)
    requires ms != [] && IsCompacted(cost, summarize, ms, maxTokens, recentCount, result)
    ensures KeepsSuffix(PrunedTo(cost, ms, maxTokens), recentCount, result)
  {
    var kept := PrunedTo(cost, ms, maxTokens);
    FixedIsRepair(kept);
    if Tokens(cost, Fixed(kept)) > maxTokens / 2 && recentCount >= 0 {
      assert result[1..] == Fixed(kept);
    }
  }

  /** What compaction makes of the messages that pruning left. */
  method Shorten(cost: CostModel, summarize: seq<Message> -> string, ms: seq<Message>, pruned: seq<Message>,
                 maxTokens: int, recentCount: int)
    returns (result: seq<Message>, summary: Option<string>)
    requires Reasonable(cost) && ms != [] && pruned == PrunedTo(cost, ms, maxTokens)
    ensures CallIds(result) == ResponseIds(result)
    ensures IsCompacted(cost, summarize, ms, maxTokens, recentCount, result)
    ensures KeepsSuffix(pruned, recentCount, result)
  {
    var historyBudget := maxTokens / 2;
    FixedIsPaired(pruned);
    summary := None;
    result := FixToolCallConsistency(pruned);
    if Tokens(cost, result) > historyBudget {
      OverHalfIsOneMessage(cost, ms, maxTokens);
      ghost var repaired := result;
      var text: string;
      result, text := Summarize(summarize, result, recentCount);
      SummaryOfOneMessage(text, pruned, recentCount);
      FixedIsPaired([SummaryMessage(text)] + repaired[CutBefore(recentCount, |repaired|)..]);
      summary := Some(text);
    }
    CompactedKeepsSuffix(cost, summarize, ms, maxTokens, recentCount, result);
  }

  /** The result is one of three: the history itself when it fits; else the repair of a pruned suffix, when that costs
      at most half the limit; else a summary message with the one oversized message. In this last case the text
      summarised is that of no message at all, unless `recentCount` is negative. */
  method CompactMessages(cost: CostModel, summarize: seq<Message> -> string, ms: seq<Message>, maxTokens: int,
                         recentCount: int)
    returns (result: seq<Message>, stats: Stats)
    requires Reasonable(cost)
    ensures ms == [] ==> result == [] && stats == NOTHING_DONE
    ensures ms != [] && Tokens(cost, ms) <= maxTokens ==> result == ms && stats.keptTokens == Tokens(cost, ms)
    ensures ms != [] && Tokens(cost, ms) > maxTokens ==>
      && CallIds(result) == ResponseIds(result)
      && stats.droppedTokens + stats.keptTokens == Tokens(cost, ms)
      && IsCompacted(cost, summarize, ms, maxTokens, recentCount, result)
      && stats.droppedMessages < |ms| && KeepsSuffix(ms[stats.droppedMessages..], recentCount, result)
  {
    if ms == [] {
      return [], NOTHING_DONE;
    }
    var currentTokens := Tokens(cost, ms);
    if currentTokens <= maxTokens {
      return ms, NOTHING_DONE.(keptTokens := currentTokens, budgetTokens := maxTokens,
                               summary := Some("No compaction needed"));
    }
    var pruned: seq<Message>;
    pruned, stats := PruneHistory(cost, ms, maxTokens, HISTORY_SHARE, 0);
    assert ms == ms[..stats.droppedMessages] + pruned;
    TokensAppend(cost, ms[..stats.droppedMessages], pruned);
    var summary;
    result, summary := Shorten(cost, summarize, ms, pruned, maxTokens, recentCount);
    stats := stats.(summary := summary);
  }
}
