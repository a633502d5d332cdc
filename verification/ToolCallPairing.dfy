/**
Repairing a pruned history: tool calls without a response and tool responses without a call go.
*/
module ToolCallPairing {
  import opened Compaction

  const ASSISTANT := "assistant"
  const TOOL := "tool"

  predicate Calls(m: Message) {
    m.role == ASSISTANT && m.toolCalls != []
  }

  function IdsOf(calls: seq<ToolCall>): set<string> {
    if calls == [] then {} else {calls[0].id} + IdsOf(calls[1..])
  }

  function OwnCallIds(m: Message): set<string> {
    if m.role == ASSISTANT then IdsOf(m.toolCalls) - {""} else {}
  }

  function OwnResponseIds(m: Message): set<string> {
    if m.role == TOOL && m.toolUseId != "" then {m.toolUseId} else {}
  }

  /** The ids of all tool calls. */
  function CallIds(ms: seq<Message>): set<string> {
    if ms == [] then {} else OwnCallIds(ms[0]) + CallIds(ms[1..])
  }

  /** The ids of all tool responses. */
  function ResponseIds(ms: seq<Message>): set<string> {
    if ms == [] then {} else OwnResponseIds(ms[0]) + ResponseIds(ms[1..])
  }

  function Answered(calls: seq<ToolCall>, responses: set<string>): seq<ToolCall> {
    if calls == [] then []
    else (if calls[0].id in responses then [calls[0]] else []) + Answered(calls[1..], responses)
  }

  /** What becomes of one message: it goes, or it stays with its answered calls. */
  function Repaired(m: Message, calls: set<string>, responses: set<string>): seq<Message> {
    if Calls(m) then [m.(toolCalls := Answered(m.toolCalls, responses))]
    else if m.role == TOOL && m.toolUseId !in calls then []
    else [m]
  }

  function RepairedWith(ms: seq<Message>, calls: set<string>, responses: set<string>): seq<Message> {
    if ms == [] then [] else Repaired(ms[0], calls, responses) + RepairedWith(ms[1..], calls, responses)
  }

  function Fixed(ms: seq<Message>): seq<Message> {
    RepairedWith(ms, CallIds(ms), ResponseIds(ms))
  }

  lemma {:induction false} RepairedWithAppend(a: seq<Message>, b: seq<Message>, calls: set<string>,
                                              responses: set<string>)
    ensures RepairedWith(a + b, calls, responses) ==
            RepairedWith(a, calls, responses) + RepairedWith(b, calls, responses)
  {
    if a == [] {
      assert a + b == b;
    } else {
      assert (a + b)[1..] == a[1..] + b;
      RepairedWithAppend(a[1..], b, calls, responses);
    }
  }

  method FilterCalls(calls: seq<ToolCall>, responses: set<string>) returns (valid: seq<ToolCall>)
    ensures valid == Answered(calls, responses)
  {
    valid := [];
    var i := |calls|;
    while i > 0
      invariant 0 <= i <= |calls|
      invariant valid == Answered(calls[i..], responses)
    {
      i := i - 1;
      assert calls[i..][1..] == calls[i + 1..];
      if calls[i].id in responses {
        valid := [calls[i]] + valid;
      }
    }
  }

  method CollectIds(calls: seq<ToolCall>) returns (ids: set<string>)
    ensures ids == IdsOf(calls) - {""}
  {
    ids := {};
    var i := |calls|;
    while i > 0
      invariant 0 <= i <= |calls|
      invariant ids == IdsOf(calls[i..]) - {""}
    {
      i := i - 1;
      assert calls[i..][1..] == calls[i + 1..];
      if calls[i].id != "" {
        ids := ids + {calls[i].id};
      }
    }
  }

  method CollectCallIds(ms: seq<Message>) returns (calls: set<string>)
    ensures calls == CallIds(ms)
  {
    calls := {};
    var i := 0;
    while i < |ms|
      invariant 0 <= i <= |ms| && calls == CallIds(ms[..i])
    {
      assert ms[..i + 1] == ms[..i] + [ms[i]];
      IdsOfConcat(ms[..i], [ms[i]]);
      if Calls(ms[i]) {
        var ids := CollectIds(ms[i].toolCalls);
        calls := calls + ids;
      }
      i := i + 1;
    }
    assert ms[..|ms|] == ms;
  }

  method CollectResponseIds(ms: seq<Message>) returns (responses: set<string>)
    ensures responses == ResponseIds(ms)
  {
    responses := {};
    var i := 0;
    while i < |ms|
      invariant 0 <= i <= |ms| && responses == ResponseIds(ms[..i])
    {
      assert ms[..i + 1] == ms[..i] + [ms[i]];
      IdsOfConcat(ms[..i], [ms[i]]);
      if ms[i].role == TOOL && ms[i].toolUseId != "" {
        responses := responses + {ms[i].toolUseId};
      }
      i := i + 1;
    }
    assert ms[..|ms|] == ms;
  }

  method FixToolCallConsistency(ms: seq<Message>) returns (fixed: seq<Message>)
    ensures fixed == Fixed(ms)
  {
    if ms == [] {
      return [];
    }
    var calls := CollectCallIds(ms);
    var responses := CollectResponseIds(ms);
    fixed := [];
    var i := 0;
    while i < |ms|
      invariant 0 <= i <= |ms| && fixed == RepairedWith(ms[..i], calls, responses)
    {
      assert ms[..i + 1] == ms[..i] + [ms[i]];
      RepairedWithAppend(ms[..i], [ms[i]], calls, responses);
      assert RepairedWith([ms[i]], calls, responses) == Repaired(ms[i], calls, responses);
      if Calls(ms[i]) {
        var valid := FilterCalls(ms[i].toolCalls, responses);
        fixed := fixed + [ms[i].(toolCalls := valid)];
      } else if ms[i].role == TOOL {
        if ms[i].toolUseId in calls {
          fixed := fixed + [ms[i]];
        }
      } else {
        fixed := fixed + [ms[i]];
      }
      i := i + 1;
    }
    assert ms[..|ms|] == ms;
  }

  // Pairing

  lemma {:induction false} IdsOfConcat(a: seq<Message>, b: seq<Message>)
    ensures CallIds(a + b) == CallIds(a) + CallIds(b)
    ensures ResponseIds(a + b) == ResponseIds(a) + ResponseIds(b)
  {
    if a == [] {
      assert a + b == b;
    } else {
      assert (a + b)[1..] == a[1..] + b;
      IdsOfConcat(a[1..], b);
    }
  }

  lemma {:induction false} AnsweredIds(calls: seq<ToolCall>, responses: set<string>)
    ensures IdsOf(Answered(calls, responses)) == IdsOf(calls) * responses
  {
    if calls != [] {
      var rest := Answered(calls[1..], responses);
      AnsweredIds(calls[1..], responses);
      assert ([calls[0]] + rest)[1..] == rest && [] + rest == rest;
    }
  }

  lemma IdsOfRepaired(m: Message, calls: set<string>, responses: set<string>)
    ensures CallIds(Repaired(m, calls, responses)) == OwnCallIds(m) * responses
    ensures ResponseIds(Repaired(m, calls, responses)) == OwnResponseIds(m) * calls
  {
    AnsweredIds(m.toolCalls, responses);
  }

  lemma {:induction false} IdsOfRepairedWith(ms: seq<Message>, calls: set<string>, responses: set<string>)
    ensures CallIds(RepairedWith(ms, calls, responses)) == CallIds(ms) * responses
    ensures ResponseIds(RepairedWith(ms, calls, responses)) == ResponseIds(ms) * calls
  {
    if ms != [] {
      IdsOfRepaired(ms[0], calls, responses);
      IdsOfRepairedWith(ms[1..], calls, responses);
      IdsOfConcat(Repaired(ms[0], calls, responses), RepairedWith(ms[1..], calls, responses));
    }
  }

  /** After the repair, calls and responses match exactly: what is left is what had both before. */
  lemma FixedIsPaired(ms: seq<Message>)
    ensures CallIds(Fixed(ms)) == ResponseIds(Fixed(ms)) == CallIds(ms) * ResponseIds(ms)
  {
    IdsOfRepairedWith(ms, CallIds(ms), ResponseIds(ms));
  }

  /** Filtering by a smaller set that still holds every id the larger one let through. */
  lemma {:induction false} AnsweredTwice(calls: seq<ToolCall>, responses: set<string>, fewer: set<string>)
    requires IdsOf(calls) * responses <= fewer
    ensures Answered(Answered(calls, responses), fewer) == Answered(calls, responses)
  {
    if calls != [] {
      AnsweredTwice(calls[1..], responses, fewer);
      var rest := Answered(calls[1..], responses);
      assert ([calls[0]] + rest)[1..] == rest && [] + rest == rest;
    }
  }

  lemma RepairedOneTwice(m: Message, calls: set<string>, responses: set<string>, both: set<string>)
    requires both == calls * responses && OwnCallIds(m) <= calls && OwnResponseIds(m) <= responses
    requires "" !in calls && "" !in responses
    ensures RepairedWith(Repaired(m, calls, responses), both, both) == Repaired(m, calls, responses)
  {
    var one := Repaired(m, calls, responses);
    if one != [] {
      assert one == [one[0]];
      assert RepairedWith(one, both, both) == Repaired(one[0], both, both);
    }
    if Calls(m) {
      assert IdsOf(m.toolCalls) * responses <= both;
      AnsweredTwice(m.toolCalls, responses, both);
    }
  }

  lemma {:induction false} RepairedTwice(ms: seq<Message>, calls: set<string>, responses: set<string>,
                                         both: set<string>)
    requires both == calls * responses && CallIds(ms) <= calls && ResponseIds(ms) <= responses
    requires "" !in calls && "" !in responses
    ensures RepairedWith(RepairedWith(ms, calls, responses), both, both) == RepairedWith(ms, calls, responses)
  {
    if ms != [] {
      RepairedOneTwice(ms[0], calls, responses, both);
      RepairedTwice(ms[1..], calls, responses, both);
      RepairedWithAppend(Repaired(ms[0], calls, responses), RepairedWith(ms[1..], calls, responses), both, both);
    }
  }

  lemma {:induction false} NoEmptyIds(ms: seq<Message>)
    ensures "" !in CallIds(ms) && "" !in ResponseIds(ms)
  {
    if ms != [] {
      NoEmptyIds(ms[1..]);
    }
  }

  /** Repairing again changes nothing. */
  lemma FixedIsIdempotent(ms: seq<Message>)
    ensures Fixed(Fixed(ms)) == Fixed(ms)
  {
    FixedIsPaired(ms);
    NoEmptyIds(ms);
    RepairedTwice(ms, CallIds(ms), ResponseIds(ms), CallIds(ms) * ResponseIds(ms));
  }

  // What a repair costs and keeps

  lemma {:induction false} AnsweredPrintsNoLonger(calls: seq<ToolCall>, responses: set<string>)
    ensures PrintedLength(Answered(calls, responses)) <= PrintedLength(calls)
  {
    if calls != [] {
      AnsweredPrintsNoLonger(calls[1..], responses);
      var rest := Answered(calls[1..], responses);
      assert ([calls[0]] + rest)[1..] == rest;
      assert [] + rest == rest;
    }
  }

  /** A repair never makes a history dearer. */
  lemma {:induction false} RepairCostsNoMore(cost: CostModel, ms: seq<Message>, calls: set<string>,
                                             responses: set<string>)
    requires Reasonable(cost)
    ensures Tokens(cost, RepairedWith(ms, calls, responses)) <= Tokens(cost, ms)
  {
    if ms != [] {
      var m := ms[0];
      var one := Repaired(m, calls, responses);
      RepairCostsNoMore(cost, ms[1..], calls, responses);
      TokensAppend(cost, one, RepairedWith(ms[1..], calls, responses));
      if Calls(m) {
        AnsweredPrintsNoLonger(m.toolCalls, responses);
        assert FewerCalls(one[0], m);
      }
      if one != [] {
        assert Tokens(cost, one) == cost(one[0]) + Tokens(cost, []);
      }
    }
  }
}
