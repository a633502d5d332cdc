/**
What the repair of a history keeps, told by positions: which messages and which tool calls stay, in
which order, and that nothing else about them changes.
*/
module RepairedHistory {
  import opened Compaction
  import opened Selections
  import opened Sequences
  import opened ToolCallPairing

  /** The ids, of those that are not empty, under which an assistant message calls a tool. */
  function AskedIds(ms: seq<Message>): set<string> {
    set i, j |
      0 <= i < |ms| && ms[i].role == "assistant" && 0 <= j < |ms[i].toolCalls| && ms[i].toolCalls[j].id != "" ::
      ms[i].toolCalls[j].id
  }

  /** The ids, of those that are not empty, to which a tool message replies. */
  function RepliedIds(ms: seq<Message>): set<string> {
    set i | 0 <= i < |ms| && ms[i].role == "tool" && ms[i].toolUseId != "" :: ms[i].toolUseId
  }

  lemma {:induction false} IdsOfIff(calls: seq<ToolCall>, id: string)
    ensures id in IdsOf(calls) <==> exists j :: 0 <= j < |calls| && calls[j].id == id
  {
    if calls != [] {
      IdsOfIff(calls[1..], id);
      if j :| 0 <= j < |calls| && calls[j].id == id {
        assert j > 0 ==> calls[1..][j - 1].id == id;
      }
      if j :| 0 <= j < |calls[1..]| && calls[1..][j].id == id {
        assert calls[j + 1].id == id;
      }
    }
  }

  lemma {:induction false} CallIdsAreAsked(ms: seq<Message>)
    ensures CallIds(ms) == AskedIds(ms)
  {
    if ms != [] {
      var most, last := ms[..|ms| - 1], ms[|ms| - 1];
      assert ms == most + [last];
      IdsOfConcat(most, [last]);
      CallIdsAreAsked(most);
      assert CallIds([last]) == OwnCallIds(last);
      forall id ensures id in AskedIds(ms) <==> id in AskedIds(most) || id in OwnCallIds(last) {
        IdsOfIff(last.toolCalls, id);
      }
    }
  }

  lemma {:induction false} ResponseIdsAreReplied(ms: seq<Message>)
    ensures ResponseIds(ms) == RepliedIds(ms)
  {
    if ms != [] {
      var most, last := ms[..|ms| - 1], ms[|ms| - 1];
      assert ms == most + [last];
      IdsOfConcat(most, [last]);
      ResponseIdsAreReplied(most);
      assert ResponseIds([last]) == OwnResponseIds(last);
    }
  }

  // Tool calls

  function AnsweredPositions(calls: seq<ToolCall>, n: nat, replied: set<string>): set<nat>
    requires n <= |calls|
  {
    set i: nat | 0 <= i < n && calls[i].id in replied
  }

  ghost predicate CallsStayAt(calls: seq<ToolCall>, n: nat, replied: set<string>, out: seq<ToolCall>, at: seq<nat>)
    requires n <= |calls|
  {
    && Lists(at, AnsweredPositions(calls, n, replied)) && |out| == |at|
    && forall k :: 0 <= k < |at| ==> at[k] < n && out[k] == calls[at[k]]
  }

  /** `out` are the calls that are answered, all of them, in their order. */
  ghost predicate KeepsAnswered(calls: seq<ToolCall>, replied: set<string>, out: seq<ToolCall>) {
    exists at :: CallsStayAt(calls, |calls|, replied, out, at)
  }

  lemma {:induction false} AnsweredAppend(a: seq<ToolCall>, b: seq<ToolCall>, replied: set<string>)
    ensures Answered(a + b, replied) == Answered(a, replied) + Answered(b, replied)
  {
    if a == [] {
      assert a + b == b;
    } else {
      assert (a + b)[1..] == a[1..] + b;
      AnsweredAppend(a[1..], b, replied);
      var first := if a[0].id in replied then [a[0]] else [];
      Regrouped(first, Answered(a[1..], replied), Answered(b, replied), Answered(a[1..] + b, replied),
                Answered(a + b, replied));
    }
  }

  lemma {:induction false} AnsweredStay(calls: seq<ToolCall>, n: nat, replied: set<string>) returns (at: seq<nat>)
    requires n <= |calls|
    ensures CallsStayAt(calls, n, replied, Answered(calls[..n], replied), at)
    decreases n
  {
    at := [];
    if n > 0 {
      var i := n - 1;
      at := AnsweredStay(calls, i, replied);
      assert calls[..n] == calls[..i] + [calls[i]];
      AnsweredAppend(calls[..i], [calls[i]], replied);
      var before, now := AnsweredPositions(calls, i, replied), AnsweredPositions(calls, n, replied);
      if calls[i].id in replied {
        ListsOneMore(at, before, i);
        assert now == before + {i};
        at := at + [i];
      } else {
        assert now == before;
      }
    }
  }

  // Messages

  /** Only the unanswered calls of an assistant message may be missing from `out`. */
  ghost predicate SameButUnanswered(m: Message, replied: set<string>, out: Message) {
    && out.role == m.role && out.content == m.content && out.toolUseId == m.toolUseId
    && if m.role == "assistant" then KeepsAnswered(m.toolCalls, replied, out.toolCalls)
       else out.toolCalls == m.toolCalls
  }

  /** The positions of the messages that stay: all but the tool responses to no call. */
  function StayingPositions(ms: seq<Message>, n: nat, asked: set<string>): set<nat>
    requires n <= |ms|
  {
    set i: nat | 0 <= i < n && (ms[i].role == "tool" ==> ms[i].toolUseId in asked)
  }

  ghost predicate MessagesStayAt(ms: seq<Message>, n: nat, asked: set<string>, replied: set<string>,
                                 out: seq<Message>, at: seq<nat>)
    requires n <= |ms|
  {
    && Lists(at, StayingPositions(ms, n, asked)) && |out| == |at|
    && forall k :: 0 <= k < |at| ==> at[k] < n && SameButUnanswered(ms[at[k]], replied, out[k])
  }

  /** `out` are the messages of `ms` but for the tool responses to no call, all of them, in their order, each as it was
      but for its unanswered calls. */
  ghost predicate IsRepairOf(ms: seq<Message>, out: seq<Message>) {
    exists at :: MessagesStayAt(ms, |ms|, AskedIds(ms), RepliedIds(ms), out, at)
  }

  lemma RepairedOneStays(m: Message, calls: set<string>, replied: set<string>)
    ensures if m.role == "tool" && m.toolUseId !in calls then Repaired(m, calls, replied) == []
            else |Repaired(m, calls, replied)| == 1 && SameButUnanswered(m, replied, Repaired(m, calls, replied)[0])
  {
    var at := AnsweredStay(m.toolCalls, |m.toolCalls|, replied);
    assert m.toolCalls[..|m.toolCalls|] == m.toolCalls;
    assert KeepsAnswered(m.toolCalls, replied, Answered(m.toolCalls, replied));
  }

  lemma {:induction false} RepairedStay(ms: seq<Message>, n: nat, asked: set<string>, replied: set<string>)
      returns (at: seq<nat>)
    requires n <= |ms|
    ensures MessagesStayAt(ms, n, asked, replied, RepairedWith(ms[..n], asked, replied), at)
    decreases n
  {
    at := [];
    if n > 0 {
      var i := n - 1;
      at := RepairedStay(ms, i, asked, replied);
      assert ms[..n] == ms[..i] + [ms[i]];
      RepairedWithAppend(ms[..i], [ms[i]], asked, replied);
      RepairedOneStays(ms[i], asked, replied);
      assert RepairedWith([ms[i]], asked, replied) == Repaired(ms[i], asked, replied);
      var before, now := StayingPositions(ms, i, asked), StayingPositions(ms, n, asked);
      if ms[i].role == "tool" && ms[i].toolUseId !in asked {
        assert now == before;
      } else {
        ListsOneMore(at, before, i);
        assert now == before + {i};
        at := at + [i];
      }
    }
  }

  /** The repair loses nothing but responses without a call and calls without a response. */
  lemma FixedIsRepair(ms: seq<Message>)
    ensures IsRepairOf(ms, Fixed(ms))
  {
    CallIdsAreAsked(ms);
    ResponseIdsAreReplied(ms);
    var at := RepairedStay(ms, |ms|, AskedIds(ms), RepliedIds(ms));
    assert ms[..|ms|] == ms;
  }

  lemma CallsAreUnique(calls: seq<ToolCall>, replied: set<string>, a: seq<ToolCall>, b: seq<ToolCall>)
    requires KeepsAnswered(calls, replied, a) && KeepsAnswered(calls, replied, b)
    ensures a == b
  {
    var j :| CallsStayAt(calls, |calls|, replied, a, j);
    var k :| CallsStayAt(calls, |calls|, replied, b, k);
    ListsIsUnique(j, k, AnsweredPositions(calls, |calls|, replied));
  }

  /** And this says all there is to say about it: a history has one repair. */
  lemma FixedIffRepair(ms: seq<Message>, out: seq<Message>)
    ensures IsRepairOf(ms, out) <==> out == Fixed(ms)
  {
    FixedIsRepair(ms);
    if IsRepairOf(ms, out) {
      var asked, replied := AskedIds(ms), RepliedIds(ms);
      var a :| MessagesStayAt(ms, |ms|, asked, replied, out, a);
      var b :| MessagesStayAt(ms, |ms|, asked, replied, Fixed(ms), b);
      ListsIsUnique(a, b, StayingPositions(ms, |ms|, asked));
      forall k | 0 <= k < |a| ensures out[k] == Fixed(ms)[k] {
        var m := ms[a[k]];
        if m.role == "assistant" {
          CallsAreUnique(m.toolCalls, replied, out[k].toolCalls, Fixed(ms)[k].toolCalls);
        }
      }
    }
  }
}
