/**
Which events reach a queue and a replay, by the fields of the events and the values of the filters as they
were given.
*/
module EventDelivery {
  import opened EventBus
  import opened Options
  import opened PythonText
  import opened Selections

  /** A filter that is not blank asks for an event that shows its value, spaces around it aside, under one of
      `names`. */
  predicate Shows(event: Event, filters: Filters, key: string, names: seq<string>) {
    key in filters && Stripped(filters[key]) != "" ==>
      exists name <- names :: name in event.data && Stripped(event.data[name]) == Stripped(filters[key])
  }

  /** The event shows what each of the six filters asks for; other filters ask for nothing. */
  predicate Passes(event: Event, filters: Filters) {
    && Shows(event, filters, "agent_id", ["agent_id"])
    && Shows(event, filters, "session_id", ["session_id"])
    && Shows(event, filters, "task_id", ["task_id", "current_task_id", "portal_task_id"])
    && Shows(event, filters, "group_id", ["group_id", "portal_group_id"])
    && Shows(event, filters, "coordination_run_id",
             ["coordination_run_id", "current_coordination_run_id", "portal_coordination_run_id"])
    && Shows(event, filters, "request_id", ["request_id", "execution_id"])
  }

  /** The names are those in which the value of the filter is looked for. */
  predicate AreCandidates(key: string, names: seq<string>) {
    key in CANDIDATES && (forall name <- names :: name in CANDIDATES[key]) && forall c <- CANDIDATES[key] :: c in names
  }

  predicate MatchesIfAsked(event: Event, normalized: Filters, key: string) {
    key in normalized ==> MatchesKey(event.data, key, normalized[key])
  }

  lemma ShowsIff(event: Event, filters: Filters, key: string, names: seq<string>)
    requires AreCandidates(key, names)
    ensures Shows(event, filters, key, names) <==> MatchesIfAsked(event, NormalizeFilters(filters), key)
  {
    var normalized := NormalizeFilters(filters);
    if key in normalized {
      if name :| name in names && name in event.data && Stripped(event.data[name]) == normalized[key] {
        assert name in CANDIDATES[key];
      }
      if c :| c in CANDIDATES[key] && c in event.data && Stripped(event.data[c]) == normalized[key] {
        assert c in names;
      }
    }
  }

  lemma CandidatesAre()
    ensures AreCandidates("agent_id", ["agent_id"])
    ensures AreCandidates("session_id", ["session_id"])
    ensures AreCandidates("task_id", ["task_id", "current_task_id", "portal_task_id"])
    ensures AreCandidates("group_id", ["group_id", "portal_group_id"])
    ensures AreCandidates("coordination_run_id",
                          ["coordination_run_id", "current_coordination_run_id", "portal_coordination_run_id"])
    ensures AreCandidates("request_id", ["request_id", "execution_id"])
    ensures CANDIDATES.Keys == {"agent_id", "session_id", "task_id", "group_id", "coordination_run_id", "request_id"}
  {
    var task := ["task_id", "current_task_id", "portal_task_id"];
    var group := ["group_id", "portal_group_id"];
    var run := ["coordination_run_id", "current_coordination_run_id", "portal_coordination_run_id"];
    var request := ["request_id", "execution_id"];
    assert task[0] in task && task[1] in task && task[2] in task;
    assert group[0] in group && group[1] in group;
    assert run[0] in run && run[1] in run && run[2] in run;
    assert request[0] in request && request[1] in request;
  }

  lemma MatchesByKey(event: Event, normalized: Filters)
    requires normalized.Keys <=
             {"agent_id", "session_id", "task_id", "group_id", "coordination_run_id", "request_id"}
    ensures Matches(event, normalized) <==>
            && MatchesIfAsked(event, normalized, "agent_id")
            && MatchesIfAsked(event, normalized, "session_id")
            && MatchesIfAsked(event, normalized, "task_id")
            && MatchesIfAsked(event, normalized, "group_id")
            && MatchesIfAsked(event, normalized, "coordination_run_id")
            && MatchesIfAsked(event, normalized, "request_id")
  {
  }

  /** An event matches the filters, once they are normalised, exactly if it passes them as they were given. */
  lemma MatchesIffPasses(event: Event, filters: Filters)
    ensures Matches(event, NormalizeFilters(filters)) <==> Passes(event, filters)
  {
    CandidatesAre();
    ShowsIff(event, filters, "agent_id", ["agent_id"]);
    ShowsIff(event, filters, "session_id", ["session_id"]);
    ShowsIff(event, filters, "task_id", ["task_id", "current_task_id", "portal_task_id"]);
    ShowsIff(event, filters, "group_id", ["group_id", "portal_group_id"]);
    ShowsIff(event, filters, "coordination_run_id",
             ["coordination_run_id", "current_coordination_run_id", "portal_coordination_run_id"]);
    ShowsIff(event, filters, "request_id", ["request_id", "execution_id"]);
    MatchesByKey(event, NormalizeFilters(filters));
  }

  // Delivery

  /** The listener is one of the queue, had joined by then, and its filters match. */
  predicate LetsThrough(r: Record, position: nat, event: Event, queue: Viewer) {
    r.listener.queue == queue && r.joined <= position && Matches(event, r.listener.filters)
  }

  /** The event was emitted when some listener of the queue let it through. */
  ghost predicate ComesThrough(records: seq<Record>, emitted: seq<Event>, queue: Viewer, event: Event) {
    exists r <- records, position :: 0 <= position < |emitted| && emitted[position] == event
      && LetsThrough(r, position, event, queue)
  }

  lemma {:induction false} CopiesComeThrough(records: seq<Record>, position: nat, event: Event, queue: Viewer, e: Event)
    ensures e in Copies(records, position, event, queue) <==>
            e == event && exists r <- records :: LetsThrough(r, position, event, queue)
  {
    if records != [] {
      var n := |records| - 1;
      CopiesComeThrough(records[..n], position, event, queue, e);
      assert records == records[..n] + [records[n]];
      assert forall r :: r in records <==> r in records[..n] || r == records[n];
      assert Copies(records, position, event, queue) == Copies(records[..n], position, event, queue) +
             if LetsThrough(records[n], position, event, queue) then [event] else [];
    }
  }

  lemma {:induction false} DueComesThrough(records: seq<Record>, emitted: seq<Event>, queue: Viewer, event: Event)
    requires event in Due(records, emitted, queue)
    ensures ComesThrough(records, emitted, queue, event)
  {
    var n := |emitted| - 1;
    if event in Due(records, emitted[..n], queue) {
      DueComesThrough(records, emitted[..n], queue, event);
      var r, position :| r in records && 0 <= position < n && emitted[..n][position] == event
        && LetsThrough(r, position, event, queue);
      assert emitted[position] == event;
    } else {
      CopiesComeThrough(records, n, emitted[n], queue, event);
      var r :| r in records && LetsThrough(r, n, event, queue);
      assert emitted[n] == event;
    }
  }

  lemma {:induction false} ThroughIsDue(records: seq<Record>, emitted: seq<Event>, queue: Viewer, r: Record,
                                        position: nat)
    requires r in records && position < |emitted| && LetsThrough(r, position, emitted[position], queue)
    ensures emitted[position] in Due(records, emitted, queue)
  {
    var n := |emitted| - 1;
    if position < n {
      ThroughIsDue(records, emitted[..n], queue, r, position);
    } else {
      CopiesComeThrough(records, n, emitted[n], queue, emitted[n]);
    }
  }

  /** A queue is due exactly the events that a listener of its own lets through. */
  lemma DueIff(records: seq<Record>, emitted: seq<Event>, queue: Viewer, event: Event)
    ensures event in Due(records, emitted, queue) <==> ComesThrough(records, emitted, queue, event)
  {
    if event in Due(records, emitted, queue) {
      DueComesThrough(records, emitted, queue, event);
    }
    if ComesThrough(records, emitted, queue, event) {
      var r, position :| r in records && 0 <= position < |emitted| && emitted[position] == event
        && LetsThrough(r, position, event, queue);
      ThroughIsDue(records, emitted, queue, r, position);
    }
  }

  /** All listeners of a queue were added with a filter for one session. */
  ghost predicate OnlySession(records: seq<Record>, queue: Viewer, session: string) {
    forall r <- records :: r.listener.queue == queue ==>
      exists filters: Filters :: r.listener.filters == NormalizeFilters(filters)
        && "session_id" in filters && Stripped(filters["session_id"]) == session
  }

  lemma PassesSession(event: Event, filters: Filters, session: string)
    requires session != "" && "session_id" in filters && Stripped(filters["session_id"]) == session
    requires Matches(event, NormalizeFilters(filters))
    ensures "session_id" in event.data && Stripped(event.data["session_id"]) == session
  {
    MatchesIffPasses(event, filters);
    assert Shows(event, filters, "session_id", ["session_id"]);
  }

  lemma DueShowsSession(records: seq<Record>, emitted: seq<Event>, queue: Viewer, session: string, event: Event)
    requires session != "" && OnlySession(records, queue, session) && event in Due(records, emitted, queue)
    ensures "session_id" in event.data && Stripped(event.data["session_id"]) == session
  {
    DueComesThrough(records, emitted, queue, event);
    var r, position :| r in records && 0 <= position < |emitted| && emitted[position] == event
      && LetsThrough(r, position, event, queue);
    var filters: Filters :| r.listener.filters == NormalizeFilters(filters)
      && "session_id" in filters && Stripped(filters["session_id"]) == session;
    PassesSession(event, filters, session);
  }

  /** Whatever is emitted, a queue filtered by session is offered no event of another session, and none without one. */
  lemma OtherSessionsStayOut(bus: EventBus, queue: Viewer, session: string)
    requires bus.Valid() && queue in bus.Queues() && session != "" && OnlySession(bus.records, queue, session)
    ensures bus.earlier[queue] <= |queue.offered|
    ensures forall event <- queue.offered[bus.earlier[queue]..] ::
              "session_id" in event.data && Stripped(event.data["session_id"]) == session
  {
    assert bus.OfferedOnly(queue, Due(bus.records, bus.emitted, queue));
    forall event <- Due(bus.records, bus.emitted, queue)
      ensures "session_id" in event.data && Stripped(event.data["session_id"]) == session
    {
      DueShowsSession(bus.records, bus.emitted, queue, session, event);
    }
  }

  // Order

  /** `part` are the events of `all` at the positions `at`, which are those that `keep` says, in order. */
  ghost predicate AreAt(part: seq<Event>, all: seq<Event>, at: seq<nat>, keep: set<nat>) {
    && |part| == |at| && Lists(at, keep)
    && forall k :: 0 <= k < |part| ==> at[k] < |all| && part[k] == all[at[k]]
  }

  lemma AreAtOneMore(part: seq<Event>, all: seq<Event>, n: nat, at: seq<nat>, keep: set<nat>)
    requires n < |all| && AreAt(part, all[..n], at, keep) && forall i :: i in keep ==> i < n
    ensures AreAt(part, all[..n + 1], at, keep)
    ensures AreAt(part + [all[n]], all[..n + 1], at + [n], keep + {n})
  {
    assert forall k :: 0 <= k < n ==> all[..n][k] == all[..n + 1][k];
    ListsOneMore(at, keep, n);
  }

  function PassingBelow(events: seq<Event>, n: nat, filters: Filters): set<nat>
    requires n <= |events|
  {
    set i: nat | i < n && Passes(events[i], filters)
  }

  lemma PassingOneMore(events: seq<Event>, n: nat, filters: Filters)
    requires n < |events|
    ensures PassingBelow(events, n + 1, filters) ==
            PassingBelow(events, n, filters) + if Passes(events[n], filters) then {n} else {}
  {
  }

  lemma {:induction false} MatchingAt(events: seq<Event>, n: nat, filters: Filters) returns (at: seq<nat>)
    requires n <= |events|
    ensures AreAt(Matching(events[..n], NormalizeFilters(filters)), events[..n], at, PassingBelow(events, n, filters))
  {
    at := [];
    if n > 0 {
      var m := n - 1;
      at := MatchingAt(events, m, filters);
      var before := Matching(events[..m], NormalizeFilters(filters));
      MatchesIffPasses(events[m], filters);
      PassingOneMore(events, m, filters);
      AreAtOneMore(before, events, m, at, PassingBelow(events, m, filters));
      assert events[..n] == events[..m] + [events[m]];
      MatchingOneMore(events[..m], events[m], NormalizeFilters(filters));
      if Passes(events[m], filters) {
        at := at + [m];
      } else {
        assert before + [] == before;
      }
    }
  }

  /** What a listener is owed are the events that its filters, as they were given, let through, each at its place. */
  lemma MatchingIsExact(events: seq<Event>, filters: Filters) returns (at: seq<nat>)
    ensures AreAt(Matching(events, NormalizeFilters(filters)), events, at,
                  set i: nat | i < |events| && Passes(events[i], filters))
  {
    at := MatchingAt(events, |events|, filters);
    assert events[..|events|] == events;
  }

  // Replay

  /** Up to `k` the texts are the same, and there `a` ends or has the smaller character. */
  predicate PartsAt(a: string, b: string, k: nat) {
    k <= |a| && k < |b| && a[..k] == b[..k] && (k == |a| || a[k] < b[k])
  }

  /** `a` comes before `b` in the dictionary. */
  predicate Precedes(a: string, b: string) {
    exists k :: 0 <= k <= |a| && PartsAt(a, b, k)
  }

  lemma SameHead(a: string, b: string, k: nat)
    requires 0 < k <= |a| && k <= |b| && a[..k] == b[..k]
    ensures a[0] == b[0]
  {
    assert a[..k][0] == a[0] && b[..k][0] == b[0];
  }

  lemma {:induction false} LessIff(a: string, b: string)
    ensures Less(a, b) <==> Precedes(a, b)
  {
    forall k: nat | 0 < k <= |a| && k < |b| && a[..k] == b[..k] ensures a[0] == b[0] {
      SameHead(a, b, k);
    }
    if b != [] && (a == [] || a[0] < b[0]) {
      assert a[..0] == b[..0];
      assert PartsAt(a, b, 0);
    } else if a != [] && b != [] && a[0] == b[0] {
      LessIff(a[1..], b[1..]);
      if k: nat :| 0 <= k <= |a| && PartsAt(a, b, k) {
        PartsBehind(a, b, k);
      }
      if k: nat :| 0 <= k <= |a[1..]| && PartsAt(a[1..], b[1..], k) {
        assert a[..k + 1] == [a[0]] + a[1..][..k] == b[..k + 1];
        assert PartsAt(a, b, k + 1);
      }
    }
  }

  lemma PartsBehind(a: string, b: string, k: nat)
    requires a != [] && b != [] && a[0] == b[0] && PartsAt(a, b, k)
    ensures k > 0 && PartsAt(a[1..], b[1..], k - 1)
  {
    assert k > 0;
    assert a[1..][..k - 1] == a[..k][1..] && b[1..][..k - 1] == b[..k][1..];
  }

  /** What a marker lets through: an event with a later time, or one whose time stamp, if it has one, is later. */
  predicate IsLater(event: Event, marker: Marker) {
    match marker
    case Anywhere => true
    case AfterTime(seconds) => event.ts > seconds
    case AfterText(stamp) => event.createdAt == "" || Precedes(stamp, event.createdAt)
  }

  function LaterBelow(events: seq<Event>, n: nat, filters: Filters, marker: Marker): set<nat>
    requires n <= |events|
  {
    set i: nat | i < n && Passes(events[i], filters) && IsLater(events[i], marker)
  }

  lemma LaterOneMore(events: seq<Event>, n: nat, filters: Filters, marker: Marker)
    requires n < |events|
    ensures LaterBelow(events, n + 1, filters, marker) ==
            LaterBelow(events, n, filters, marker)
            + if Passes(events[n], filters) && IsLater(events[n], marker) then {n} else {}
  {
  }

  lemma IsAfterIff(event: Event, marker: Marker)
    ensures IsAfter(event, marker) <==> IsLater(event, marker)
  {
    if marker.AfterText? {
      LessIff(marker.stamp, event.createdAt);
    }
  }

  lemma ReplayableOneMore(events: seq<Event>, n: nat, filters: Filters, marker: Marker)
    requires n < |events|
    ensures Replayable(events[..n + 1], NormalizeFilters(filters), marker) ==
            Replayable(events[..n], NormalizeFilters(filters), marker)
            + if Passes(events[n], filters) && IsLater(events[n], marker) then [events[n]] else []
  {
    MatchesIffPasses(events[n], filters);
    IsAfterIff(events[n], marker);
    assert events[..n + 1][..n] == events[..n];
  }

  lemma {:induction false} ReplayableAt(events: seq<Event>, n: nat, filters: Filters, marker: Marker)
      returns (at: seq<nat>)
    requires n <= |events|
    ensures AreAt(Replayable(events[..n], NormalizeFilters(filters), marker), events[..n], at,
                  LaterBelow(events, n, filters, marker))
  {
    at := [];
    if n > 0 {
      var m := n - 1;
      at := ReplayableAt(events, m, filters, marker);
      var before := Replayable(events[..m], NormalizeFilters(filters), marker);
      LaterOneMore(events, m, filters, marker);
      AreAtOneMore(before, events, m, at, LaterBelow(events, m, filters, marker));
      ReplayableOneMore(events, m, filters, marker);
      if Passes(events[m], filters) && IsLater(events[m], marker) {
        at := at + [m];
      } else {
        assert before + [] == before;
      }
    }
  }

  /** A replay has the events that the filters, as they were given, let through and that are later than the marker, each
      at its place. */
  lemma ReplayIsExact(events: seq<Event>, filters: Filters, marker: Marker) returns (at: seq<nat>)
    ensures AreAt(Replayable(events, NormalizeFilters(filters), marker), events, at,
                  set i: nat | i < |events| && Passes(events[i], filters) && IsLater(events[i], marker))
  {
    at := ReplayableAt(events, |events|, filters, marker);
    assert events[..|events|] == events;
  }

  /** Of these it has the newest, at most as many as asked for: 100 if nothing is asked, none for a negative number, and
      never more than 500. */
  lemma ReplayHasNewest<T>(all: seq<T>, limit: Option<int>)
    ensures var wanted := if limit.None? then 100 else if limit.value < 0 then 0 else limit.value;
      var n := if wanted > 500 then 500 else wanted;
      var part := LastOf(all, NormalizeReplayLimit(limit));
      |part| == (if |all| < n then |all| else n) && all == all[..|all| - |part|] + part
  {
  }
}
