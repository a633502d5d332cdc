/**
The gateway's event bus: one stream of events, bounded queues of viewers that lose their oldest events when they are
full, and a bounded history for replay.
*/
module EventBus {
  import opened PythonText
  import opened Options

  /** An event with its data as text; absent values are not in the map. */
  datatype Event = Event(kind: string, data: map<string, string>, ts: real, createdAt: string)

  type Filters = map<string, string>

  // Filters

  /** The data keys in which the value of a filter is looked for. */
  const CANDIDATES: map<string, set<string>> := map[
    "agent_id" := {"agent_id"},
    "session_id" := {"session_id"},
    "task_id" := {"task_id", "current_task_id", "portal_task_id"},
    "group_id" := {"group_id", "portal_group_id"},
    "coordination_run_id" := {"coordination_run_id", "current_coordination_run_id", "portal_coordination_run_id"},
    "request_id" := {"request_id", "execution_id"}]

  function NormalizeFilters(filters: Filters): Filters {
    map key | key in filters && key in CANDIDATES && Stripped(filters[key]) != "" :: Stripped(filters[key])
  }

  predicate MatchesKey(data: map<string, string>, key: string, expected: string) {
    && key in CANDIDATES
    && exists c <- CANDIDATES[key] :: c in data && Stripped(data[c]) != "" && Stripped(data[c]) == expected
  }

  predicate Matches(event: Event, filters: Filters) {
    forall key <- filters :: MatchesKey(event.data, key, filters[key])
  }

  /** The events that match, in order. */
  function Matching(events: seq<Event>, filters: Filters): seq<Event> {
    if events == [] then []
    else
      var last := events[|events| - 1];
      Matching(events[..|events| - 1], filters) + if Matches(last, filters) then [last] else []
  }

  lemma MatchingOneMore(events: seq<Event>, event: Event, filters: Filters)
    ensures Matching(events + [event], filters) ==
            Matching(events, filters) + if Matches(event, filters) then [event] else []
  {
    assert (events + [event])[..|events|] == events;
  }

  // Viewers

  ghost predicate Increasing(positions: seq<nat>, below: nat) {
    && (forall i :: 0 <= i < |positions| ==> positions[i] < below)
    && (forall i, j :: 0 <= i < j < |positions| ==> positions[i] < positions[j])
  }

  /** The queue is the newest part of what was offered; all that came before it was delivered or lost, in order, and
      nothing was delivered twice, or both delivered and lost. */
  ghost predicate Accounted(items: seq<Event>, maxSize: int, offered: seq<Event>, delivered: seq<nat>, lost: seq<nat>) {
    && |items| <= |offered| && items == offered[|offered| - |items|..]
    && (maxSize > 0 ==> |items| <= maxSize)
    && |delivered| + |lost| == |offered| - |items|
    && Increasing(delivered, |offered| - |items|) && Increasing(lost, |offered| - |items|)
    && (forall d <- delivered :: d !in lost)
  }

  /** A viewer's queue; a `maxSize` of 0 or less is no bound. */
  class Viewer {
    const maxSize: int
    var items: seq<Event>

    /** All that was ever offered, and which of it, by position, was delivered and which was lost. */
    ghost var offered: seq<Event>
    ghost var delivered: seq<nat>
    ghost var lost: seq<nat>

    predicate Full()
      reads this
    {
      maxSize > 0 && |items| >= maxSize
    }

    ghost function Gone(): int
      reads this
    {
      |offered| - |items|
    }

    ghost predicate Valid()
      reads this
    {
      Accounted(items, maxSize, offered, delivered, lost)
    }

    constructor (maxSize: int)
      ensures Valid() && items == [] && offered == [] && this.maxSize == maxSize
    {
      this.maxSize := maxSize;
      items, offered, delivered, lost := [], [], [], [];
    }

    /** Never waits: a full queue loses its oldest event. */
    method Offer(event: Event)
      requires Valid()
      modifies this
      ensures Valid() && offered == old(offered) + [event] && delivered == old(delivered)
      ensures items == (if old(Full()) then old(items)[1..] else old(items)) + [event]
      ensures lost == if old(Full()) then old(lost) + [old(Gone())] else old(lost)
    {
      if Full() {
        lost := lost + [Gone()];
        items := items[1..];
      }
      offered := offered + [event];
      items := items + [event];
    }

    method Get() returns (event: Event)
      requires Valid() && items != []
      modifies this
      ensures Valid() && offered == old(offered) && lost == old(lost)
      ensures [event] + items == old(items)
      ensures delivered == old(delivered) + [old(Gone())] && event == offered[old(Gone())]
    {
      delivered := delivered + [Gone()];
      event := items[0];
      items := items[1..];
    }
  }

  // The bus

  datatype Listener = Listener(queue: Viewer, filters: Filters)

  /** Where a replay starts: anywhere, after a time, or after a time stamp in text. */
  datatype Marker = Anywhere | AfterTime(seconds: real) | AfterText(stamp: string)

  /** Lexicographic order by code points. */
  predicate Less(a: string, b: string) {
    if b == [] then false
    else if a == [] then true
    else a[0] < b[0] || (a[0] == b[0] && Less(a[1..], b[1..]))
  }

  predicate IsAfter(event: Event, marker: Marker) {
    match marker
    case Anywhere => true
    case AfterTime(seconds) => event.ts > seconds
    case AfterText(stamp) => event.createdAt == "" || Less(stamp, event.createdAt)
  }

  function NormalizeReplayLimit(limit: Option<int>): (n: nat)
    ensures n <= 500
  {
    match limit
    case None => 100
    case Some(n) => if n < 0 then 0 else if n < 500 then n else 500
  }

  function LastOf<T>(s: seq<T>, n: nat): seq<T> {
    if n < |s| then s[|s| - n..] else s
  }

  /** The events that match and are after the marker, in order. */
  function Replayable(events: seq<Event>, filters: Filters, marker: Marker): seq<Event> {
    if events == [] then []
    else
      var last := events[|events| - 1];
      Replayable(events[..|events| - 1], filters, marker)
      + if Matches(last, filters) && IsAfter(last, marker) then [last] else []
  }

  // What a queue is owed

  /** A listener and how many events there had been when it was added. */
  datatype Record = Record(listener: Listener, joined: nat)

  /** What `queue` gets of the event at `position`: one copy for each of its listeners that had joined and match. */
  ghost function Copies(records: seq<Record>, position: nat, event: Event, queue: Viewer): seq<Event> {
    if records == [] then []
    else
      var last := records[|records| - 1];
      Copies(records[..|records| - 1], position, event, queue)
      + if last.listener.queue == queue && last.joined <= position && Matches(event, last.listener.filters) then [event]
        else []
  }

  /** What it gets of all events, in order. */
  ghost function Due(records: seq<Record>, emitted: seq<Event>, queue: Viewer): seq<Event> {
    if emitted == [] then []
    else
      var n := |emitted| - 1;
      Due(records, emitted[..n], queue) + Copies(records, n, emitted[n], queue)
  }

  /** A listener that joins is owed nothing yet. */
  lemma {:induction false} DueWithNewcomer(records: seq<Record>, newcomer: Record, emitted: seq<Event>, queue: Viewer)
    requires |emitted| <= newcomer.joined
    ensures Due(records + [newcomer], emitted, queue) == Due(records, emitted, queue)
  {
    if emitted != [] {
      DueWithNewcomer(records, newcomer, emitted[..|emitted| - 1], queue);
      assert (records + [newcomer])[..|records|] == records;
    }
  }

  lemma {:induction false} NoCopies(records: seq<Record>, position: nat, event: Event, queue: Viewer)
    requires forall r <- records :: r.listener.queue != queue
    ensures Copies(records, position, event, queue) == []
  {
    if records != [] {
      NoCopies(records[..|records| - 1], position, event, queue);
    }
  }

  lemma {:induction false} NothingDue(records: seq<Record>, emitted: seq<Event>, queue: Viewer)
    requires forall r <- records :: r.listener.queue != queue
    ensures Due(records, emitted, queue) == []
  {
    if emitted != [] {
      NothingDue(records, emitted[..|emitted| - 1], queue);
      NoCopies(records, |emitted| - 1, emitted[|emitted| - 1], queue);
    }
  }

  ghost function Others(records: seq<Record>, queue: Viewer): seq<Record> {
    if records == [] then []
    else
      var n := |records| - 1;
      Others(records[..n], queue) + if records[n].listener.queue != queue then [records[n]] else []
  }

  lemma {:induction false} OthersAreThose(records: seq<Record>, queue: Viewer)
    ensures forall r :: r in Others(records, queue) <==> r in records && r.listener.queue != queue
  {
    if records != [] {
      var n := |records| - 1;
      OthersAreThose(records[..n], queue);
      assert records == records[..n] + [records[n]];
    }
  }

  lemma {:induction false} CopiesWithoutOthers(records: seq<Record>, gone: Viewer, position: nat, event: Event,
                                               queue: Viewer)
    requires queue != gone
    ensures Copies(Others(records, gone), position, event, queue) == Copies(records, position, event, queue)
  {
    if records != [] {
      var n := |records| - 1;
      CopiesWithoutOthers(records[..n], gone, position, event, queue);
      assert (Others(records[..n], gone) + [records[n]])[..|Others(records[..n], gone)|] == Others(records[..n], gone);
      assert Others(records[..n], gone) + [] == Others(records[..n], gone);
    }
  }

  /** The listeners of one queue do not matter for another. */
  lemma {:induction false} DueWithoutOthers(records: seq<Record>, gone: Viewer, emitted: seq<Event>, queue: Viewer)
    requires queue != gone
    ensures Due(Others(records, gone), emitted, queue) == Due(records, emitted, queue)
  {
    if emitted != [] {
      DueWithoutOthers(records, gone, emitted[..|emitted| - 1], queue);
      CopiesWithoutOthers(records, gone, |emitted| - 1, emitted[|emitted| - 1], queue);
    }
  }

  function Since(events: seq<Event>, position: nat): seq<Event> {
    if position < |events| then events[position..] else []
  }

  lemma SinceOneMore(events: seq<Event>, event: Event, position: nat)
    ensures Since(events + [event], position) ==
            Since(events, position) + if position <= |events| then [event] else []
  {
  }

  /** What a queue with one listener is owed: what was emitted since it joined and matches. */
  lemma {:induction false} DueOfOne(records: seq<Record>, k: nat, emitted: seq<Event>)
    requires k < |records|
    requires forall j :: 0 <= j < |records| && j != k ==> records[j].listener.queue != records[k].listener.queue
    ensures Due(records, emitted, records[k].listener.queue) ==
            Matching(Since(emitted, records[k].joined), records[k].listener.filters)
  {
    if emitted != [] {
      var n := |emitted| - 1;
      DueOfOne(records, k, emitted[..n]);
      CopiesOfOne(records, k, n, emitted[n]);
      MatchingSince(emitted[..n], emitted[n], records[k].joined, records[k].listener.filters);
      assert emitted == emitted[..n] + [emitted[n]];
    }
  }

  lemma MatchingSince(events: seq<Event>, event: Event, position: nat, filters: Filters)
    ensures Matching(Since(events + [event], position), filters) ==
            Matching(Since(events, position), filters)
            + if position <= |events| && Matches(event, filters) then [event] else []
  {
    SinceOneMore(events, event, position);
    if position <= |events| {
      MatchingOneMore(Since(events, position), event, filters);
    } else {
      assert Since(events, position) + [] == Since(events, position);
    }
  }

  lemma {:induction false} CopiesOfOne(records: seq<Record>, k: nat, position: nat, event: Event)
    requires k < |records|
    requires forall j :: 0 <= j < |records| && j != k ==> records[j].listener.queue != records[k].listener.queue
    ensures Copies(records, position, event, records[k].listener.queue) ==
            if records[k].joined <= position && Matches(event, records[k].listener.filters) then [event] else []
  {
    var n := |records| - 1;
    if k < n {
      CopiesOfOne(records[..n], k, position, event);
    } else {
      NoCopies(records[..n], position, event, records[k].listener.queue);
    }
  }

  class EventBus {
    var listeners: seq<Listener>
    var history: seq<Event>
    const historyLimit: nat

    /** All events so far; the listeners and when they joined; and how much each queue had been offered when the first
        of its listeners joined. */
    ghost var emitted: seq<Event>
    ghost var records: seq<Record>
    ghost var earlier: map<Viewer, nat>

    ghost function Queues(): set<Viewer>
      reads this
    {
      set l <- listeners :: l.queue
    }

    /** Since then `queue` has been offered exactly `events`. */
    ghost predicate OfferedOnly(queue: Viewer, events: seq<Event>)
      reads this, queue
    {
      && queue.Valid() && queue in earlier && earlier[queue] <= |queue.offered|
      && queue.offered[earlier[queue]..] == events
    }

    /** The records are those of the listeners, all of which joined by now. */
    ghost predicate Recorded()
      reads this
    {
      && |records| == |listeners|
      && forall i :: 0 <= i < |records| ==> records[i].listener == listeners[i] && records[i].joined <= |emitted|
    }

    ghost predicate Valid()
      reads this, Queues()
    {
      && historyLimit >= 1 && history == LastOf(emitted, historyLimit)
      && Recorded()
      && forall queue <- Queues() :: OfferedOnly(queue, Due(records, emitted, queue))
    }

    constructor (historyLimit: int)
      ensures Valid() && listeners == [] && emitted == []
      ensures this.historyLimit == if historyLimit < 1 then 1 else historyLimit
    {
      this.historyLimit := if historyLimit < 1 then 1 else historyLimit;
      listeners, history, emitted, records, earlier := [], [], [], [], map[];
    }

    /** A queue may listen more than once; then it gets a copy for each of its listeners. */
    method AddListener(queue: Viewer, filters: Filters)
      requires Valid() && queue.Valid()
      modifies this`listeners, this`records, this`earlier
      ensures Valid() && listeners == old(listeners) + [Listener(queue, NormalizeFilters(filters))]
      ensures records == old(records) + [Record(Listener(queue, NormalizeFilters(filters)), |emitted|)]
      ensures earlier == if queue in old(Queues()) then old(earlier) else old(earlier)[queue := |queue.offered|]
    {
      var l := Listener(queue, NormalizeFilters(filters));
      ghost var were := Queues();
      if queue !in were {
        forall r <- records ensures r.listener.queue != queue {
          var i :| 0 <= i < |records| && records[i] == r;
          assert listeners[i] in listeners;
        }
        NothingDue(records, emitted, queue);
        earlier := earlier[queue := |queue.offered|];
      }
      ghost var all := records;
      listeners := listeners + [l];
      records := records + [Record(l, |emitted|)];
      assert Queues() == were + {queue};
      forall q <- Queues() ensures OfferedOnly(q, Due(records, emitted, q)) {
        DueWithNewcomer(all, Record(l, |emitted|), emitted, q);
      }
    }

    /** The loop that leaves the listeners of `queue` out. */
    method ListenersBut(queue: Viewer, ghost all: seq<Record>) returns (kept: seq<Listener>)
      requires |all| == |listeners| && forall i :: 0 <= i < |all| ==> all[i].listener == listeners[i]
      ensures |kept| == |Others(all, queue)|
      ensures forall i :: 0 <= i < |kept| ==> kept[i] == Others(all, queue)[i].listener
    {
      kept := [];
      var i := 0;
      while i < |listeners|
        invariant 0 <= i <= |listeners| && |kept| == |Others(all[..i], queue)|
        invariant forall j :: 0 <= j < |kept| ==> kept[j] == Others(all[..i], queue)[j].listener
      {
        assert all[..i + 1][..i] == all[..i];
        if listeners[i].queue != queue {
          kept := kept + [listeners[i]];
        }
        i := i + 1;
      }
      assert all[..i] == all;
    }

    method RemoveListener(queue: Viewer)
      requires Valid()
      modifies this`listeners, this`records
      ensures Valid() && records == Others(old(records), queue)
      ensures forall l :: l in listeners <==> l in old(listeners) && l.queue != queue
    {
      ghost var all := records;
      var kept := ListenersBut(queue, all);
      KeptListeners(listeners, all, kept, queue);
      listeners := kept;
      records := Others(all, queue);
      OthersAreThose(all, queue);
      forall i | 0 <= i < |records| ensures records[i].joined <= |emitted| {
        assert records[i] in all;
      }
      forall q <- Queues() ensures OfferedOnly(q, Due(records, emitted, q)) {
        DueWithoutOthers(all, queue, emitted, q);
      }
    }

    /** Take an event into the history, which keeps only the newest. */
    method Remember(event: Event)
      requires historyLimit >= 1 && history == LastOf(emitted, historyLimit)
      modifies this`history, this`emitted
      ensures emitted == old(emitted) + [event] && history == LastOf(emitted, historyLimit)
    {
      emitted := emitted + [event];
      history := history + [event];
      if |history| > historyLimit {
        history := history[1..];
      }
    }

    /** The first `i` listeners have been served the event at `position`. */
    ghost predicate ServedUpTo(i: nat, position: nat, event: Event, before: seq<Event>)
      requires i <= |records|
      reads this, Queues()
    {
      forall queue <- Queues() ::
        OfferedOnly(queue, Due(records, before, queue) + Copies(records[..i], position, event, queue))
    }

    /** One more copy of the newest event for the queue of listener `i`, if it matches. */
    method OfferIf(i: nat, event: Event)
      requires i < |listeners| && listeners[i].queue.Valid()
      modifies listeners[i].queue
      ensures listeners[i].queue.Valid()
      ensures listeners[i].queue.offered ==
              old(listeners[i].queue.offered) + if Matches(event, listeners[i].filters) then [event] else []
    {
      if Matches(event, listeners[i].filters) {
        listeners[i].queue.Offer(event);
      }
    }

    method Serve(i: nat, event: Event, ghost before: seq<Event>)
      requires Recorded() && i < |listeners| && emitted == before + [event]
      requires records[i].joined <= |before| && ServedUpTo(i, |before|, event, before)
      modifies listeners[i].queue
      ensures ServedUpTo(i + 1, |before|, event, before)
    {
      ghost var l := listeners[i];
      assert l in listeners && l.queue in Queues();
      assert OfferedOnly(l.queue, Due(records, before, l.queue) + Copies(records[..i], |before|, event, l.queue));
      ghost var offered := l.queue.offered;
      OfferIf(i, event);
      forall queue <- Queues()
        ensures OfferedOnly(queue, Due(records, before, queue) + Copies(records[..i + 1], |before|, event, queue))
      {
        CopiesOfOneMore(records, i, |before|, event, queue);
        assert old(OfferedOnly(queue, Due(records, before, queue) + Copies(records[..i], |before|, event, queue)));
        OfferedMore(offered, earlier[l.queue], Due(records, before, queue),
                    Copies(records[..i], |before|, event, queue), if Matches(event, l.filters) then [event] else []);
      }
    }

    method ServeEach(event: Event, ghost before: seq<Event>)
      requires Recorded() && emitted == before + [event] && ServedUpTo(0, |before|, event, before)
      requires forall i :: 0 <= i < |records| ==> records[i].joined <= |before|
      modifies Queues()
      ensures ServedUpTo(|records|, |before|, event, before)
    {
      var i := 0;
      while i < |listeners|
        invariant 0 <= i <= |listeners| && ServedUpTo(i, |before|, event, before)
      {
        assert listeners[i] in listeners;
        Serve(i, event, before);
        i := i + 1;
      }
    }

    /** The same, seen from what each queue is owed. */
    method ServeAll(event: Event, ghost before: seq<Event>)
      requires Recorded() && emitted == before + [event]
      requires forall queue <- Queues() :: OfferedOnly(queue, Due(records, before, queue))
      requires forall i :: 0 <= i < |records| ==> records[i].joined <= |before|
      modifies Queues()
      ensures forall queue <- Queues() :: OfferedOnly(queue, Due(records, emitted, queue))
    {
      forall queue: Viewer
        ensures Due(records, before, queue) + Copies(records[..0], |before|, event, queue) ==
                Due(records, before, queue)
      {
        assert Due(records, before, queue) + [] == Due(records, before, queue);
      }
      ServeEach(event, before);
      forall queue: Viewer
        ensures Due(records, emitted, queue) ==
                Due(records, before, queue) + Copies(records[..|records|], |before|, event, queue)
      {
        DueOneMore(records, before, event, queue);
      }
    }

    method Emit(event: Event)
      requires Valid()
      modifies this`history, this`emitted, Queues()
      ensures Valid() && emitted == old(emitted) + [event] && listeners == old(listeners)
      ensures records == old(records) && earlier == old(earlier)
    {
      ghost var before := emitted;
      Remember(event);
      forall queue <- Queues() ensures OfferedOnly(queue, Due(records, before, queue)) {
        assert old(OfferedOnly(queue, Due(records, emitted, queue)));
      }
      ServeAll(event, before);
    }

    method ReplayEvents(filters: Filters, replayLimit: Option<int>, marker: Marker) returns (events: seq<Event>)
      requires Valid()
      ensures events == LastOf(Replayable(LastOf(emitted, historyLimit), NormalizeFilters(filters), marker),
                               NormalizeReplayLimit(replayLimit))
    {
      var normalized := NormalizeFilters(filters);
      var limit := NormalizeReplayLimit(replayLimit);
      var matching: seq<Event> := [];
      var i := 0;
      while i < |history|
        invariant 0 <= i <= |history| && matching == Replayable(history[..i], normalized, marker)
      {
        assert history[..i + 1][..i] == history[..i];
        if Matches(history[i], normalized) && IsAfter(history[i], marker) {
          matching := matching + [history[i]];
        }
        i := i + 1;
      }
      assert history[..|history|] == history;
      events := if limit == 0 then [] else LastOf(matching, limit);
    }
  }

  lemma CopiesOfOneMore(records: seq<Record>, i: nat, position: nat, event: Event, queue: Viewer)
    requires i < |records| && records[i].joined <= position
    ensures var l := records[i].listener;
      Copies(records[..i + 1], position, event, queue) ==
      Copies(records[..i], position, event, queue)
      + if l.queue == queue && Matches(event, l.filters) then [event] else []
  {
    assert records[..i + 1][..i] == records[..i];
  }

  lemma DueOneMore(records: seq<Record>, before: seq<Event>, event: Event, queue: Viewer)
    ensures Due(records, before + [event], queue) ==
            Due(records, before, queue) + Copies(records[..|records|], |before|, event, queue)
  {
    assert (before + [event])[..|before|] == before && records[..|records|] == records;
  }

  lemma OfferedMore(offered: seq<Event>, from: nat, due: seq<Event>, copies: seq<Event>, more: seq<Event>)
    requires from <= |offered|
    ensures offered[from..] == due + copies ==> (offered + more)[from..] == due + (copies + more)
  {
    assert (offered + more)[from..] == offered[from..] + more;
  }

  lemma ListenersOfRecords(listeners: seq<Listener>, records: seq<Record>, l: Listener)
    requires |records| == |listeners| && forall i :: 0 <= i < |records| ==> records[i].listener == listeners[i]
    ensures l in listeners <==> exists r :: r in records && r.listener == l
  {
    if l in listeners {
      var i :| 0 <= i < |listeners| && listeners[i] == l;
      assert records[i] in records;
    }
  }

  lemma KeptListeners(listeners: seq<Listener>, records: seq<Record>, kept: seq<Listener>, queue: Viewer)
    requires |records| == |listeners| && forall i :: 0 <= i < |records| ==> records[i].listener == listeners[i]
    requires |kept| == |Others(records, queue)|
    requires forall i :: 0 <= i < |kept| ==> Others(records, queue)[i].listener == kept[i]
    ensures forall l :: l in kept <==> l in listeners && l.queue != queue
  {
    OthersAreThose(records, queue);
    forall l ensures l in kept <==> l in listeners && l.queue != queue {
      ListenersOfRecords(listeners, records, l);
      ListenersOfRecords(kept, Others(records, queue), l);
    }
  }

  // What a viewer can rely on

  /** The events at the given positions. */
  function Pick(events: seq<Event>, positions: seq<nat>): seq<Event>
    requires forall p <- positions :: p < |events|
  {
    seq(|positions|, i requires 0 <= i < |positions| => assert positions[i] in positions; events[positions[i]])
  }

  function Range(from: nat, to: nat): seq<nat>
    requires from <= to
  {
    seq(to - from, i requires 0 <= i < to - from => from + i)
  }

  /** What a viewer got and what is still in its queue is an in-order part of what it was offered, without
      repetition. */
  lemma ViewerSeesSubsequence(items: seq<Event>, maxSize: int, offered: seq<Event>, delivered: seq<nat>,
                              lost: seq<nat>)
      returns (positions: seq<nat>)
    requires Accounted(items, maxSize, offered, delivered, lost)
    ensures Increasing(positions, |offered|) && |positions| == |delivered| + |items|
    ensures Pick(offered, positions) == Pick(offered, delivered) + items
  {
    var gone := |offered| - |items|;
    positions := delivered + Range(gone, |offered|);
    forall p <- positions ensures p < |offered| {
      var i :| 0 <= i < |positions| && positions[i] == p;
    }
  }

  function Positions(s: seq<nat>): set<nat> {
    set p <- s
  }

  lemma {:induction false} IncreasingIsDistinct(s: seq<nat>, below: nat)
    requires Increasing(s, below)
    ensures |Positions(s)| == |s|
  {
    if s == [] {
      assert Positions(s) == {};
    } else {
      var n := |s| - 1;
      IncreasingIsDistinct(s[..n], below);
      assert s == s[..n] + [s[n]];
      assert Positions(s) == Positions(s[..n]) + {s[n]};
      assert s[n] !in s[..n];
    }
  }

  lemma SameSize<T>(part: set<T>, whole: set<T>)
    requires part <= whole && |part| == |whole|
    ensures part == whole
  {
    var rest := whole - part;
    assert whole == part + rest && |whole| == |part| + |rest|;
    assert rest == {};
  }

  /** Positions below `below` that are as many as there are take all of them. */
  lemma AllBelow(positions: set<nat>, below: nat, i: nat)
    requires (forall p <- positions :: p < below) && |positions| == below && i < below
    ensures i in positions
  {
    IncreasingIsDistinct(Range(0, below), below);
    var all := Positions(Range(0, below));
    forall p: nat | p < below ensures p in all {
      assert Range(0, below)[p] == p;
    }
    SameSize(positions, all);
  }

  lemma PositionsAreBelow(s: seq<nat>, below: nat)
    requires Increasing(s, below)
    ensures forall p <- Positions(s) :: p < below
  {
    forall p <- Positions(s) ensures p < below {
      var j :| 0 <= j < |s| && s[j] == p;
    }
  }

  /** Every event offered was delivered, or was lost to a full queue, or is still queued. */
  lemma EveryEventIsAccountedFor(items: seq<Event>, maxSize: int, offered: seq<Event>, delivered: seq<nat>,
                                 lost: seq<nat>, i: nat)
    requires Accounted(items, maxSize, offered, delivered, lost) && i < |offered|
    ensures i in delivered || i in lost || i >= |offered| - |items|
  {
    var gone := |offered| - |items|;
    IncreasingIsDistinct(delivered, gone);
    IncreasingIsDistinct(lost, gone);
    PositionsAreBelow(delivered, gone);
    PositionsAreBelow(lost, gone);
    assert Positions(delivered) * Positions(lost) == {};
    if i < gone {
      AllBelow(Positions(delivered) + Positions(lost), gone, i);
    }
  }

  lemma {:induction false} ReplayableAppend(a: seq<Event>, b: seq<Event>, filters: Filters, marker: Marker)
    ensures Replayable(a + b, filters, marker) == Replayable(a, filters, marker) + Replayable(b, filters, marker)
  {
    if b == [] {
      assert a + b == a;
    } else {
      assert (a + b)[..|a + b| - 1] == a + b[..|b| - 1];
      ReplayableAppend(a, b[..|b| - 1], filters, marker);
    }
  }

  /** As long as the history holds enough of them, a replay is the last `limit` of all matching events after the marker
      that were ever emitted, forgotten ones included. */
  lemma ReplayIsOfAllEvents(emitted: seq<Event>, historyLimit: nat, filters: Filters, marker: Marker, limit: nat)
    requires limit <= |Replayable(LastOf(emitted, historyLimit), filters, marker)| || |emitted| <= historyLimit
    ensures LastOf(Replayable(LastOf(emitted, historyLimit), filters, marker), limit) ==
            LastOf(Replayable(emitted, filters, marker), limit)
  {
    if |emitted| > historyLimit {
      var cut := |emitted| - historyLimit;
      assert emitted == emitted[..cut] + emitted[cut..];
      ReplayableAppend(emitted[..cut], emitted[cut..], filters, marker);
      LastOfAppend(Replayable(emitted[..cut], filters, marker), Replayable(emitted[cut..], filters, marker), limit);
    }
  }

  lemma LastOfAppend<T>(a: seq<T>, b: seq<T>, n: nat)
    requires n <= |b|
    ensures LastOf(a + b, n) == LastOf(b, n)
  {
    assert n < |a + b| ==> (a + b)[|a + b| - n..] == b[|b| - n..];
  }

  /** Every replayed event matches and is after the marker, and every such event of the history is replayable. */
  lemma {:induction false} ReplayableIsExact(events: seq<Event>, filters: Filters, marker: Marker, event: Event)
    ensures event in Replayable(events, filters, marker) <==>
            event in events && Matches(event, filters) && IsAfter(event, marker)
  {
    if events != [] {
      var n := |events| - 1;
      ReplayableIsExact(events[..n], filters, marker, event);
      assert events == events[..n] + [events[n]];
    }
  }
}
