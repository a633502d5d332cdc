/**
The protocol of the per-session execution queue, as steps between its suspension points: a caller enqueues a task, a
processor starts, a task ends (and its processor goes on with the next one, or stops), a caller takes the outcome of
its task. The puts and gets on the unbounded queues and the lock, which is never contended, do not suspend.
*/
module QueueProtocol {
  type Session = string

  /** The program writes it as one string, the number after the last colon. */
  datatype TaskId = TaskId(session: Session, number: nat)

  datatype Outcome = Returned(value: string) | Raised(error: string)

  /** A processor that has not run yet, or one that awaits a task. */
  datatype Processor = Created | Executing(task: TaskId)

  /** What there is of one session: its queue, if it has one, its running flag, the processors the event loop holds
      for it; and what has happened so far. */
  datatype Lane = Lane(tasks: seq<TaskId>, known: bool, running: bool, processors: seq<Processor>,
                       enqueued: seq<TaskId>, started: seq<TaskId>, finished: seq<TaskId>)

  const EMPTY := Lane([], false, false, [], [], [], [])

  datatype State = State(lanes: map<Session, Lane>, useGlobal: bool, global: seq<TaskId>, counter: nat,
                         results: map<TaskId, string>, errors: map<TaskId, string>,
                         outcomes: map<TaskId, Outcome>, taken: map<TaskId, Outcome>)

  function At(lanes: map<Session, Lane>, s: Session): Lane {
    if s in lanes then lanes[s] else EMPTY
  }

  // One session

  function Queued(l: Lane, id: TaskId): Lane {
    var more := l.(tasks := l.tasks + [id], known := true, enqueued := l.enqueued + [id]);
    if l.running then more else more.(running := true, processors := l.processors + [Created])
  }

  /** Processor `p` looks at the queue: it starts the first task, or stops. */
  function Looked(l: Lane, p: nat): Lane
    requires p < |l.processors|
  {
    if l.tasks == [] then l.(running := false, known := false, processors := l.processors[..p] + l.processors[p + 1..])
    else l.(tasks := l.tasks[1..], started := l.started + [l.tasks[0]],
            processors := l.processors[p := Executing(l.tasks[0])])
  }

  function Ended(l: Lane, id: TaskId): Lane {
    l.(finished := l.finished + [id])
  }

  /** The tasks that processors are executing. */
  function InProgress(processors: seq<Processor>): seq<TaskId> {
    if processors == [] then []
    else (if processors[0].Executing? then [processors[0].task] else []) + InProgress(processors[1..])
  }

  /** One processor if there is work and none if not; tasks start in the order of enqueueing and end in the order of
      starting, one at a time. */
  predicate InOrder(l: Lane) {
    && |l.processors| <= 1
    && (l.running <==> l.processors != [])
    && (l.known <==> l.running)
    && (l.tasks != [] ==> l.running)
    && (l.processors == [Created] ==> l.tasks != [])
    && l.enqueued == l.started + l.tasks
    && l.started == l.finished + InProgress(l.processors)
  }

  predicate Numbered(l: Lane, s: Session, counter: nat) {
    && (forall i :: 0 <= i < |l.enqueued| ==> l.enqueued[i].session == s && l.enqueued[i].number <= counter)
    && (forall i, j :: 0 <= i < j < |l.enqueued| ==> l.enqueued[i].number < l.enqueued[j].number)
  }

  lemma QueuedKeepsOrder(l: Lane, s: Session, counter: nat)
    requires InOrder(l) && Numbered(l, s, counter)
    ensures InOrder(Queued(l, TaskId(s, counter + 1))) && Numbered(Queued(l, TaskId(s, counter + 1)), s, counter + 1)
  {
    assert l.processors == [] ==> l.processors + [Created] == [Created];
    assert InProgress([Created]) == [] + InProgress([]);
  }

  /** With nothing in progress, looking at the queue restores order. */
  lemma LookedIsInOrder(l: Lane, p: nat)
    requires p == 0 && |l.processors| == 1 && l.running && l.known
    requires l.enqueued == l.started + l.tasks && l.started == l.finished
    ensures InOrder(Looked(l, p))
  {
    if l.tasks != [] {
      assert Looked(l, p).processors == [Executing(l.tasks[0])];
      assert InProgress([Executing(l.tasks[0])]) == [l.tasks[0]] + InProgress([]);
    }
  }

  lemma EndedIsEven(l: Lane, id: TaskId)
    requires InOrder(l) && l.processors == [Executing(id)]
    ensures Ended(l, id).started == Ended(l, id).finished
  {
    assert InProgress([Executing(id)]) == [id] + InProgress([]);
  }

  lemma CreatedIsEven(l: Lane)
    requires InOrder(l) && l.processors == [Created]
    ensures l.started == l.finished
  {
    assert InProgress([Created]) == [] + InProgress([]);
  }

  /** What is in progress has not ended before; the first of the queue has not started. */
  lemma EachTaskOnce(l: Lane, s: Session, counter: nat)
    requires InOrder(l) && Numbered(l, s, counter)
    ensures forall id :: l.processors == [Executing(id)] ==> id !in l.finished && id in l.started && id.session == s
    ensures l.tasks != [] ==> l.tasks[0] !in l.started && l.tasks[0].session == s
  {
    forall id | l.processors == [Executing(id)]
      ensures id !in l.finished && id in l.started && id.session == s
    {
      EndedIsEven(l, id);
      assert l.enqueued[|l.finished|] == id;
      assert forall i :: 0 <= i < |l.finished| ==> l.enqueued[i] == l.finished[i];
    }
    if l.tasks != [] {
      assert l.enqueued[|l.started|] == l.tasks[0];
      assert forall i :: 0 <= i < |l.started| ==> l.enqueued[i] == l.started[i];
    }
  }

  // All sessions

  ghost predicate AllInOrder(lanes: map<Session, Lane>, counter: nat) {
    forall s <- lanes :: InOrder(lanes[s]) && Numbered(lanes[s], s, counter)
  }

  /** Task `id` has an outcome if it ended, and the outcome is waiting for its caller or has been taken. */
  predicate Settled(id: TaskId, finished: seq<TaskId>, results: map<TaskId, string>, errors: map<TaskId, string>,
                    outcomes: map<TaskId, Outcome>, taken: map<TaskId, Outcome>)
  {
    && (id in outcomes <==> id in finished)
    && (id in outcomes <==> id in results || id in errors || id in taken)
    && (id in results ==> id !in errors && id !in taken && outcomes[id] == Returned(results[id]))
    && (id in errors ==> id !in taken && outcomes[id] == Raised(errors[id]))
    && (id in taken ==> outcomes[id] == taken[id])
  }

  ghost predicate AllSettled(lanes: map<Session, Lane>, results: map<TaskId, string>, errors: map<TaskId, string>,
                             outcomes: map<TaskId, Outcome>, taken: map<TaskId, Outcome>)
  {
    forall id: TaskId :: Settled(id, At(lanes, id.session).finished, results, errors, outcomes, taken)
  }

  /** How many tasks wait in all queues. */
  ghost function Total(lanes: map<Session, Lane>): nat
    decreases |lanes|
  {
    if lanes == map[] then 0
    else
      var s :| s in lanes;
      |lanes[s].tasks| + Total(lanes - {s})
  }

  lemma {:induction false} TotalOf(lanes: map<Session, Lane>, s: Session)
    requires s in lanes
    ensures Total(lanes) == |lanes[s].tasks| + Total(lanes - {s})
    decreases |lanes|
  {
    var r :| r in lanes && Total(lanes) == |lanes[r].tasks| + Total(lanes - {r});
    if r != s {
      TotalOf(lanes - {r}, s);
      TotalOf(lanes - {s}, r);
      assert lanes - {r} - {s} == lanes - {s} - {r};
    }
  }

  lemma TotalOfUpdate(lanes: map<Session, Lane>, s: Session, l: Lane)
    ensures Total(lanes[s := l]) == Total(lanes) - |At(lanes, s).tasks| + |l.tasks|
  {
    TotalOf(lanes[s := l], s);
    assert lanes[s := l] - {s} == lanes - {s};
    if s in lanes {
      TotalOf(lanes, s);
    } else {
      assert lanes - {s} == lanes;
    }
  }

  ghost predicate Inv(q: State) {
    && AllInOrder(q.lanes, q.counter)
    && AllSettled(q.lanes, q.results, q.errors, q.outcomes, q.taken)
    && (q.useGlobal ==> |q.global| == Total(q.lanes))
  }

  // Steps

  datatype Action =
    | Enqueue(session: Session)
    | Begin(session: Session, processor: nat)
    | Finish(session: Session, processor: nat, outcome: Outcome)
    | Take(task: TaskId)

  predicate Enabled(q: State, a: Action) {
    match a
    case Enqueue(s) => true
    case Begin(s, p) => p < |At(q.lanes, s).processors| && At(q.lanes, s).processors[p] == Created
    case Finish(s, p, _) => p < |At(q.lanes, s).processors| && At(q.lanes, s).processors[p].Executing?
    case Take(id) => id in q.errors || id in q.results
  }

  function AfterEnqueue(q: State, s: Session): State {
    var id := TaskId(s, q.counter + 1);
    q.(lanes := q.lanes[s := Queued(At(q.lanes, s), id)],
       global := if q.useGlobal then q.global + [id] else q.global,
       counter := q.counter + 1)
  }

  /** The processor takes one id off the global queue, whichever it is, for each task it starts. */
  function AfterLook(q: State, s: Session, p: nat, l: Lane): State
    requires p < |l.processors|
  {
    q.(lanes := q.lanes[s := Looked(l, p)],
       global := if l.tasks != [] && q.useGlobal && q.global != [] then q.global[1..] else q.global)
  }

  function AfterFinish(q: State, s: Session, p: nat, id: TaskId, outcome: Outcome): State
    requires p < |At(q.lanes, s).processors|
  {
    AfterLook(q, s, p, Ended(At(q.lanes, s), id)).(
      results := if outcome.Returned? then q.results[id := outcome.value] else q.results,
      errors := if outcome.Raised? then q.errors[id := outcome.error] else q.errors,
      outcomes := q.outcomes[id := outcome])
  }

  function AfterTake(q: State, id: TaskId): State
    requires id in q.errors || id in q.results
  {
    if id in q.errors then q.(errors := q.errors - {id}, taken := q.taken[id := Raised(q.errors[id])])
    else q.(results := q.results - {id}, taken := q.taken[id := Returned(q.results[id])])
  }

  function After(q: State, a: Action): State
    requires Enabled(q, a)
  {
    match a
    case Enqueue(s) => AfterEnqueue(q, s)
    case Begin(s, p) => AfterLook(q, s, p, At(q.lanes, s))
    case Finish(s, p, outcome) => AfterFinish(q, s, p, At(q.lanes, s).processors[p].task, outcome)
    case Take(id) => AfterTake(q, id)
  }

  // Every step keeps the invariant

  lemma AtIsInOrder(lanes: map<Session, Lane>, counter: nat, s: Session)
    requires AllInOrder(lanes, counter)
    ensures InOrder(At(lanes, s)) && Numbered(At(lanes, s), s, counter)
  {
  }

  lemma UpdateKeepsOrder(lanes: map<Session, Lane>, counter: nat, s: Session, l: Lane, counter': nat)
    requires AllInOrder(lanes, counter) && counter <= counter' && InOrder(l) && Numbered(l, s, counter')
    ensures AllInOrder(lanes[s := l], counter')
  {
  }

  lemma UpdateKeepsSettled(q: State, s: Session, l: Lane)
    requires AllSettled(q.lanes, q.results, q.errors, q.outcomes, q.taken) && l.finished == At(q.lanes, s).finished
    ensures AllSettled(q.lanes[s := l], q.results, q.errors, q.outcomes, q.taken)
  {
    forall id: TaskId
      ensures Settled(id, At(q.lanes[s := l], id.session).finished, q.results, q.errors, q.outcomes, q.taken)
    {
      assert Settled(id, At(q.lanes, id.session).finished, q.results, q.errors, q.outcomes, q.taken);
    }
  }

  lemma EnqueueKeepsOrder(lanes: map<Session, Lane>, counter: nat, s: Session)
    requires AllInOrder(lanes, counter)
    ensures AllInOrder(lanes[s := Queued(At(lanes, s), TaskId(s, counter + 1))], counter + 1)
  {
    AtIsInOrder(lanes, counter, s);
    QueuedKeepsOrder(At(lanes, s), s, counter);
  }

  lemma EnqueueKeepsCount(q: State, s: Session)
    requires q.useGlobal ==> |q.global| == Total(q.lanes)
    ensures var q' := AfterEnqueue(q, s); q'.useGlobal ==> |q'.global| == Total(q'.lanes)
  {
    TotalOfUpdate(q.lanes, s, Queued(At(q.lanes, s), TaskId(s, q.counter + 1)));
  }

  lemma EnqueueKeepsInv(q: State, s: Session)
    requires Inv(q)
    ensures Inv(AfterEnqueue(q, s))
  {
    EnqueueKeepsOrder(q.lanes, q.counter, s);
    UpdateKeepsSettled(q, s, AfterEnqueue(q, s).lanes[s]);
    EnqueueKeepsCount(q, s);
  }

  /** A get on the global queue never waits: it holds an id for every waiting task. */
  lemma GlobalNeverWaits(q: State, s: Session)
    requires q.useGlobal ==> |q.global| == Total(q.lanes)
    requires q.useGlobal && At(q.lanes, s).tasks != []
    ensures q.global != []
  {
    TotalOf(q.lanes, s);
  }

  /** What a processor of `s` finds when it looks: its queue, and no wait at the global one. */
  predicate GoesOn(q: State, s: Session) {
    At(q.lanes, s).known && (q.useGlobal && At(q.lanes, s).tasks != [] ==> q.global != [])
  }

  lemma ProcessorsGoOn(q: State, s: Session)
    requires Inv(q) && At(q.lanes, s).processors != []
    ensures GoesOn(q, s)
  {
    AtIsInOrder(q.lanes, q.counter, s);
    if q.useGlobal && At(q.lanes, s).tasks != [] {
      GlobalNeverWaits(q, s);
    }
  }

  lemma LookKeepsCount(q: State, s: Session, p: nat, l: Lane)
    requires q.useGlobal ==> |q.global| == Total(q.lanes)
    requires p < |l.processors| && l.tasks == At(q.lanes, s).tasks
    ensures var q' := AfterLook(q, s, p, l); q'.useGlobal ==> |q'.global| == Total(q'.lanes)
  {
    TotalOfUpdate(q.lanes, s, Looked(l, p));
    if q.useGlobal && l.tasks != [] {
      GlobalNeverWaits(q, s);
    }
  }

  lemma BeginKeepsInv(q: State, s: Session, p: nat)
    requires Inv(q) && Enabled(q, Begin(s, p))
    ensures Inv(After(q, Begin(s, p)))
  {
    var l := At(q.lanes, s);
    AtIsInOrder(q.lanes, q.counter, s);
    assert l.processors == [Created];
    CreatedIsEven(l);
    LookedIsInOrder(l, p);
    LookKeepsCount(q, s, p, l);
    UpdateKeepsOrder(q.lanes, q.counter, s, Looked(l, p), q.counter);
    UpdateKeepsSettled(q, s, Looked(l, p));
  }

  /** A task that ends gets its outcome, and did not have one. */
  lemma EndKeepsSettled(q: State, s: Session, l: Lane, id: TaskId, outcome: Outcome, results: map<TaskId, string>,
                        errors: map<TaskId, string>)
    requires AllSettled(q.lanes, q.results, q.errors, q.outcomes, q.taken)
    requires id.session == s && id !in At(q.lanes, s).finished && l.finished == At(q.lanes, s).finished + [id]
    requires results == if outcome.Returned? then q.results[id := outcome.value] else q.results
    requires errors == if outcome.Raised? then q.errors[id := outcome.error] else q.errors
    ensures AllSettled(q.lanes[s := l], results, errors, q.outcomes[id := outcome], q.taken)
  {
    assert Settled(id, At(q.lanes, id.session).finished, q.results, q.errors, q.outcomes, q.taken);
    forall i: TaskId
      ensures Settled(i, At(q.lanes[s := l], i.session).finished, results, errors, q.outcomes[id := outcome], q.taken)
    {
      assert Settled(i, At(q.lanes, i.session).finished, q.results, q.errors, q.outcomes, q.taken);
    }
  }

  /** The lane after its task has ended and its processor has looked again. */
  lemma FinishedLane(l: Lane, s: Session, counter: nat, id: TaskId)
    requires InOrder(l) && Numbered(l, s, counter) && l.processors == [Executing(id)]
    ensures var l' := Looked(Ended(l, id), 0);
      InOrder(l') && Numbered(l', s, counter) && l'.finished == l.finished + [id]
    ensures id !in l.finished && id.session == s
  {
    EachTaskOnce(l, s, counter);
    EndedIsEven(l, id);
    LookedIsInOrder(Ended(l, id), 0);
  }

  lemma FinishKeepsInv(q: State, s: Session, p: nat, outcome: Outcome)
    requires Inv(q) && Enabled(q, Finish(s, p, outcome))
    ensures Inv(After(q, Finish(s, p, outcome)))
    ensures At(q.lanes, s).processors[p].task !in q.outcomes
  {
    var l := At(q.lanes, s);
    AtIsInOrder(q.lanes, q.counter, s);
    var id := l.processors[p].task;
    var q' := After(q, Finish(s, p, outcome));
    var l' := Looked(Ended(l, id), p);
    assert l.processors == [Executing(id)];
    FinishedLane(l, s, q.counter, id);
    LookKeepsCount(q, s, p, Ended(l, id));
    EndKeepsSettled(q, s, l', id, outcome, q'.results, q'.errors);
    UpdateKeepsOrder(q.lanes, q.counter, s, l', q.counter);
    assert Settled(id, At(q.lanes, id.session).finished, q.results, q.errors, q.outcomes, q.taken);
  }

  lemma TakeKeepsInv(q: State, id: TaskId)
    requires Inv(q) && Enabled(q, Take(id))
    ensures Inv(After(q, Take(id)))
    ensures id !in q.taken && id in q.outcomes && After(q, Take(id)).taken[id] == q.outcomes[id]
  {
    var q' := After(q, Take(id));
    assert Settled(id, At(q.lanes, id.session).finished, q.results, q.errors, q.outcomes, q.taken);
    forall i: TaskId ensures Settled(i, At(q.lanes, i.session).finished, q'.results, q'.errors, q.outcomes, q'.taken) {
      assert Settled(i, At(q.lanes, i.session).finished, q.results, q.errors, q.outcomes, q.taken);
    }
  }

  /** Every step, in every interleaving, keeps the invariant. */
  lemma StepKeepsInv(q: State, a: Action)
    requires Inv(q) && Enabled(q, a)
    ensures Inv(After(q, a))
  {
    match a
    case Enqueue(s) => EnqueueKeepsInv(q, s);
    case Begin(s, p) => BeginKeepsInv(q, s, p);
    case Finish(s, p, outcome) => FinishKeepsInv(q, s, p, outcome);
    case Take(id) => TakeKeepsInv(q, id);
  }

  // Runs

  /** The states of a run: each but the first follows from the one before by an enabled action. */
  ghost predicate IsRun(states: seq<State>, actions: seq<Action>) {
    && |states| == |actions| + 1
    && forall i :: 0 <= i < |actions| ==> StepAt(states, actions, i)
  }

  predicate StepAt(states: seq<State>, actions: seq<Action>, i: nat)
    requires i < |actions| && |states| == |actions| + 1
  {
    Enabled(states[i], actions[i]) && states[i + 1] == After(states[i], actions[i])
  }

  function Initial(useGlobal: bool): State {
    State(map[], useGlobal, [], 0, map[], map[], map[], map[])
  }

  lemma {:induction false} RunKeepsInv(states: seq<State>, actions: seq<Action>, i: nat)
    requires IsRun(states, actions) && Inv(states[0]) && i < |states|
    ensures Inv(states[i])
  {
    if i > 0 {
      RunKeepsInv(states, actions, i - 1);
      assert StepAt(states, actions, i - 1);
      StepKeepsInv(states[i - 1], actions[i - 1]);
    }
  }

  /** At any time in any run: tasks of a session start in the order of enqueueing, one at a time, and no task waits
      without a processor. */
  lemma RunsAreSerial(useGlobal: bool, states: seq<State>, actions: seq<Action>, i: nat, s: Session)
    requires IsRun(states, actions) && states[0] == Initial(useGlobal) && i < |states|
    ensures var l := At(states[i].lanes, s);
      && l.started <= l.enqueued && l.finished <= l.started && |l.started| <= |l.finished| + 1
      && |l.processors| <= 1 && (l.tasks != [] ==> |l.processors| == 1)
      && (l.processors == [] ==> l.finished == l.enqueued)
  {
    assert Inv(states[0]);
    RunKeepsInv(states, actions, i);
    AtIsInOrder(states[i].lanes, states[i].counter, s);
    var l := At(states[i].lanes, s);
    if |l.processors| == 1 {
      assert InProgress(l.processors[1..]) == [];
    }
  }

  /** In any run, no task ends twice and no outcome is taken twice, and what a caller takes is how its task ended. */
  lemma OutcomesAreTakenOnce(useGlobal: bool, states: seq<State>, actions: seq<Action>, i: nat)
    requires IsRun(states, actions) && states[0] == Initial(useGlobal) && i < |actions|
    ensures var q, q', a := states[i], states[i + 1], actions[i];
      && Enabled(q, a) && q' == After(q, a)
      && (a.Finish? ==> At(q.lanes, a.session).processors[a.processor].task !in q.outcomes)
      && (a.Take? ==> a.task in q.outcomes && a.task !in q.taken && q'.taken[a.task] == q.outcomes[a.task])
  {
    assert Inv(states[0]);
    RunKeepsInv(states, actions, i);
    assert StepAt(states, actions, i);
    match actions[i]
    case Finish(s, p, outcome) => FinishKeepsInv(states[i], s, p, outcome);
    case Take(id) => TakeKeepsInv(states[i], id);
    case _ =>
  }

  predicate Executes(q: State, id: TaskId) {
    Executing(id) in At(q.lanes, id.session).processors
  }

  /** In some run with the global queue, at some time, different tasks of the two sessions are executed. */
  ghost predicate MayOverlap(one: Session, two: Session) {
    exists states, actions, i, a, b :: OverlapAt(states, actions, i, a, b) && a.session == one && b.session == two
  }

  ghost predicate OverlapAt(states: seq<State>, actions: seq<Action>, i: nat, a: TaskId, b: TaskId) {
    && IsRun(states, actions) && states[0] == Initial(true) && i < |states|
    && a != b && Executes(states[i], a) && Executes(states[i], b)
  }

  lemma RunGoesOn(states: seq<State>, actions: seq<Action>, a: Action)
    requires IsRun(states, actions) && Enabled(states[|actions|], a)
    ensures IsRun(states + [After(states[|actions|], a)], actions + [a])
  {
    var states', actions' := states + [After(states[|actions|], a)], actions + [a];
    forall i | 0 <= i < |actions'| ensures StepAt(states', actions', i) {
      assert i < |actions| ==> StepAt(states, actions, i);
    }
  }

  lemma BothEnqueue(one: Session, two: Session) returns (states: seq<State>, actions: seq<Action>, q: State)
    requires one != two
    ensures IsRun(states, actions) && states[0] == Initial(true) && |actions| == 2 && states[2] == q && q.useGlobal
    ensures At(q.lanes, one).processors == [Created] && At(q.lanes, one).tasks == [TaskId(one, 1)]
    ensures At(q.lanes, two).processors == [Created] && At(q.lanes, two).tasks == [TaskId(two, 2)]
  {
    var a := Initial(true);
    var b := After(a, Enqueue(one));
    q := After(b, Enqueue(two));
    RunGoesOn([a], [], Enqueue(one));
    RunGoesOn([a, b], [Enqueue(one)], Enqueue(two));
    states, actions := [a, b] + [q], [Enqueue(one)] + [Enqueue(two)];
    assert [a] + [b] == [a, b] && [] + [Enqueue(one)] == [Enqueue(one)];
  }

  lemma TwoSessionsOverlap(one: Session, two: Session)
    requires one != two
    ensures MayOverlap(one, two)
  {
    var states, actions, q := BothEnqueue(one, two);
    var e := BothBegin(q, one, two);
    var between := After(q, Begin(one, 0));
    RunGoesOn(states, actions, Begin(one, 0));
    RunGoesOn(states + [between], actions + [Begin(one, 0)], Begin(two, 0));
    assert OverlapAt(states + [between] + [e], actions + [Begin(one, 0)] + [Begin(two, 0)], 4,
                     TaskId(one, 1), TaskId(two, 2));
  }

  /** Processors of two sessions begin one after the other. */
  lemma BothBegin(q: State, one: Session, two: Session) returns (q': State)
    requires one != two && q.useGlobal
    requires At(q.lanes, one).processors == [Created] && At(q.lanes, one).tasks == [TaskId(one, 1)]
    requires At(q.lanes, two).processors == [Created] && At(q.lanes, two).tasks == [TaskId(two, 2)]
    ensures Enabled(q, Begin(one, 0)) && Enabled(After(q, Begin(one, 0)), Begin(two, 0))
    ensures q' == After(After(q, Begin(one, 0)), Begin(two, 0))
    ensures Executes(q', TaskId(one, 1)) && Executes(q', TaskId(two, 2))
  {
    var between := After(q, Begin(one, 0));
    assert At(between.lanes, two) == At(q.lanes, two);
    q' := After(between, Begin(two, 0));
    assert At(q'.lanes, one).processors == [Executing(TaskId(one, 1))];
    assert At(q'.lanes, two).processors == [Executing(TaskId(two, 2))];
  }

  /** The global queue, which never makes a processor wait, does not put the tasks of different sessions one after the
      other: tasks of `one` and `two` can be executed at once if and only if these are two sessions. */
  lemma GlobalQueueDoesNotSerialise(one: Session, two: Session)
    ensures MayOverlap(one, two) <==> one != two
  {
    if one != two {
      TwoSessionsOverlap(one, two);
    } else if MayOverlap(one, two) {
      var states, actions, i, a, b :| OverlapAt(states, actions, i, a, b) && a.session == one && b.session == two;
      RunsAreSerial(true, states, actions, i, one);
    }
  }

  // No task is left over

  lemma NotIdle(l: Lane)
    requires InOrder(l) && l.finished != l.enqueued
    ensures |l.processors| == 1
  {
  }

  /** As long as a caller waits, something other than a new task can happen. */
  lemma WaitingIsProgress(q: State, id: TaskId) returns (a: Action)
    requires Inv(q) && id in At(q.lanes, id.session).enqueued && id !in q.taken
    ensures Enabled(q, a) && !a.Enqueue?
  {
    var s := id.session;
    var l := At(q.lanes, s);
    AtIsInOrder(q.lanes, q.counter, s);
    assert Settled(id, l.finished, q.results, q.errors, q.outcomes, q.taken);
    if id in q.outcomes {
      a := Take(id);
    } else {
      NotIdle(l);
      a := if l.processors[0].Created? then Begin(s, 0) else Finish(s, 0, Returned(""));
    }
  }

  /** What one session still has before it, weighing a start with one, an end with two. */
  function LaneWork(l: Lane): int {
    3 * |l.enqueued| - |l.started| - 2 * |l.finished|
  }

  ghost function Work(lanes: map<Session, Lane>): int
    decreases |lanes|
  {
    if lanes == map[] then 0
    else
      var s :| s in lanes;
      LaneWork(lanes[s]) + Work(lanes - {s})
  }

  lemma {:induction false} WorkOf(lanes: map<Session, Lane>, s: Session)
    requires s in lanes
    ensures Work(lanes) == LaneWork(lanes[s]) + Work(lanes - {s})
    decreases |lanes|
  {
    var r :| r in lanes && Work(lanes) == LaneWork(lanes[r]) + Work(lanes - {r});
    if r != s {
      WorkOf(lanes - {r}, s);
      WorkOf(lanes - {s}, r);
      assert lanes - {r} - {s} == lanes - {s} - {r};
    }
  }

  lemma WorkOfUpdate(lanes: map<Session, Lane>, s: Session, l: Lane)
    ensures Work(lanes[s := l]) == Work(lanes) - LaneWork(At(lanes, s)) + LaneWork(l)
  {
    WorkOf(lanes[s := l], s);
    assert lanes[s := l] - {s} == lanes - {s};
    if s in lanes {
      WorkOf(lanes, s);
    } else {
      assert lanes - {s} == lanes;
    }
  }

  lemma LaneWorkIsNotNegative(l: Lane)
    requires InOrder(l)
    ensures LaneWork(l) >= 0
  {
  }

  lemma {:induction false} WorkIsNotNegative(lanes: map<Session, Lane>, counter: nat)
    requires AllInOrder(lanes, counter)
    ensures Work(lanes) >= 0
    decreases |lanes|
  {
    if lanes != map[] {
      var s :| s in lanes;
      WorkOf(lanes, s);
      LaneWorkIsNotNegative(lanes[s]);
      assert AllInOrder(lanes - {s}, counter);
      WorkIsNotNegative(lanes - {s}, counter);
    }
  }

  /** The starts, ends and takings still to come, at most. */
  ghost function Remaining(q: State): int {
    Work(q.lanes) + |q.results| + |q.errors|
  }

  lemma LookDoesWork(l: Lane, p: nat)
    requires p < |l.processors|
    ensures LaneWork(Looked(l, p)) == LaneWork(l) - if l.tasks == [] then 0 else 1
  {
  }

  lemma BeginDoesWork(q: State, s: Session, p: nat)
    requires Inv(q) && Enabled(q, Begin(s, p))
    ensures Remaining(After(q, Begin(s, p))) < Remaining(q)
  {
    AtIsInOrder(q.lanes, q.counter, s);
    assert At(q.lanes, s).processors == [Created];
    LookDoesWork(At(q.lanes, s), p);
    WorkOfUpdate(q.lanes, s, Looked(At(q.lanes, s), p));
  }

  lemma FinishDoesWork(q: State, s: Session, p: nat, outcome: Outcome)
    requires Enabled(q, Finish(s, p, outcome))
    ensures Remaining(After(q, Finish(s, p, outcome))) < Remaining(q)
  {
    var l := At(q.lanes, s);
    var ended := Ended(l, l.processors[p].task);
    assert LaneWork(ended) == LaneWork(l) - 2;
    LookDoesWork(ended, p);
    WorkOfUpdate(q.lanes, s, Looked(ended, p));
  }

  lemma StepDoesWork(q: State, a: Action)
    requires Inv(q) && Enabled(q, a) && !a.Enqueue?
    ensures Remaining(After(q, a)) < Remaining(q)
  {
    match a
    case Begin(s, p) => BeginDoesWork(q, s, p);
    case Finish(s, p, outcome) => FinishDoesWork(q, s, p, outcome);
    case Take(id) => TakeDoesWork(q, id);
  }

  lemma TakeDoesWork(q: State, id: TaskId)
    requires Enabled(q, Take(id))
    ensures Remaining(After(q, Take(id))) < Remaining(q)
  {
    assert id in q.errors ==> |q.errors - {id}| < |q.errors|;
    assert id in q.results ==> |q.results - {id}| < |q.results|;
  }

  /** Without new tasks every run ends: it has at most as many steps as there was work before it. */
  lemma {:induction false} RunsDrain(states: seq<State>, actions: seq<Action>, i: nat)
    requires IsRun(states, actions) && Inv(states[0]) && i < |states|
    requires forall a <- actions :: !a.Enqueue?
    ensures i + Remaining(states[i]) <= Remaining(states[0]) && Remaining(states[i]) >= 0
  {
    RunLeavesWork(states, actions, i);
    if i > 0 {
      RunsDrain(states, actions, i - 1);
      RunDoesWork(states, actions, i - 1);
    }
  }

  lemma RunLeavesWork(states: seq<State>, actions: seq<Action>, i: nat)
    requires IsRun(states, actions) && Inv(states[0]) && i < |states|
    ensures Remaining(states[i]) >= 0
  {
    RunKeepsInv(states, actions, i);
    RemainingIsNotNegative(states[i]);
  }

  lemma RunDoesWork(states: seq<State>, actions: seq<Action>, i: nat)
    requires IsRun(states, actions) && Inv(states[0]) && i < |actions| && !actions[i].Enqueue?
    ensures Remaining(states[i + 1]) < Remaining(states[i])
  {
    RunKeepsInv(states, actions, i);
    assert StepAt(states, actions, i);
    StepDoesWork(states[i], actions[i]);
  }

  lemma RemainingIsNotNegative(q: State)
    requires Inv(q)
    ensures Remaining(q) >= 0
  {
    WorkIsNotNegative(q.lanes, q.counter);
  }

  /** When nothing but a new task can happen, every caller has its outcome. */
  lemma NothingIsLeftOver(q: State, id: TaskId)
    requires Inv(q) && id in At(q.lanes, id.session).enqueued
    requires forall a :: Enabled(q, a) ==> a.Enqueue?
    ensures id in q.taken && id in q.outcomes && q.taken[id] == q.outcomes[id]
  {
    if id !in q.taken {
      var a := WaitingIsProgress(q, id);
    }
    assert Settled(id, At(q.lanes, id.session).finished, q.results, q.errors, q.outcomes, q.taken);
  }
}
