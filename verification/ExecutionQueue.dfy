/**
The execution queue itself: its dictionaries, updated in place, follow the protocol.
*/
module ExecutionQueue {
  import opened QueueProtocol

  /** What the dictionaries hold for session `s` is `l`. */
  predicate Matches(l: Lane, queues: map<Session, seq<TaskId>>, running: map<Session, bool>,
                    processors: map<Session, seq<Processor>>, s: Session)
  {
    && l.known == (s in queues)
    && l.tasks == (if s in queues then queues[s] else [])
    && l.running == (s in running && running[s])
    && l.processors == (if s in processors then processors[s] else [])
  }

  ghost predicate AllMatch(lanes: map<Session, Lane>, queues: map<Session, seq<TaskId>>, running: map<Session, bool>,
                           processors: map<Session, seq<Processor>>)
  {
    forall s :: Matches(At(lanes, s), queues, running, processors, s)
  }

  /** The dictionaries differ at most at `s`. */
  ghost predicate SameBut<V>(m: map<Session, V>, m': map<Session, V>, s: Session) {
    forall r :: r != s ==> (r in m' <==> r in m) && (r in m ==> m'[r] == m[r])
  }

  lemma UpdateMatches(lanes: map<Session, Lane>, queues: map<Session, seq<TaskId>>, running: map<Session, bool>,
                      processors: map<Session, seq<Processor>>, s: Session, l: Lane,
                      queues': map<Session, seq<TaskId>>, running': map<Session, bool>,
                      processors': map<Session, seq<Processor>>)
    requires AllMatch(lanes, queues, running, processors) && Matches(l, queues', running', processors', s)
    requires SameBut(queues, queues', s) && SameBut(running, running', s) && SameBut(processors, processors', s)
    ensures AllMatch(lanes[s := l], queues', running', processors')
  {
    var lanes' := lanes[s := l];
    forall r ensures Matches(At(lanes', r), queues', running', processors', r) {
      assert Matches(At(lanes, r), queues, running, processors, r);
    }
  }

  lemma FieldsAfterEnqueue(q: State, s: Session)
    ensures var q' := After(q, QueueProtocol.Enqueue(s));
      var id := TaskId(s, q.counter + 1);
      && q'.lanes == q.lanes[s := Queued(At(q.lanes, s), id)]
      && q'.global == (if q.useGlobal then q.global + [id] else q.global)
      && q'.useGlobal == q.useGlobal && q'.counter == q.counter + 1
      && q'.results == q.results && q'.errors == q.errors
  {
  }

  lemma FieldsAfterFinish(q: State, s: Session, p: nat, outcome: Outcome)
    requires Enabled(q, QueueProtocol.Finish(s, p, outcome)) && GoesOn(q, s)
    ensures var l, q' := At(q.lanes, s), After(q, QueueProtocol.Finish(s, p, outcome));
      var id := l.processors[p].task;
      && q'.lanes == q.lanes[s := Looked(Ended(l, id), p)]
      && q'.global == (if l.tasks != [] && q.useGlobal then q.global[1..] else q.global)
      && q'.useGlobal == q.useGlobal && q'.counter == q.counter
      && q'.results == (if outcome.Returned? then q.results[id := outcome.value] else q.results)
      && q'.errors == (if outcome.Raised? then q.errors[id := outcome.error] else q.errors)
  {
  }

  class ExecutionQueue {
    var sessionQueues: map<Session, seq<TaskId>>
    const useGlobal: bool
    var globalQueue: seq<TaskId>
    var running: map<Session, bool>
    var results: map<TaskId, string>
    var errors: map<TaskId, string>
    var taskCounter: nat

    /** The processors that the event loop holds for each session. */
    var processors: map<Session, seq<Processor>>

    ghost var model: State

    /** The fields are those of `model`. That the model is in order at every step is the protocol's own invariant. */
    ghost predicate Valid()
      reads this
    {
      && AllMatch(model.lanes, sessionQueues, running, processors)
      && model.useGlobal == useGlobal && model.global == globalQueue && model.counter == taskCounter
      && model.results == results && model.errors == errors
    }

    constructor (useGlobal: bool)
      ensures Valid() && Inv(model) && model == Initial(useGlobal)
    {
      this.useGlobal := useGlobal;
      sessionQueues, globalQueue, running, results, errors := map[], [], map[], map[], map[];
      taskCounter, processors := 0, map[];
      model := Initial(useGlobal);
    }

    /** Put a task in the queue of its session, and see to a processor. */
    method Put(s: Session, id: TaskId, ghost l: Lane)
      requires Matches(l, sessionQueues, running, processors, s)
      modifies this`sessionQueues, this`running, this`processors
      ensures Matches(Queued(l, id), sessionQueues, running, processors, s)
      ensures SameBut(old(sessionQueues), sessionQueues, s) && SameBut(old(running), running, s)
      ensures SameBut(old(processors), processors, s)
    {
      var queue := if s in sessionQueues then sessionQueues[s] else [];
      var needsStart := !(s in running && running[s]);
      sessionQueues := sessionQueues[s := queue + [id]];
      if needsStart {
        running := running[s := true];
        processors := processors[s := (if s in processors then processors[s] else []) + [Created]];
      }
    }

    /** The caller's step up to its wait. */
    method Enqueue(s: Session) returns (id: TaskId)
      requires Valid() && Inv(model)
      modifies this
      ensures Valid() && Inv(model) && model == After(old(model), QueueProtocol.Enqueue(s))
      ensures id == TaskId(s, old(taskCounter) + 1)
    {
      EnqueueKeepsInv(model, s);
      id := EnqueueTask(s);
    }

    /** What it does to the fields. */
    method PutTask(s: Session, ghost l: Lane, ghost lanes: map<Session, Lane>) returns (id: TaskId)
      requires AllMatch(lanes, sessionQueues, running, processors) && l == At(lanes, s)
      modifies this`taskCounter, this`sessionQueues, this`globalQueue, this`running, this`processors
      ensures taskCounter == old(taskCounter) + 1 && id == TaskId(s, taskCounter)
      ensures AllMatch(lanes[s := Queued(l, id)], sessionQueues, running, processors)
      ensures globalQueue == if useGlobal then old(globalQueue) + [id] else old(globalQueue)
    {
      assert Matches(l, sessionQueues, running, processors, s);
      taskCounter := taskCounter + 1;
      id := TaskId(s, taskCounter);
      Put(s, id, l);
      if useGlobal {
        globalQueue := globalQueue + [id];
      }
      UpdateMatches(lanes, old(sessionQueues), old(running), old(processors), s, Queued(l, id), sessionQueues,
                    running, processors);
    }

    method EnqueueTask(s: Session) returns (id: TaskId)
      requires Valid()
      modifies this
      ensures Valid() && model == After(old(model), QueueProtocol.Enqueue(s))
      ensures id == TaskId(s, old(taskCounter) + 1)
    {
      FieldsAfterEnqueue(model, s);
      id := PutTask(s, At(model.lanes, s), model.lanes);
      model := After(model, QueueProtocol.Enqueue(s));
    }

    /** The processor's test of its queue, and what it does up to its next wait. */
    method Look(s: Session, p: nat, ghost l: Lane)
      requires Matches(l, sessionQueues, running, processors, s) && l.known && p < |l.processors|
      requires useGlobal && l.tasks != [] ==> globalQueue != []
      modifies this`sessionQueues, this`globalQueue, this`running, this`processors
      ensures Matches(Looked(l, p), sessionQueues, running, processors, s)
      ensures SameBut(old(sessionQueues), sessionQueues, s) && SameBut(old(running), running, s)
      ensures SameBut(old(processors), processors, s)
      ensures globalQueue == if l.tasks != [] && useGlobal then old(globalQueue)[1..] else old(globalQueue)
    {
      var queue := sessionQueues[s];
      var mine := processors[s];
      if queue != [] {
        if useGlobal {
          globalQueue := globalQueue[1..];
        }
        sessionQueues := sessionQueues[s := queue[1..]];
        processors := processors[s := mine[p := Executing(queue[0])]];
      } else {
        running := running[s := false];
        sessionQueues := sessionQueues - {s};
        processors := processors[s := mine[..p] + mine[p + 1..]];
      }
    }

    /** The same, seen from all sessions. */
    method Resume(s: Session, p: nat, ghost l: Lane, ghost lanes: map<Session, Lane>)
      requires AllMatch(lanes, sessionQueues, running, processors)
      requires Matches(l, sessionQueues, running, processors, s) && l.known && p < |l.processors|
      requires useGlobal && l.tasks != [] ==> globalQueue != []
      modifies this`sessionQueues, this`globalQueue, this`running, this`processors
      ensures AllMatch(lanes[s := Looked(l, p)], sessionQueues, running, processors)
      ensures globalQueue == if l.tasks != [] && useGlobal then old(globalQueue)[1..] else old(globalQueue)
    {
      Look(s, p, l);
      UpdateMatches(lanes, old(sessionQueues), old(running), old(processors), s, Looked(l, p), sessionQueues, running,
                    processors);
    }

    /** A new processor runs for the first time. It finds its queue, and need not wait at the global one. */
    method Begin(s: Session, p: nat)
      requires Valid() && Inv(model) && Enabled(model, QueueProtocol.Begin(s, p))
      modifies this
      ensures Valid() && Inv(model) && model == After(old(model), QueueProtocol.Begin(s, p))
    {
      ProcessorsGoOn(model, s);
      BeginKeepsInv(model, s, p);
      BeginToGoOn(s, p);
    }

    method BeginToGoOn(s: Session, p: nat)
      requires Valid() && Enabled(model, QueueProtocol.Begin(s, p)) && GoesOn(model, s)
      modifies this
      ensures Valid() && model == After(old(model), QueueProtocol.Begin(s, p))
    {
      ghost var l := At(model.lanes, s);
      assert Matches(l, sessionQueues, running, processors, s);
      Resume(s, p, l, model.lanes);
      model := AfterLook(model, s, p, l);
    }

    method Store(id: TaskId, outcome: Outcome)
      modifies this`results, this`errors
      ensures results == if outcome.Returned? then old(results)[id := outcome.value] else old(results)
      ensures errors == if outcome.Raised? then old(errors)[id := outcome.error] else old(errors)
    {
      match outcome
      case Returned(value) => results := results[id := value];
      case Raised(error) => errors := errors[id := error];
    }

    /** What a processor awaits returns or raises, and the processor looks at its queue again. */
    method Finish(s: Session, p: nat, outcome: Outcome)
      requires Valid() && Inv(model) && Enabled(model, QueueProtocol.Finish(s, p, outcome))
      modifies this
      ensures Valid() && Inv(model) && model == After(old(model), QueueProtocol.Finish(s, p, outcome))
    {
      ProcessorsGoOn(model, s);
      FinishKeepsInv(model, s, p, outcome);
      FinishToGoOn(s, p, outcome);
    }

    /** What it does to the fields. */
    method StoreAndResume(s: Session, p: nat, outcome: Outcome, ghost l: Lane, ghost lanes: map<Session, Lane>)
      requires AllMatch(lanes, sessionQueues, running, processors) && l == At(lanes, s)
      requires l.known && p < |l.processors| && l.processors[p].Executing?
      requires useGlobal && l.tasks != [] ==> globalQueue != []
      modifies this`sessionQueues, this`globalQueue, this`running, this`processors, this`results, this`errors
      ensures AllMatch(lanes[s := Looked(Ended(l, l.processors[p].task), p)], sessionQueues, running, processors)
      ensures globalQueue == if l.tasks != [] && useGlobal then old(globalQueue)[1..] else old(globalQueue)
      ensures results ==
              if outcome.Returned? then old(results)[l.processors[p].task := outcome.value] else old(results)
      ensures errors == if outcome.Raised? then old(errors)[l.processors[p].task := outcome.error] else old(errors)
    {
      assert Matches(l, sessionQueues, running, processors, s);
      var id := processors[s][p].task;
      Store(id, outcome);
      Resume(s, p, Ended(l, id), lanes);
    }

    method FinishToGoOn(s: Session, p: nat, outcome: Outcome)
      requires Valid() && Enabled(model, QueueProtocol.Finish(s, p, outcome)) && GoesOn(model, s)
      modifies this
      ensures Valid() && model == After(old(model), QueueProtocol.Finish(s, p, outcome))
    {
      ghost var l := At(model.lanes, s);
      FieldsAfterFinish(model, s, p, outcome);
      StoreAndResume(s, p, outcome, l, model.lanes);
      model := After(model, QueueProtocol.Finish(s, p, outcome));
    }

    /** A waiting caller finds the outcome of its task, and takes it. */
    method Take(id: TaskId) returns (outcome: Outcome)
      requires Valid() && Inv(model) && Enabled(model, QueueProtocol.Take(id))
      modifies this
      ensures Valid() && Inv(model) && model == After(old(model), QueueProtocol.Take(id))
      ensures id in old(model).outcomes && outcome == old(model).outcomes[id]
    {
      TakeKeepsInv(model, id);
      model := AfterTake(model, id);
      if id in errors {
        outcome := Raised(errors[id]);
        errors := errors - {id};
      } else {
        outcome := Returned(results[id]);
        results := results - {id};
      }
    }
  }
}
