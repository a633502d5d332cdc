/**
The rendezvous between tools that wait for a connector and the endpoint that answers, as steps: register, resolve,
cancel, clear, begin and end a wait, and the running of a callback that was handed to the waiting loop. The lock makes
each step atomic; callbacks run at any later time, at once if the loop is the caller's own.
*/
module BridgeProtocol {
  type Payload = string

  datatype Future = Open | Done(payload: Payload) | Cancelled

  datatype Callback = SetResult(registration: nat, payload: Payload) | CancelFuture(registration: nat)

  /** How a registration left the table of pending requests. */
  datatype Fate = Pending | Resolved(payload: Payload) | Withdrawn | Abandoned

  datatype Waiter = Waiter(id: string, registration: nat)

  /** How a wait ends: with what the future holds, or without looking at it. */
  datatype Ending = Settled | TimedOut | RunCancelled

  datatype Outcome = Answer(payload: Payload) | Timeout | Cancellation

  /** Registrations are numbered; each has its own future. The last three fields only record. */
  datatype State = State(pending: map<string, nat>, futures: seq<Future>, callbacks: seq<Callback>,
                         waiters: map<nat, Waiter>, ids: seq<string>, fates: seq<Fate>, ended: set<string>)

  const START := State(map[], [], [], map[], [], [], {})

  // Steps

  function AfterRegister(q: State, id: string): State {
    if id in q.pending then q
    else q.(pending := q.pending[id := |q.futures|], futures := q.futures + [Open], ids := q.ids + [id],
            fates := q.fates + [Pending])
  }

  function WithFate(fates: seq<Fate>, r: nat, fate: Fate): seq<Fate> {
    if r < |fates| then fates[r := fate] else fates
  }

  function AfterResolve(q: State, id: string, payload: Payload): State {
    if id !in q.pending then q
    else q.(pending := q.pending - {id}, fates := WithFate(q.fates, q.pending[id], Resolved(payload)),
            callbacks := q.callbacks + [SetResult(q.pending[id], payload)])
  }

  function AfterCancel(q: State, id: string): State {
    if id !in q.pending then q
    else q.(pending := q.pending - {id}, fates := WithFate(q.fates, q.pending[id], Withdrawn),
            callbacks := q.callbacks + [CancelFuture(q.pending[id])])
  }

  /** Clearing withdraws all that is pending, in some order. */
  function AfterClear(q: State, order: seq<string>): State
    decreases |order|
  {
    if order == [] then q else AfterClear(AfterCancel(q, order[0]), order[1..])
  }

  function SetFuture(futures: seq<Future>, r: nat, future: Future): seq<Future> {
    if r < |futures| && futures[r] == Open then futures[r := future] else futures
  }

  /** A callback does nothing to a future that is done. */
  function AfterCallback(q: State, i: nat): State
    requires i < |q.callbacks|
  {
    var rest := q.callbacks[..i] + q.callbacks[i + 1..];
    match q.callbacks[i]
    case SetResult(r, payload) => q.(callbacks := rest, futures := SetFuture(q.futures, r, Done(payload)))
    case CancelFuture(r) => q.(callbacks := rest, futures := SetFuture(q.futures, r, Cancelled))
  }

  function AfterBeginWait(q: State, w: nat, id: string): State {
    if id !in q.pending then q else q.(waiters := q.waiters[w := Waiter(id, q.pending[id])])
  }

  /** However a wait ends, the request id is dropped from the table, whatever it stands for by then. */
  function AfterEndWait(q: State, w: nat): State
    requires w in q.waiters
  {
    var id := q.waiters[w].id;
    q.(waiters := q.waiters - {w}, pending := q.pending - {id},
       fates := if id in q.pending then WithFate(q.fates, q.pending[id], Abandoned) else q.fates,
       futures := SetFuture(q.futures, q.waiters[w].registration, Cancelled),
       ended := q.ended + {id})
  }

  datatype Action =
    | Register(id: string)
    | Resolve(id: string, payload: Payload)
    | Cancel(id: string)
    | Clear(order: seq<string>)
    | Run(callback: nat)
    | BeginWait(waiter: nat, id: string)
    | EndWait(waiter: nat, ending: Ending)

  predicate Enabled(q: State, a: Action) {
    match a
    case Clear(order) => forall id <- q.pending :: id in order
    case Run(i) => i < |q.callbacks|
    case BeginWait(w, _) => w !in q.waiters
    case EndWait(w, ending) =>
      && w in q.waiters && q.waiters[w].registration < |q.futures|
      && (ending == Settled ==> q.futures[q.waiters[w].registration] != Open)
    case _ => true
  }

  function After(q: State, a: Action): State
    requires Enabled(q, a)
  {
    match a
    case Register(id) => AfterRegister(q, id)
    case Resolve(id, payload) => AfterResolve(q, id, payload)
    case Cancel(id) => AfterCancel(q, id)
    case Clear(order) => AfterClear(q, order)
    case Run(i) => AfterCallback(q, i)
    case BeginWait(w, id) => AfterBeginWait(q, w, id)
    case EndWait(w, _) => AfterEndWait(q, w)
  }

  /** What the waiting tool gets. */
  function OutcomeOf(q: State, w: nat, ending: Ending): Outcome
    requires Enabled(q, EndWait(w, ending))
  {
    match ending
    case TimedOut => Timeout
    case RunCancelled => Cancellation
    case Settled =>
      var future := q.futures[q.waiters[w].registration];
      if future.Done? then Answer(future.payload) else Cancellation
  }

  // Each registration has one fate

  /** Registration `r` is in the table, and open, as long as its fate is. Its future holds nothing but what a resolve
      carried; and what a resolve carried is in the future or on its way, unless a wait on it has ended. */
  predicate HasOneFate(q: State, r: nat)
    requires r < |q.ids| == |q.fates| == |q.futures|
  {
    && (q.fates[r] == Pending <==> q.ids[r] in q.pending && q.pending[q.ids[r]] == r)
    && (q.futures[r].Done? ==> q.fates[r] == Resolved(q.futures[r].payload))
    && (q.fates[r] == Pending ==> q.futures[r] == Open)
    && (q.fates[r].Resolved? && q.ids[r] !in q.ended ==>
          || q.futures[r] == Done(q.fates[r].payload)
          || (q.futures[r] == Open && SetResult(r, q.fates[r].payload) in q.callbacks))
  }

  predicate Agrees(c: Callback, fates: seq<Fate>) {
    && c.registration < |fates|
    && fates[c.registration] == if c.SetResult? then Resolved(c.payload) else Withdrawn
  }

  ghost predicate Inv(q: State) {
    && |q.ids| == |q.fates| == |q.futures|
    && (forall r: nat | r < |q.ids| :: HasOneFate(q, r))
    && (forall id <- q.pending :: q.pending[id] < |q.ids| && q.ids[q.pending[id]] == id)
    && (forall c <- q.callbacks :: Agrees(c, q.fates))
    && (forall w <- q.waiters ::
          q.waiters[w].registration < |q.ids| && q.ids[q.waiters[w].registration] == q.waiters[w].id)
  }

  lemma RegisterKeepsInv(q: State, id: string)
    requires Inv(q)
    ensures Inv(AfterRegister(q, id))
  {
    var q' := AfterRegister(q, id);
    forall r: nat | r < |q'.ids| ensures HasOneFate(q', r) {
      if r < |q.ids| {
        assert HasOneFate(q, r);
      }
    }
  }

  lemma ResolveKeepsInv(q: State, id: string, payload: Payload)
    requires Inv(q)
    ensures Inv(AfterResolve(q, id, payload))
  {
    var q' := AfterResolve(q, id, payload);
    forall r: nat | r < |q'.ids| ensures HasOneFate(q', r) {
      assert HasOneFate(q, r);
    }
    forall c <- q'.callbacks ensures Agrees(c, q'.fates) {
      if c in q.callbacks {
        assert Agrees(c, q.fates);
        assert HasOneFate(q, c.registration);
      }
    }
  }

  lemma CancelKeepsInv(q: State, id: string)
    requires Inv(q)
    ensures Inv(AfterCancel(q, id))
  {
    var q' := AfterCancel(q, id);
    forall r: nat | r < |q'.ids| ensures HasOneFate(q', r) {
      assert HasOneFate(q, r);
    }
    forall c <- q'.callbacks ensures Agrees(c, q'.fates) {
      if c in q.callbacks {
        assert Agrees(c, q.fates);
        assert HasOneFate(q, c.registration);
      }
    }
  }

  lemma {:induction false} ClearKeepsInv(q: State, order: seq<string>)
    requires Inv(q)
    ensures Inv(AfterClear(q, order))
    decreases |order|
  {
    if order != [] {
      CancelKeepsInv(q, order[0]);
      ClearKeepsInv(AfterCancel(q, order[0]), order[1..]);
    }
  }

  lemma {:induction false} ClearLeavesNothing(q: State, order: seq<string>)
    requires forall id <- q.pending :: id in order
    ensures AfterClear(q, order).pending == map[]
    decreases |order|
  {
    if order == [] {
      assert q.pending == map[];
    } else {
      var q' := AfterCancel(q, order[0]);
      forall id <- q'.pending ensures id in order[1..] {
        assert id in order && id != order[0];
      }
      ClearLeavesNothing(q', order[1..]);
    }
  }

  lemma OtherCallbackStays(callbacks: seq<Callback>, i: nat, c: Callback)
    requires i < |callbacks|
    ensures c in callbacks[..i] + callbacks[i + 1..] ==> c in callbacks
    ensures c in callbacks && c != callbacks[i] ==> c in callbacks[..i] + callbacks[i + 1..]
  {
    if c in callbacks && c != callbacks[i] {
      var j :| 0 <= j < |callbacks| && callbacks[j] == c;
      assert c == if j < i then callbacks[..i][j] else callbacks[i + 1..][j - i - 1];
    }
  }

  lemma CallbackKeepsInv(q: State, i: nat)
    requires Inv(q) && i < |q.callbacks|
    ensures Inv(AfterCallback(q, i))
  {
    var q' := AfterCallback(q, i);
    assert Agrees(q.callbacks[i], q.fates);
    forall r: nat | r < |q'.ids| ensures HasOneFate(q', r) {
      assert HasOneFate(q, r);
      if q.fates[r].Resolved? {
        OtherCallbackStays(q.callbacks, i, SetResult(r, q.fates[r].payload));
      }
    }
    forall c <- q'.callbacks ensures Agrees(c, q'.fates) {
      OtherCallbackStays(q.callbacks, i, c);
    }
  }

  lemma EndWaitKeepsInv(q: State, w: nat)
    requires Inv(q) && w in q.waiters
    ensures Inv(AfterEndWait(q, w))
  {
    var q' := AfterEndWait(q, w);
    forall r: nat | r < |q'.ids| ensures HasOneFate(q', r) {
      assert HasOneFate(q, r);
    }
    forall c <- q'.callbacks ensures Agrees(c, q'.fates) {
      assert Agrees(c, q.fates);
      assert HasOneFate(q, c.registration);
    }
  }

  lemma BeginWaitKeepsInv(q: State, w: nat, id: string)
    requires Inv(q)
    ensures Inv(AfterBeginWait(q, w, id))
  {
    var q' := AfterBeginWait(q, w, id);
    forall r: nat | r < |q'.ids| ensures HasOneFate(q', r) {
      assert HasOneFate(q, r);
    }
  }

  /** Every step, in every interleaving, keeps the invariant. */
  lemma StepKeepsInv(q: State, a: Action)
    requires Inv(q) && Enabled(q, a)
    ensures Inv(After(q, a))
  {
    match a
    case Register(id) => RegisterKeepsInv(q, id);
    case Resolve(id, payload) => ResolveKeepsInv(q, id, payload);
    case Cancel(id) => CancelKeepsInv(q, id);
    case Clear(order) => ClearKeepsInv(q, order);
    case Run(i) => CallbackKeepsInv(q, i);
    case BeginWait(w, id) => BeginWaitKeepsInv(q, w, id);
    case EndWait(w, _) => EndWaitKeepsInv(q, w);
  }

  // What is settled stays settled

  ghost predicate Keeps(q: State, q': State) {
    && |q'.ids| >= |q.ids| && q'.ids[..|q.ids|] == q.ids
    && (forall r: nat | r < |q.ids| :: KeepsFate(q, q', r))
    && q.ended <= q'.ended
  }

  /** A fate is decided once, a future is set once, and neither changes after that. */
  predicate KeepsFate(q: State, q': State, r: nat) {
    && r < |q.fates| && r < |q'.fates| && r < |q.futures| && r < |q'.futures|
    && (q.fates[r] != Pending ==> q'.fates[r] == q.fates[r])
    && (q.futures[r] != Open ==> q'.futures[r] == q.futures[r])
  }

  lemma KeepsIsTransitive(a: State, b: State, c: State)
    requires Keeps(a, b) && Keeps(b, c)
    ensures Keeps(a, c)
  {
    assert c.ids[..|a.ids|] == c.ids[..|b.ids|][..|a.ids|];
    forall r: nat | r < |a.ids| ensures KeepsFate(a, c, r) {
      assert KeepsFate(a, b, r) && KeepsFate(b, c, r);
    }
  }

  lemma CancelKeeps(q: State, id: string)
    requires Inv(q)
    ensures Keeps(q, AfterCancel(q, id))
  {
    forall r: nat | r < |q.ids| ensures KeepsFate(q, AfterCancel(q, id), r) {
      assert HasOneFate(q, r);
    }
  }

  lemma {:induction false} ClearKeeps(q: State, order: seq<string>)
    requires Inv(q)
    ensures Keeps(q, AfterClear(q, order))
    decreases |order|
  {
    if order != [] {
      CancelKeeps(q, order[0]);
      CancelKeepsInv(q, order[0]);
      ClearKeeps(AfterCancel(q, order[0]), order[1..]);
      KeepsIsTransitive(q, AfterCancel(q, order[0]), AfterClear(q, order));
    }
  }

  lemma StepKeeps(q: State, a: Action)
    requires Inv(q) && Enabled(q, a)
    ensures Keeps(q, After(q, a))
  {
    if a.Clear? {
      ClearKeeps(q, a.order);
    } else {
      forall r: nat | r < |q.ids| ensures KeepsFate(q, After(q, a), r) {
        assert HasOneFate(q, r);
      }
    }
  }

  // Runs

  ghost predicate IsPath(states: seq<State>, actions: seq<Action>) {
    && |states| == |actions| + 1
    && forall i :: 0 <= i < |actions| ==> StepAt(states, actions, i)
  }

  ghost predicate IsRun(states: seq<State>, actions: seq<Action>) {
    IsPath(states, actions) && states[0] == START
  }

  predicate StepAt(states: seq<State>, actions: seq<Action>, i: nat)
    requires i < |actions| && |states| == |actions| + 1
  {
    Enabled(states[i], actions[i]) && states[i + 1] == After(states[i], actions[i])
  }

  lemma {:induction false} PathKeepsInv(states: seq<State>, actions: seq<Action>, i: nat)
    requires IsPath(states, actions) && Inv(states[0]) && i < |states|
    ensures Inv(states[i])
  {
    if i > 0 {
      PathKeepsInv(states, actions, i - 1);
      assert StepAt(states, actions, i - 1);
      StepKeepsInv(states[i - 1], actions[i - 1]);
    }
  }

  lemma RunKeepsInv(states: seq<State>, actions: seq<Action>, i: nat)
    requires IsRun(states, actions) && i < |states|
    ensures Inv(states[i])
  {
    PathKeepsInv(states, actions, i);
  }

  lemma {:induction false} RunKeeps(states: seq<State>, actions: seq<Action>, i: nat, j: nat)
    requires IsRun(states, actions) && i <= j < |states|
    ensures Keeps(states[i], states[j])
    decreases j - i
  {
    RunKeepsInv(states, actions, i);
    if i < j {
      RunKeeps(states, actions, i, j - 1);
      RunKeepsInv(states, actions, j - 1);
      assert StepAt(states, actions, j - 1);
      StepKeeps(states[j - 1], actions[j - 1]);
      KeepsIsTransitive(states[i], states[j - 1], states[j]);
    }
  }

  /** Answering True, at step `i`. */
  predicate ResolvesAt(states: seq<State>, actions: seq<Action>, i: nat, r: nat, payload: Payload) {
    && i < |actions| && i < |states| && actions[i].Resolve? && actions[i].payload == payload
    && actions[i].id in states[i].pending && states[i].pending[actions[i].id] == r
  }

  lemma ResolvedStays(states: seq<State>, actions: seq<Action>, i: nat, j: nat, r: nat, p: Payload)
    requires IsRun(states, actions) && ResolvesAt(states, actions, i, r, p) && i < j < |states|
    ensures r < |states[j].fates| && states[j].fates[r] == Resolved(p)
  {
    RunKeepsInv(states, actions, i);
    assert StepAt(states, actions, i);
    RunKeeps(states, actions, i + 1, j);
    assert KeepsFate(states[i + 1], states[j], r);
  }

  /** Over every run, each registration is resolved at most once. */
  lemma ResolvesOnce(states: seq<State>, actions: seq<Action>, i: nat, j: nat, r: nat, p: Payload, p': Payload)
    requires IsRun(states, actions) && ResolvesAt(states, actions, i, r, p) && ResolvesAt(states, actions, j, r, p')
    ensures i == j
  {
    RunKeepsInv(states, actions, i);
    RunKeepsInv(states, actions, j);
    assert HasOneFate(states[i], r) && HasOneFate(states[j], r);
    if i < j {
      ResolvedStays(states, actions, i, j, r, p);
    } else if j < i {
      ResolvedStays(states, actions, j, i, r, p');
    }
  }

  lemma OnlyResolveResolves(q: State, a: Action, r: nat)
    requires Inv(q) && Enabled(q, a) && r < |After(q, a).fates| && After(q, a).fates[r].Resolved?
    ensures (r < |q.fates| && q.fates[r] == After(q, a).fates[r])
      || (a.Resolve? && a.id in q.pending && q.pending[a.id] == r && After(q, a).fates[r] == Resolved(a.payload))
  {
    if a.Clear? {
      ClearResolvesNothing(q, a.order, r);
    }
  }

  lemma {:induction false} ClearResolvesNothing(q: State, order: seq<string>, r: nat)
    requires Inv(q) && r < |AfterClear(q, order).fates| && AfterClear(q, order).fates[r].Resolved?
    ensures r < |q.fates| && q.fates[r] == AfterClear(q, order).fates[r]
    decreases |order|
  {
    if order != [] {
      CancelKeepsInv(q, order[0]);
      ClearResolvesNothing(AfterCancel(q, order[0]), order[1..], r);
    }
  }

  lemma {:induction false} ResolvedBy(states: seq<State>, actions: seq<Action>, i: nat, r: nat) returns (k: nat)
    requires IsRun(states, actions) && i < |states| && r < |states[i].fates| && states[i].fates[r].Resolved?
    ensures k < i && ResolvesAt(states, actions, k, r, states[i].fates[r].payload)
  {
    assert i > 0;
    RunKeepsInv(states, actions, i - 1);
    assert StepAt(states, actions, i - 1);
    OnlyResolveResolves(states[i - 1], actions[i - 1], r);
    if r < |states[i - 1].fates| && states[i - 1].fates[r] == states[i].fates[r] {
      k := ResolvedBy(states, actions, i - 1, r);
    } else {
      k := i - 1;
    }
  }

  /** Over every run, a waiting tool is given a payload only if the one resolve of its registration that answered True
      carried it. */
  lemma AnswerWasResolved(states: seq<State>, actions: seq<Action>, i: nat) returns (k: nat)
    requires IsRun(states, actions) && i < |actions| && actions[i].EndWait? && StepAt(states, actions, i)
    requires OutcomeOf(states[i], actions[i].waiter, actions[i].ending).Answer?
    ensures k < i
    ensures ResolvesAt(states, actions, k, states[i].waiters[actions[i].waiter].registration,
                       OutcomeOf(states[i], actions[i].waiter, actions[i].ending).payload)
  {
    RunKeepsInv(states, actions, i);
    assert StepAt(states, actions, i);
    var r := states[i].waiters[actions[i].waiter].registration;
    assert HasOneFate(states[i], r);
    k := ResolvedBy(states, actions, i, r);
  }

  /** Once an answer is resolved and the callbacks have run, the first wait to end gets it, if it looks. */
  lemma ResolvedIsDelivered(q: State, w: nat)
    requires Inv(q) && w in q.waiters && q.callbacks == [] && q.waiters[w].id !in q.ended
    requires q.fates[q.waiters[w].registration].Resolved?
    ensures Enabled(q, EndWait(w, Settled))
    ensures OutcomeOf(q, w, Settled) == Answer(q.fates[q.waiters[w].registration].payload)
  {
    assert HasOneFate(q, q.waiters[w].registration);
  }

  // Whether an accepted answer arrives

  ghost predicate WaitedFor(q: State, r: nat) {
    exists w <- q.waiters :: q.waiters[w].registration == r
  }

  /** Step `i` gives a tool that waits for registration `r` the answer `p`. */
  predicate DeliversAt(states: seq<State>, actions: seq<Action>, i: nat, r: nat, p: Payload) {
    && i < |actions| && i < |states| && actions[i].EndWait? && Enabled(states[i], actions[i])
    && states[i].waiters[actions[i].waiter].registration == r
    && OutcomeOf(states[i], actions[i].waiter, actions[i].ending) == Answer(p)
  }

  /** From `q` on it may still happen that a tool is given the answer `p` to registration `r`. */
  ghost predicate MayBeDelivered(q: State, r: nat, p: Payload) {
    exists states, actions, i :: IsPath(states, actions) && states[0] == q && DeliversAt(states, actions, i, r, p)
  }

  lemma {:induction false} ClearKeepsWaiters(q: State, order: seq<string>)
    ensures AfterClear(q, order).waiters == q.waiters
    decreases |order|
  {
    if order != [] {
      ClearKeepsWaiters(AfterCancel(q, order[0]), order[1..]);
    }
  }

  /** Nobody begins to wait for a registration that has left the table. */
  lemma NobodyJoins(q: State, a: Action, r: nat)
    requires Inv(q) && Enabled(q, a) && r < |q.fates| && q.fates[r] != Pending && !WaitedFor(q, r)
    ensures !WaitedFor(After(q, a), r)
  {
    assert HasOneFate(q, r);
    if a.Clear? {
      ClearKeepsWaiters(q, a.order);
    }
    forall w <- After(q, a).waiters ensures After(q, a).waiters[w].registration != r {
      assert w in q.waiters ==> q.waiters[w].registration != r;
    }
  }

  lemma {:induction false} NobodyEverJoins(states: seq<State>, actions: seq<Action>, i: nat, r: nat)
    requires IsPath(states, actions) && Inv(states[0]) && i < |states|
    requires r < |states[0].fates| && states[0].fates[r] != Pending && !WaitedFor(states[0], r)
    ensures r < |states[i].fates| && states[i].fates[r] != Pending && !WaitedFor(states[i], r)
  {
    if i > 0 {
      NobodyEverJoins(states, actions, i - 1, r);
      PathKeepsInv(states, actions, i - 1);
      assert StepAt(states, actions, i - 1);
      StepKeeps(states[i - 1], actions[i - 1]);
      assert KeepsFate(states[i - 1], states[i], r);
      NobodyJoins(states[i - 1], actions[i - 1], r);
    }
  }

  lemma WaitedForMayBeDelivered(q: State, id: string, p: Payload)
    requires Inv(q) && id in q.pending && WaitedFor(q, q.pending[id])
    ensures MayBeDelivered(AfterResolve(q, id, p), q.pending[id], p)
  {
    var r := q.pending[id];
    var w :| w in q.waiters && q.waiters[w].registration == r;
    assert HasOneFate(q, r);
    var a := AfterResolve(q, id, p);
    var b := After(a, Run(|q.callbacks|));
    var states, actions := [a, b, After(b, EndWait(w, Settled))], [Run(|q.callbacks|), EndWait(w, Settled)];
    assert StepAt(states, actions, 0) && StepAt(states, actions, 1);
    assert DeliversAt(states, actions, 1, r, p);
  }

  /** An answer that resolve has accepted can still arrive if and only if some tool was already waiting for it: waiting
      begins too late once the registration has left the table. */
  lemma AcceptedMayBeDeliveredIff(q: State, id: string, p: Payload)
    requires Inv(q) && id in q.pending
    ensures MayBeDelivered(AfterResolve(q, id, p), q.pending[id], p) <==> WaitedFor(q, q.pending[id])
  {
    var r, a := q.pending[id], AfterResolve(q, id, p);
    if WaitedFor(q, r) {
      WaitedForMayBeDelivered(q, id, p);
    } else if MayBeDelivered(a, r, p) {
      var states, actions, i :| IsPath(states, actions) && states[0] == a && DeliversAt(states, actions, i, r, p);
      ResolveKeepsInv(q, id, p);
      NobodyEverJoins(states, actions, i, r);
    }
  }

  /** A run that loses an answer: it is accepted and set before anyone waits, and then nobody can. */
  lemma EarlyAnswerIsLost(id: string, p: Payload, w: nat) returns (states: seq<State>, actions: seq<Action>)
    ensures IsRun(states, actions) && ResolvesAt(states, actions, 1, 0, p)
    ensures actions[|actions| - 1] == BeginWait(w, id)
    ensures states[|actions|].waiters == map[] && states[|actions|].futures == [Done(p)]
  {
    var a := AfterRegister(START, id);
    var b := AfterResolve(a, id, p);
    var c := AfterCallback(b, 0);
    states := [START, a, b, c, AfterBeginWait(c, w, id)];
    actions := [Register(id), Resolve(id, p), Run(0), BeginWait(w, id)];
    assert StepAt(states, actions, 0) && StepAt(states, actions, 1) && StepAt(states, actions, 2);
    assert StepAt(states, actions, 3);
  }

  // Fresh request ids

  ghost predicate IsFresh(states: seq<State>, actions: seq<Action>) {
    && IsRun(states, actions)
    && forall i :: 0 <= i < |actions| && actions[i].Register? ==> actions[i].id !in states[i].ids
  }

  predicate EndedIsGone(q: State) {
    forall id <- q.ended :: id in q.ids && id !in q.pending
  }

  lemma {:induction false} ClearKeepsGone(q: State, order: seq<string>)
    requires EndedIsGone(q)
    ensures EndedIsGone(AfterClear(q, order))
    decreases |order|
  {
    if order != [] {
      ClearKeepsGone(AfterCancel(q, order[0]), order[1..]);
    }
  }

  lemma {:induction false} FreshKeepsGone(states: seq<State>, actions: seq<Action>, i: nat)
    requires IsFresh(states, actions) && i < |states|
    ensures EndedIsGone(states[i])
  {
    if i > 0 {
      FreshKeepsGone(states, actions, i - 1);
      RunKeepsInv(states, actions, i - 1);
      assert StepAt(states, actions, i - 1);
      if actions[i - 1].Clear? {
        ClearKeepsGone(states[i - 1], actions[i - 1].order);
      }
    }
  }

  /** With fresh ids, after a wait has ended its id is never pending again,
      so that every later resolve answers False. */
  lemma EndedStaysUnresolved(states: seq<State>, actions: seq<Action>, i: nat, j: nat)
    requires IsFresh(states, actions) && i < j < |states| && actions[i].EndWait?
    ensures actions[i].waiter in states[i].waiters && states[i].waiters[actions[i].waiter].id !in states[j].pending
  {
    assert StepAt(states, actions, i);
    RunKeeps(states, actions, i + 1, j);
    FreshKeepsGone(states, actions, j);
  }

  /** A wait that ends takes another registration out of the table exactly if its id has been registered again. */
  lemma EndWaitSparesOthersIff(q: State, w: nat)
    requires Inv(q) && w in q.waiters
    ensures var waiter := q.waiters[w];
      (forall r: nat | r < |q.ids| && r != waiter.registration && q.fates[r] == Pending ::
         AfterEndWait(q, w).fates[r] == Pending)
      <==> (waiter.id in q.pending ==> q.pending[waiter.id] == waiter.registration)
  {
    var waiter := q.waiters[w];
    if waiter.id in q.pending && q.pending[waiter.id] != waiter.registration {
      var r := q.pending[waiter.id];
      assert HasOneFate(q, r);
      assert AfterEndWait(q, w).fates[r] == Abandoned;
    }
  }

  /** And that can happen: wait, cancel, register the same id again, and the first wait ends. */
  lemma ReusedIdIsLost(id: string) returns (states: seq<State>, actions: seq<Action>)
    ensures IsRun(states, actions) && LosesRegistration(states, actions)
  {
    var a := AfterRegister(START, id);
    var b := AfterBeginWait(a, 0, id);
    var c := AfterCancel(b, id);
    var d := AfterRegister(c, id);
    states := [START, a, b, c, d, AfterEndWait(d, 0)];
    actions := [Register(id), BeginWait(0, id), Cancel(id), Register(id), EndWait(0, TimedOut)];
    assert StepAt(states, actions, 0) && StepAt(states, actions, 1) && StepAt(states, actions, 2);
    assert StepAt(states, actions, 3) && StepAt(states, actions, 4);
  }

  /** The run ends with a wait on the first registration that takes away the second. */
  predicate LosesRegistration(states: seq<State>, actions: seq<Action>) {
    && |states| == 6 && |actions| == 5 && actions[4] == EndWait(0, TimedOut)
    && 0 in states[4].waiters && states[4].waiters[0].registration == 0
    && |states[4].fates| == |states[5].fates| == 2
    && states[4].fates[1] == Pending && states[5].fates[1] == Abandoned
  }
}
