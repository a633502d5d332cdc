/**
The connector broker: its table, updated in place, follows the protocol; and the window of its timeouts.
*/
module ConnectorBridge {
  import opened BridgeProtocol

  const MAX_TIMEOUT := 120.0
  const MIN_TIMEOUT := 5.0

  /** What a timeout may be given as: something that is no number, a number, or an infinity. */
  datatype Seconds = Unreadable | NotANumber | Finite(value: real) | PlusInfinity | MinusInfinity

  function Clamped(seconds: real): real {
    if seconds < MIN_TIMEOUT then MIN_TIMEOUT else if seconds > MAX_TIMEOUT then MAX_TIMEOUT else seconds
  }

  function ClampTimeout(value: Seconds, default: real): (seconds: real)
    ensures MIN_TIMEOUT <= seconds <= MAX_TIMEOUT
    ensures value.Finite? && MIN_TIMEOUT <= value.value <= MAX_TIMEOUT ==> seconds == value.value
    ensures value.MinusInfinity? || (value.Finite? && value.value < MIN_TIMEOUT) ==> seconds == 5.0
    ensures value.PlusInfinity? || (value.Finite? && value.value > MAX_TIMEOUT) ==> seconds == 120.0
    ensures (value.Unreadable? || value.NotANumber?) && MIN_TIMEOUT <= default <= MAX_TIMEOUT ==> seconds == default
  {
    match value
    case Finite(v) => Clamped(v)
    case PlusInfinity => MAX_TIMEOUT
    case MinusInfinity => MIN_TIMEOUT
    case _ => Clamped(default)
  }

  function Grace(value: Seconds): (seconds: real)
    ensures seconds >= 0.0
    ensures value.Finite? && value.value > 0.0 ==> seconds == value.value
  {
    if value.Finite? && value.value > 0.0 then value.value else 0.0
  }

  class ConnectorBridgeBroker {
    var pending: map<string, nat>

    /** Of the waiting loops: the futures, the callbacks still to run, and the waits. */
    var futures: seq<Future>
    var callbacks: seq<Callback>
    var waiters: map<nat, Waiter>

    ghost var ids: seq<string>
    ghost var fates: seq<Fate>
    ghost var ended: set<string>

    ghost function Contents(): State
      reads this
    {
      State(pending, futures, callbacks, waiters, ids, fates, ended)
    }

    constructor ()
      ensures Contents() == START
    {
      pending, futures, callbacks, waiters, ids, fates, ended := map[], [], [], map[], [], [], {};
    }

    method Register(id: string) returns (ok: bool)
      modifies this
      ensures Contents() == After(old(Contents()), BridgeProtocol.Register(id))
      ensures ok <==> id !in old(pending)
    {
      if id in pending {
        return false;
      }
      pending := pending[id := |futures|];
      futures, ids, fates := futures + [Open], ids + [id], fates + [Pending];
      ok := true;
    }

    method Resolve(id: string, payload: Payload) returns (ok: bool)
      modifies this
      ensures Contents() == After(old(Contents()), BridgeProtocol.Resolve(id, payload))
      ensures ok <==> id in old(pending)
    {
      if id !in pending {
        return false;
      }
      var registration := pending[id];
      pending := pending - {id};
      callbacks := callbacks + [SetResult(registration, payload)];
      fates := WithFate(fates, registration, Resolved(payload));
      ok := true;
    }

    method Cancel(id: string) returns (ok: bool)
      modifies this
      ensures Contents() == After(old(Contents()), BridgeProtocol.Cancel(id))
      ensures ok <==> id in old(pending)
    {
      if id !in pending {
        return false;
      }
      var registration := pending[id];
      pending := pending - {id};
      callbacks := callbacks + [CancelFuture(registration)];
      fates := WithFate(fates, registration, Withdrawn);
      ok := true;
    }

    /** Withdraw everything, in the order given. */
    method Clear(order: seq<string>)
      requires forall id <- pending :: id in order
      modifies this
      ensures Contents() == After(old(Contents()), BridgeProtocol.Clear(order)) && pending == map[]
    {
      ghost var before := Contents();
      ClearLeavesNothing(before, order);
      var i := 0;
      assert order[0..] == order;
      while i < |order|
        invariant 0 <= i <= |order|
        invariant AfterClear(Contents(), order[i..]) == AfterClear(before, order)
      {
        assert order[i..][1..] == order[i + 1..];
        var ok := Cancel(order[i]);
        i := i + 1;
      }
    }

    /** The loop runs a callback. */
    method RunCallback(i: nat)
      requires i < |callbacks|
      modifies this
      ensures Contents() == After(old(Contents()), Run(i))
    {
      var callback := callbacks[i];
      callbacks := callbacks[..i] + callbacks[i + 1..];
      var r := callback.registration;
      if r < |futures| && futures[r] == Open {
        match callback
        case SetResult(_, payload) => futures := futures[r := Done(payload)];
        case CancelFuture(_) => futures := futures[r := Cancelled];
      }
    }

    method BeginWait(w: nat, id: string) returns (ok: bool)
      requires w !in waiters
      modifies this
      ensures Contents() == After(old(Contents()), BridgeProtocol.BeginWait(w, id))
      ensures ok <==> id in pending
    {
      if id !in pending {
        return false;
      }
      waiters := waiters[w := Waiter(id, pending[id])];
      ok := true;
    }

    method EndWait(w: nat, ending: Ending) returns (outcome: Outcome)
      requires Enabled(Contents(), BridgeProtocol.EndWait(w, ending))
      modifies this
      ensures Contents() == After(old(Contents()), BridgeProtocol.EndWait(w, ending))
      ensures outcome == OutcomeOf(old(Contents()), w, ending)
    {
      var waiter := waiters[w];
      match ending {
        case TimedOut => outcome := Timeout;
        case RunCancelled => outcome := Cancellation;
        case Settled =>
          match futures[waiter.registration]
          case Done(payload) => outcome := Answer(payload);
          case _ => outcome := Cancellation;
      }
      if waiter.id in pending {
        fates := WithFate(fates, pending[waiter.id], Abandoned);
        pending := pending - {waiter.id};
      }
      assert pending == old(pending) - {waiter.id};
      if futures[waiter.registration] == Open {
        futures := futures[waiter.registration := Cancelled];
      }
      waiters := waiters - {w};
      ended := ended + {waiter.id};
    }
  }
}
