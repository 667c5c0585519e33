// Service calls of a rosbridge client (roslibrust_rosbridge/src/client.rs). A call checks the
// flag, takes the lock for reading, checks the flag again, files a one-shot channel under a
// new id, sends the request and waits without the lock. Each of these is a step of its own:
// the lock for reading does not stop the spin task from setting the flag and emptying the
// table in between. Responses, timeouts, lost connections, failing reconnections and abandoned
// calls interleave with this in any order.
module RosbridgeCalls {
  import opened Wrappers
  import opened RosbridgeConnection

  type Value = string

  datatype Outcome = Response(value: Value) | SendFailed | TimedOut | Reset | Lost | Abandoned

  // `epoch` is the connection on which the request is sent.
  datatype Call =
    | Checked
    | Reading
    | Rechecked
    | Inserted(epoch: nat)
    | Waiting(epoch: nat)
    | Leaving(epoch: nat)
    | Done(outcome: Outcome)

  datatype Delivery = Delivery(value: Value, epoch: nat)

  // `tracked` is the table of calls in flight, with the connection each was filed on;
  // `delivered` holds what was put into the one-shot channels.
  datatype State = State(
    connection: Connection,
    calls: map<nat, Call>,
    tracked: map<nat, nat>,
    delivered: map<nat, Delivery>)

  const INITIAL: State := State(CONNECTED, map[], map[], map[])

  datatype Step =
    | Begin(id: nat)
    | Lock(id: nat)
    | Recheck(id: nat)
    | Insert(id: nat)
    | Send(id: nat, succeeds: bool)
    | Wake(id: nat)
    | WakeReset(id: nat)
    | GiveUp(id: nat)
    | Untrack(id: nat)
    | Abandon(id: nat)
    | Receive(id: nat, value: Value)
    | SpinTask(step: SpinStep)

  predicate Holds(s: State, id: nat) {
    id in s.calls && (s.calls[id].Reading? || s.calls[id].Rechecked? || s.calls[id].Inserted?)
  }

  // The call has not been entered in the table yet.
  predicate Untracked(call: Call) { call.Checked? || call.Reading? || call.Rechecked? }

  predicate Enabled(s: State, step: Step) {
    match step
    case Begin(id) => id !in s.calls && !s.connection.disconnected
    case Lock(id) => id in s.calls && s.calls[id].Checked? && !WriteLocked(s.connection)
    case Recheck(id) => id in s.calls && s.calls[id].Reading?
    case Insert(id) => id in s.calls && s.calls[id].Rechecked?
    case Send(id, _) => id in s.calls && s.calls[id].Inserted?
    case Wake(id) => id in s.calls && s.calls[id].Waiting? && id in s.delivered
    case WakeReset(id) => id in s.calls && s.calls[id].Waiting? && id !in s.delivered && id !in s.tracked
    case GiveUp(id) => id in s.calls && s.calls[id].Waiting? && id !in s.delivered
    case Untrack(id) => id in s.calls && s.calls[id].Leaving?
    case Abandon(id) => id in s.calls && !s.calls[id].Done?
    case Receive(_, _) => s.connection.phase.Spinning?
    case SpinTask(step) => CanSpin(s.connection, step)
  }

  function SetCall(s: State, id: nat, call: Call): State { s.(calls := s.calls[id := call]) }

  function Release(s: State, id: nat): State { s.(connection := StopReading(s.connection, id)) }

  function Apply(s: State, step: Step): State
    requires Enabled(s, step)
  {
    match step
    case Begin(id) => SetCall(s, id, Checked)
    case Lock(id) => SetCall(s.(connection := StartReading(s.connection, id)), id, Reading)
    case Recheck(id) =>
      if s.connection.disconnected then Release(SetCall(s, id, Done(Lost)), id) else SetCall(s, id, Rechecked)
    case Insert(id) =>
      SetCall(s.(tracked := s.tracked[id := s.connection.epoch]), id, Inserted(s.connection.epoch))
    case Send(id, succeeds) =>
      if succeeds then Release(SetCall(s, id, Waiting(s.calls[id].epoch)), id)
      else Release(SetCall(s.(tracked := s.tracked - {id}), id, Done(SendFailed)), id)
    case Wake(id) => SetCall(s, id, Done(Response(s.delivered[id].value)))
    case WakeReset(id) => SetCall(s, id, Done(Reset))
    case GiveUp(id) => SetCall(s, id, Leaving(s.calls[id].epoch))
    case Untrack(id) => SetCall(s.(tracked := s.tracked - {id}), id, Done(TimedOut))
    case Abandon(id) => Release(SetCall(s, id, Done(Abandoned)), id)
    case Receive(id, value) =>
      if id in s.tracked then
        s.(tracked := s.tracked - {id}, delivered := s.delivered[id := Delivery(value, s.connection.epoch)])
      else s
    case SpinTask(step) =>
      var s' := s.(connection := Spin(s.connection, step));
      if step.DropCalls? || step.TakeLock? then s'.(tracked := map[]) else s'
  }

  /******* what every step keeps *******/

  ghost predicate LocksMatch(s: State) {
    Consistent(s.connection) && forall id :: id in s.connection.readers <==> Holds(s, id)
  }

  // Every call in the table belongs to the current connection.
  ghost predicate TrackedIsCurrent(s: State) {
    && (forall id <- s.tracked.Keys :: s.tracked[id] == s.connection.epoch && id in s.calls && id !in s.delivered)
    && (forall id <- s.tracked.Keys :: !Untracked(s.calls[id]))
    && (s.connection.phase.Connecting? ==> s.tracked == map[])
  }

  predicate InFlight(call: Call) { call.Inserted? || call.Waiting? || call.Leaving? }

  // A request in flight was sent on this connection or an earlier one.
  ghost predicate EpochsMatch(s: State) {
    forall id <- s.calls.Keys | InFlight(s.calls[id]) :: s.calls[id].epoch <= s.connection.epoch
  }

  // A request that is being sent is sent on this connection.
  ghost predicate SendingOnThisConnection(s: State) {
    forall id <- s.calls.Keys | s.calls[id].Inserted? :: s.calls[id].epoch == s.connection.epoch
  }

  ghost predicate TrackedOnItsConnection(s: State) {
    forall id <- s.calls.Keys | InFlight(s.calls[id]) && id in s.tracked :: s.tracked[id] == s.calls[id].epoch
  }

  // What was delivered was delivered on the connection of the request.
  ghost predicate DeliveriesMatch(s: State) {
    && (forall id <- s.delivered.Keys :: id in s.calls && !Untracked(s.calls[id]))
    && (forall id <- s.delivered.Keys | InFlight(s.calls[id]) :: s.delivered[id].epoch == s.calls[id].epoch)
  }

  // A call that got a response got what was delivered to it.
  ghost predicate ResponsesMatch(s: State) {
    forall id <- s.calls.Keys | s.calls[id].Done? && s.calls[id].outcome.Response? ::
      id in s.delivered && s.delivered[id].value == s.calls[id].outcome.value
  }

  ghost predicate Invariant(s: State) {
    && LocksMatch(s) && TrackedIsCurrent(s) && EpochsMatch(s) && SendingOnThisConnection(s)
    && TrackedOnItsConnection(s) && DeliveriesMatch(s) && ResponsesMatch(s)
  }

  lemma StepKeepsLocks(s: State, step: Step)
    requires LocksMatch(s) && Enabled(s, step)
    ensures LocksMatch(Apply(s, step))
  {
  }

  lemma StepKeepsTracked(s: State, step: Step)
    requires LocksMatch(s) && TrackedIsCurrent(s) && DeliveriesMatch(s) && Enabled(s, step)
    ensures TrackedIsCurrent(Apply(s, step))
  {
    assert forall id <- s.calls.Keys | s.calls[id].Rechecked? :: Holds(s, id);
  }

  lemma StepKeepsEpochs(s: State, step: Step)
    requires EpochsMatch(s) && Enabled(s, step)
    ensures EpochsMatch(Apply(s, step))
  {
  }

  lemma StepKeepsSending(s: State, step: Step)
    requires LocksMatch(s) && SendingOnThisConnection(s) && Enabled(s, step)
    ensures SendingOnThisConnection(Apply(s, step))
  {
    assert forall id <- s.calls.Keys | s.calls[id].Inserted? :: Holds(s, id);
  }

  lemma StepKeepsDeliveries(s: State, step: Step)
    requires TrackedIsCurrent(s) && TrackedOnItsConnection(s) && DeliveriesMatch(s) && Enabled(s, step)
    ensures DeliveriesMatch(Apply(s, step))
  {
  }

  lemma StepKeepsTrackedEpochs(s: State, step: Step)
    requires TrackedIsCurrent(s) && TrackedOnItsConnection(s) && Enabled(s, step)
    ensures TrackedOnItsConnection(Apply(s, step))
  {
  }

  lemma StepKeepsResponses(s: State, step: Step)
    requires TrackedIsCurrent(s) && ResponsesMatch(s) && Enabled(s, step)
    ensures ResponsesMatch(Apply(s, step))
  {
  }

  lemma StepKeepsInvariant(s: State, step: Step)
    requires Invariant(s) && Enabled(s, step)
    ensures Invariant(Apply(s, step))
  {
    hide LocksMatch, TrackedIsCurrent, EpochsMatch, SendingOnThisConnection, TrackedOnItsConnection, DeliveriesMatch;
    hide ResponsesMatch, Apply;
    StepKeepsLocks(s, step);
    StepKeepsTracked(s, step);
    StepKeepsEpochs(s, step);
    StepKeepsSending(s, step);
    StepKeepsDeliveries(s, step);
    StepKeepsTrackedEpochs(s, step);
    StepKeepsResponses(s, step);
  }

  /******* the client *******/

  // Each method carries out one step on the fields. `Valid` is what the steps keep.
  class Client {
    var connection: Connection
    var calls: map<nat, Call>
    var tracked: map<nat, nat>
    var delivered: map<nat, Delivery>

    function Current(): State
      reads this
    {
      State(connection, calls, tracked, delivered)
    }

    ghost predicate Valid()
      reads this
    {
      Invariant(Current())
    }

    constructor ()
      ensures Valid() && Current() == INITIAL
    {
      connection, calls, tracked, delivered := CONNECTED, map[], map[], map[];
    }

    // The first look at the flag, without any lock.
    method BeginCall(id: nat) returns (r: Result<(), Outcome>)
      requires Valid() && id !in calls
      modifies this`calls
      ensures Valid() && id !in tracked
      ensures r == if connection.disconnected then Err(Lost) else Ok(())
      ensures r.Ok? ==> Enabled(old(Current()), Begin(id)) && Current() == Apply(old(Current()), Begin(id))
      ensures r.Ok? ==> calls == old(calls)[id := Checked]
      ensures r.Err? ==> calls == old(calls)
    {
      if connection.disconnected {
        return Err(Lost);
      }
      StepKeepsInvariant(Current(), Begin(id));
      calls := calls[id := Checked];
      r := Ok(());
    }

    // With the lock held: the second look at the flag. A call that finds it set ends without
    // having been in the table.
    method CheckAgain(id: nat) returns (r: Result<(), Outcome>)
      requires Valid() && Enabled(Current(), Recheck(id))
      modifies this`calls, this`connection
      ensures Valid() && Current() == Apply(old(Current()), Recheck(id))
      ensures r == if old(connection).disconnected then Err(Lost) else Ok(())
      ensures id !in tracked && (r.Err? <==> calls[id].Done?) && (r.Ok? <==> id in connection.readers)
    {
      StepKeepsInvariant(Current(), Recheck(id));
      UntrackedIsUnknown(Current(), id);
      if connection.disconnected {
        calls := calls[id := Done(Lost)];
        connection := StopReading(connection, id);
        return Err(Lost);
      }
      calls := calls[id := Rechecked];
      r := Ok(());
    }

    // The entry in the table, whatever the flag says by now. The id is new there, and the
    // connection cannot be replaced before the request is sent.
    method TrackCall(id: nat)
      requires Valid() && Enabled(Current(), Insert(id))
      modifies this`tracked, this`calls
      ensures Valid() && Current() == Apply(old(Current()), Insert(id))
      ensures tracked - {id} == old(tracked) && id in tracked && tracked[id] == connection.epoch
      ensures !Enabled(Current(), SpinTask(TakeLock))
    {
      StepKeepsInvariant(Current(), Insert(id));
      UntrackedIsUnknown(Current(), id);
      assert Holds(Current(), id);
      tracked := tracked[id := connection.epoch];
      calls := calls[id := Inserted(connection.epoch)];
    }

    // With the lock held: the request is written to the connection of the entry, or the entry
    // is taken back.
    method SendRequest(id: nat, succeeds: bool) returns (r: Result<(), Outcome>)
      requires Valid() && Enabled(Current(), Send(id, succeeds))
      modifies this`tracked, this`calls, this`connection
      ensures Valid() && Current() == Apply(old(Current()), Send(id, succeeds))
      ensures r == if succeeds then Ok(()) else Err(SendFailed)
      ensures r.Ok? ==> tracked == old(tracked) && calls[id] == Waiting(connection.epoch)
      ensures r.Err? ==> tracked == old(tracked) - {id} && calls[id] == Done(SendFailed)
      ensures id !in connection.readers
    {
      StepKeepsInvariant(Current(), Send(id, succeeds));
      if !succeeds {
        tracked := tracked - {id};
        calls := calls[id := Done(SendFailed)];
        connection := StopReading(connection, id);
        return Err(SendFailed);
      }
      calls := calls[id := Waiting(calls[id].epoch)];
      connection := StopReading(connection, id);
      r := Ok(());
    }

    // A response goes into the channel of the call that it names, once: the call leaves the
    // table, had no response before, and can return this one if it still waits, on the
    // connection on which its request was sent. No other call notices, and a response with an
    // unknown id changes nothing.
    method HandleResponse(id: nat, value: Value)
      requires Valid() && Enabled(Current(), Receive(id, value))
      modifies this`tracked, this`delivered
      ensures Valid() && Current() == Apply(old(Current()), Receive(id, value))
      ensures id !in old(tracked) ==> Current() == old(Current())
      ensures id in old(tracked) ==>
                && tracked == old(tracked) - {id}
                && delivered - {id} == old(delivered) && id in delivered && delivered[id].value == value
                && id in calls && (InFlight(calls[id]) ==> delivered[id].epoch == calls[id].epoch)
                && (calls[id].Waiting? ==>
                      && Enabled(Current(), Wake(id))
                      && Apply(Current(), Wake(id)).calls[id] == Done(Response(value)))
      ensures Apply(Current(), Receive(id, value)) == Current()
    {
      hide LocksMatch, EpochsMatch, SendingOnThisConnection;
      StepKeepsInvariant(Current(), Receive(id, value));
      if id !in tracked {
        return;
      }
      assert id !in delivered;
      tracked := tracked - {id};
      delivered := delivered[id := Delivery(value, connection.epoch)];
    }

    // The timeout of a call that has stopped waiting. Whatever response comes later is ignored.
    method StopTracking(id: nat)
      requires Valid() && Enabled(Current(), Untrack(id))
      modifies this`tracked, this`calls
      ensures Valid() && Current() == Apply(old(Current()), Untrack(id))
      ensures tracked == old(tracked) - {id} && calls[id] == Done(TimedOut)
      ensures forall value | Enabled(Current(), Receive(id, value)) ::
                Apply(Current(), Receive(id, value)) == Current()
    {
      StepKeepsInvariant(Current(), Untrack(id));
      tracked := tracked - {id};
      calls := calls[id := Done(TimedOut)];
    }

    // The cleanup right after the flag is set, which needs no more than the lock for reading:
    // the table is emptied, and every call that waits can finish at once.
    method DropPendingCalls()
      requires Valid() && Enabled(Current(), SpinTask(DropCalls))
      modifies this`connection, this`tracked
      ensures Valid() && Current() == Apply(old(Current()), SpinTask(DropCalls))
      ensures tracked == map[] && connection.disconnected
      ensures forall id <- calls.Keys | calls[id].Waiting? ::
                Enabled(Current(), Wake(id)) || Enabled(Current(), WakeReset(id))
    {
      StepKeepsInvariant(Current(), SpinTask(DropCalls));
      connection := connection.(phase := Retrying);
      tracked := map[];
    }

    // The start of a reconnection: the lock is taken and the table is emptied once more, after
    // which every waiting call can finish.
    method BeginReconnect()
      requires Valid() && Enabled(Current(), SpinTask(TakeLock))
      modifies this`connection, this`tracked
      ensures Valid() && Current() == Apply(old(Current()), SpinTask(TakeLock))
      ensures tracked == map[] && connection.readers == {}
      ensures forall id <- calls.Keys | calls[id].Waiting? ::
                Enabled(Current(), Wake(id)) || Enabled(Current(), WakeReset(id))
    {
      StepKeepsInvariant(Current(), SpinTask(TakeLock));
      connection := connection.(phase := Connecting);
      tracked := map[];
    }

    // No entry is left over from the connection that is replaced.
    method ReplaceConnection()
      requires Valid() && Enabled(Current(), SpinTask(Connect))
      modifies this`connection
      ensures Valid() && Current() == Apply(old(Current()), SpinTask(Connect))
      ensures tracked == map[] && connection.epoch == old(connection).epoch + 1
    {
      StepKeepsInvariant(Current(), SpinTask(Connect));
      connection := connection.(phase := Restoring, epoch := connection.epoch + 1);
    }
  }

  lemma UntrackedIsUnknown(s: State, id: nat)
    requires Invariant(s) && id in s.calls && Untracked(s.calls[id])
    ensures id !in s.tracked && id !in s.delivered
  {
  }

  /******* runs *******/

  ghost predicate IsRun(states: seq<State>, steps: seq<Step>) {
    && |states| == |steps| + 1 && states[0] == INITIAL
    && forall i | 0 <= i < |steps| :: Enabled(states[i], steps[i]) && states[i + 1] == Apply(states[i], steps[i])
  }

  lemma {:induction false} RunKeepsInvariant(states: seq<State>, steps: seq<Step>, i: nat)
    requires IsRun(states, steps) && i < |states|
    ensures Invariant(states[i])
    decreases i
  {
    hide Apply, Enabled;
    if i > 0 {
      RunKeepsInvariant(states, steps, i - 1);
      hide Invariant;
      StepKeepsInvariant(states[i - 1], steps[i - 1]);
    }
  }

  // In every state of every run, each call in the table was filed on the current connection;
  // so once a reconnection has replaced the connection, no waiter is tracked for a request
  // that was sent before, and such a waiter does not have to wait any longer.
  lemma NoWaiterOfAnEarlierConnection(states: seq<State>, steps: seq<Step>, i: nat)
    requires IsRun(states, steps) && i < |states|
    ensures forall id <- states[i].tracked.Keys :: states[i].tracked[id] == states[i].connection.epoch
    ensures forall id <- states[i].calls.Keys | states[i].calls[id].Waiting? ::
              states[i].calls[id].epoch < states[i].connection.epoch ==>
                id !in states[i].tracked && (Enabled(states[i], Wake(id)) || Enabled(states[i], WakeReset(id)))
  {
    hide Apply;
    RunKeepsInvariant(states, steps, i);
  }

  lemma OutcomeIsFinalStep(s: State, step: Step, id: nat)
    requires Enabled(s, step) && id in s.calls && s.calls[id].Done?
    ensures id in Apply(s, step).calls && Apply(s, step).calls[id] == s.calls[id]
  {
  }

  // A call is resolved at most once: its outcome never changes.
  lemma {:induction false} OutcomeIsFinal(states: seq<State>, steps: seq<Step>, i: nat, j: nat, id: nat)
    requires IsRun(states, steps) && i <= j < |states| && id in states[i].calls && states[i].calls[id].Done?
    ensures id in states[j].calls && states[j].calls[id] == states[i].calls[id]
    decreases j
  {
    hide Apply, Enabled;
    if i < j {
      OutcomeIsFinal(states, steps, i, j - 1, id);
      OutcomeIsFinalStep(states[j - 1], steps[j - 1], id);
    }
  }

  // The response at step `k` reached a call that was waiting for it.
  ghost predicate Delivers(states: seq<State>, steps: seq<Step>, k: nat, id: nat, value: Value)
    requires IsRun(states, steps)
  {
    k < |steps| && steps[k] == Receive(id, value) && id in states[k].tracked
  }

  lemma DeliveryStep(s: State, step: Step, id: nat)
    requires TrackedIsCurrent(s) && Enabled(s, step) && id in Apply(s, step).delivered
    ensures if step.Receive? && step.id == id && id in s.tracked
            then Apply(s, step).delivered[id] == Delivery(step.value, s.connection.epoch)
            else id in s.delivered && Apply(s, step).delivered[id] == s.delivered[id]
  {
  }

  lemma {:induction false} DeliveredByResponse(states: seq<State>, steps: seq<Step>, i: nat, id: nat) returns (k: nat)
    requires IsRun(states, steps) && i < |states| && id in states[i].delivered
    ensures k < i && Delivers(states, steps, k, id, states[i].delivered[id].value)
    ensures states[k].connection.epoch == states[i].delivered[id].epoch
    decreases i
  {
    hide Apply, Enabled;
    RunKeepsInvariant(states, steps, i - 1);
    DeliveryStep(states[i - 1], steps[i - 1], id);
    if Delivers(states, steps, i - 1, id, states[i].delivered[id].value)
       && states[i - 1].connection.epoch == states[i].delivered[id].epoch {
      k := i - 1;
    } else {
      k := DeliveredByResponse(states, steps, i - 1, id);
    }
  }

  lemma {:induction false} DeliveredStays(states: seq<State>, steps: seq<Step>, i: nat, j: nat, id: nat)
    requires IsRun(states, steps) && i <= j < |states| && id in states[i].delivered
    ensures id in states[j].delivered
    decreases j
  {
    hide Enabled;
    if i < j {
      DeliveredStays(states, steps, i, j - 1, id);
      assert states[j] == Apply(states[j - 1], steps[j - 1]);
    }
  }

  // No two responses reach the same call.
  lemma OneDelivery(states: seq<State>, steps: seq<Step>, k: nat, l: nat, id: nat, v: Value, w: Value)
    requires IsRun(states, steps) && Delivers(states, steps, k, id, v) && Delivers(states, steps, l, id, w)
    ensures k == l
  {
    RunKeepsInvariant(states, steps, k);
    RunKeepsInvariant(states, steps, l);
    if k < l {
      assert id in states[k + 1].delivered;
      DeliveredStays(states, steps, k + 1, l, id);
    } else if l < k {
      assert id in states[l + 1].delivered;
      DeliveredStays(states, steps, l + 1, k, id);
    }
  }

  // A call that got a response got it from one response message only, which carried the id of
  // the call and arrived while the call was in the table.
  lemma ResolvedByItsOwnResponse(states: seq<State>, steps: seq<Step>, i: nat, id: nat) returns (k: nat)
    requires IsRun(states, steps) && i < |states|
    requires id in states[i].calls && states[i].calls[id].Done? && states[i].calls[id].outcome.Response?
    ensures k < i && Delivers(states, steps, k, id, states[i].calls[id].outcome.value)
    ensures forall l, w | Delivers(states, steps, l, id, w) :: l == k
  {
    hide Apply, Enabled;
    RunKeepsInvariant(states, steps, i);
    k := DeliveredByResponse(states, steps, i, id);
    forall l, w | Delivers(states, steps, l, id, w) ensures l == k {
      OneDelivery(states, steps, k, l, id, states[i].calls[id].outcome.value, w);
    }
  }

  // A response that a waiting call can pick up arrived on the connection of its request.
  lemma DeliveredOnItsConnection(states: seq<State>, steps: seq<Step>, i: nat, id: nat)
    requires IsRun(states, steps) && i < |states| && id in states[i].calls && states[i].calls[id].Waiting?
    requires id in states[i].delivered
    ensures states[i].delivered[id].epoch == states[i].calls[id].epoch
  {
    hide Apply, Enabled;
    RunKeepsInvariant(states, steps, i);
  }

  /******* why a call ends as it does *******/

  predicate Clears(step: Step) { step == SpinTask(DropCalls) || step == SpinTask(TakeLock) }

  // The call had been entered before step `k` emptied the table.
  ghost predicate ClearedAt(states: seq<State>, steps: seq<Step>, k: nat, id: nat)
    requires IsRun(states, steps)
  {
    k < |steps| && Clears(steps[k]) && id in states[k].tracked
  }

  ghost predicate ClearedBefore(states: seq<State>, steps: seq<Step>, i: nat, id: nat)
    requires IsRun(states, steps)
  {
    exists k: nat | k < i :: ClearedAt(states, steps, k, id)
  }

  // A call that is on its way is in the table, or has its response, or was cleared.
  lemma OnItsWayStep(s: State, step: Step, id: nat)
    requires Enabled(s, step)
    requires id in Apply(s, step).calls && (Apply(s, step).calls[id].Inserted? || Apply(s, step).calls[id].Waiting?)
    ensures id in Apply(s, step).tracked || id in Apply(s, step).delivered
            || (Clears(step) && id in s.tracked)
            || (id in s.calls && (s.calls[id].Inserted? || s.calls[id].Waiting?)
                && id !in s.tracked && id !in s.delivered)
  {
  }

  lemma {:induction false} OnItsWay(states: seq<State>, steps: seq<Step>, i: nat, id: nat)
    requires IsRun(states, steps) && i < |states|
    requires id in states[i].calls && (states[i].calls[id].Inserted? || states[i].calls[id].Waiting?)
    ensures id in states[i].tracked || id in states[i].delivered || ClearedBefore(states, steps, i, id)
    decreases i
  {
    hide Apply, Enabled;
    if i > 0 {
      OnItsWayStep(states[i - 1], steps[i - 1], id);
      if Clears(steps[i - 1]) && id in states[i - 1].tracked {
        assert ClearedAt(states, steps, i - 1, id);
      } else if id !in states[i].tracked && id !in states[i].delivered {
        OnItsWay(states, steps, i - 1, id);
      }
    }
  }

  lemma LeavingStep(s: State, step: Step, id: nat)
    requires Enabled(s, step) && id in Apply(s, step).calls && Apply(s, step).calls[id].Leaving?
    ensures (id in s.calls && s.calls[id].Leaving?) || (step == GiveUp(id) && id !in s.delivered)
  {
  }

  lemma {:induction false} LeavingGaveUp(states: seq<State>, steps: seq<Step>, i: nat, id: nat) returns (k: nat)
    requires IsRun(states, steps) && i < |states| && id in states[i].calls && states[i].calls[id].Leaving?
    ensures k < i && steps[k] == GiveUp(id) && id !in states[k].delivered
    decreases i
  {
    hide Apply, Enabled;
    LeavingStep(states[i - 1], steps[i - 1], id);
    k := i - 1;
    if id in states[i - 1].calls && states[i - 1].calls[id].Leaving? {
      k := LeavingGaveUp(states, steps, i - 1, id);
    }
  }

  // The step with which a call ends says how it ends.
  predicate EndsWith(s: State, step: Step, id: nat, outcome: Outcome) {
    match outcome
    case Response(value) => step == Wake(id) && id in s.delivered && s.delivered[id].value == value
    case SendFailed => step == Send(id, false)
    case TimedOut => step == Untrack(id)
    case Reset => step == WakeReset(id)
    case Lost => step == Recheck(id) && s.connection.disconnected
    case Abandoned => step == Abandon(id)
  }

  lemma EndStep(s: State, step: Step, id: nat)
    requires Enabled(s, step) && id in Apply(s, step).calls && Apply(s, step).calls[id].Done?
    ensures (id in s.calls && s.calls[id] == Apply(s, step).calls[id])
            || (EndsWith(s, step, id, Apply(s, step).calls[id].outcome) && (id in s.calls ==> !s.calls[id].Done?))
  {
  }

  lemma {:induction false} EndOfCall(states: seq<State>, steps: seq<Step>, i: nat, id: nat) returns (k: nat)
    requires IsRun(states, steps) && i < |states| && id in states[i].calls && states[i].calls[id].Done?
    ensures k < i && EndsWith(states[k], steps[k], id, states[i].calls[id].outcome)
    decreases i
  {
    hide Apply, Enabled, EndsWith;
    EndStep(states[i - 1], steps[i - 1], id);
    k := i - 1;
    if id in states[i - 1].calls && states[i - 1].calls[id] == states[i].calls[id] {
      k := EndOfCall(states, steps, i - 1, id);
    }
  }

  // Every outcome has its own cause. A failed send is a send that failed; a timeout ends a wait
  // that was given up while no response was there; a reset follows a clearing of the table that
  // took the entry of the call; a lost connection was seen at the second look at the flag.
  lemma OutcomeHasItsCause(states: seq<State>, steps: seq<Step>, i: nat, id: nat) returns (k: nat)
    requires IsRun(states, steps) && i < |states| && id in states[i].calls && states[i].calls[id].Done?
    ensures k < i
    ensures match states[i].calls[id].outcome
            case Response(value) =>
              steps[k] == Wake(id) && id in states[k].delivered && states[k].delivered[id].value == value
            case SendFailed => steps[k] == Send(id, false)
            case TimedOut => exists l: nat | l < k :: steps[l] == GiveUp(id) && id !in states[l].delivered
            case Reset => ClearedBefore(states, steps, k, id) && id !in states[k].delivered
            case Lost => steps[k] == Recheck(id) && states[k].connection.disconnected
            case Abandoned => steps[k] == Abandon(id)
  {
    k := EndOfCall(states, steps, i, id);
    assert Enabled(states[k], steps[k]);
    hide Apply, Enabled;
    match states[i].calls[id].outcome
    case TimedOut =>
      assert id in states[k].calls && states[k].calls[id].Leaving? by { CanUntrack(states[k], steps[k], id); }
      var l := LeavingGaveUp(states, steps, k, id);
    case Reset =>
      CanReset(states[k], steps[k], id);
      OnItsWay(states, steps, k, id);
    case _ =>
  }

  lemma CanUntrack(s: State, step: Step, id: nat)
    requires Enabled(s, step) && step == Untrack(id)
    ensures id in s.calls && s.calls[id].Leaving?
  {
  }

  lemma CanReset(s: State, step: Step, id: nat)
    requires Enabled(s, step) && step == WakeReset(id)
    ensures id in s.calls && s.calls[id].Waiting? && id !in s.delivered && id !in s.tracked
  {
  }

  /******* what is left in the table *******/

  // A call that has ended without a response is out of the table, unless it was abandoned.
  ghost predicate OnlyAbandonedStay(s: State) {
    forall id <- s.tracked.Keys :: id in s.calls && (s.calls[id].Done? ==> s.calls[id].outcome.Abandoned?)
  }

  lemma StepKeepsOnlyAbandoned(s: State, step: Step)
    requires Invariant(s) && OnlyAbandonedStay(s) && Enabled(s, step)
    ensures OnlyAbandonedStay(Apply(s, step))
  {
    hide LocksMatch, EpochsMatch, SendingOnThisConnection, TrackedOnItsConnection, ResponsesMatch;
  }

  // In every run, whoever got a response, failed to send, timed out, was reset or lost its
  // connection has left the table: only a caller that was cancelled leaves its entry behind.
  lemma {:induction false} EndedCallsLeaveTheTable(states: seq<State>, steps: seq<Step>, i: nat)
    requires IsRun(states, steps) && i < |states|
    ensures OnlyAbandonedStay(states[i])
    decreases i
  {
    hide Apply, Enabled, Invariant;
    if i > 0 {
      EndedCallsLeaveTheTable(states, steps, i - 1);
      RunKeepsInvariant(states, steps, i - 1);
      hide OnlyAbandonedStay;
      StepKeepsOnlyAbandoned(states[i - 1], steps[i - 1]);
    }
  }

  // A cancelled call leaves its entry until its response comes or the table is emptied.
  lemma AbandonedEntryStays(states: seq<State>, steps: seq<Step>, i: nat, id: nat)
    requires IsRun(states, steps) && i < |steps| && id in states[i].tracked
    requires steps[i] == Abandon(id) || (id in states[i].calls && states[i].calls[id].Done?)
    ensures id in states[i + 1].tracked <==> !Clears(steps[i]) && !(steps[i].Receive? && steps[i].id == id)
  {
    RunKeepsInvariant(states, steps, i);
    assert Enabled(states[i], steps[i]) && states[i + 1] == Apply(states[i], steps[i]);
  }

  // The first clearing: right after the flag is set, the table is empty, and every call that
  // waits can finish without waiting for the reconnection.
  lemma FirstClearFreesWaiters(states: seq<State>, steps: seq<Step>, i: nat)
    requires IsRun(states, steps) && i < |steps| && steps[i] == SpinTask(DropCalls)
    ensures states[i].connection.disconnected && states[i + 1].tracked == map[]
    ensures forall id <- states[i + 1].calls.Keys | states[i + 1].calls[id].Waiting? ::
              Enabled(states[i + 1], Wake(id)) || Enabled(states[i + 1], WakeReset(id))
  {
    RunKeepsInvariant(states, steps, i);
    assert Enabled(states[i], steps[i]) && states[i + 1] == Apply(states[i], steps[i]);
  }

  /******* the second clear *******/

  // A reconnection that replaces the connection without emptying the table once more.
  function WithoutSecondClear(s: State): State
    requires Enabled(s, SpinTask(TakeLock))
  {
    s.(connection := Spin(Spin(s.connection, TakeLock), Connect))
  }

  // Without it exactly the calls that are in the table when the lock is taken would stay there
  // as calls of an earlier connection, and those that wait could not finish.
  lemma SecondClearIsNeeded(states: seq<State>, steps: seq<Step>, i: nat, id: nat)
    requires IsRun(states, steps) && i < |states| && Enabled(states[i], SpinTask(TakeLock))
    ensures var s' := WithoutSecondClear(states[i]);
            && (id in states[i].tracked <==> id in s'.tracked && s'.tracked[id] < s'.connection.epoch)
            && (id in states[i].calls && states[i].calls[id].Waiting? ==>
                  (id in states[i].tracked <==> !Enabled(s', Wake(id)) && !Enabled(s', WakeReset(id))))
  {
    hide Apply;
    RunKeepsInvariant(states, steps, i);
  }

  // Calls can be in the table then: one that looked at the flag before it was set and was
  // entered after the first clear.
  const RACE: seq<Step> := [
    Begin(0), Lock(0), Recheck(0), SpinTask(Fail), SpinTask(DropCalls), Insert(0), Send(0, true)]

  const SPINNING: Connection := Connection(0, false, Phase.Spinning, {0})

  const CLEARED: Connection := Connection(0, true, Phase.Retrying, {0})

  const RACE_STATES: seq<State> := [
    INITIAL,
    State(CONNECTED, map[0 := Checked], map[], map[]),
    State(SPINNING, map[0 := Reading], map[], map[]),
    State(SPINNING, map[0 := Rechecked], map[], map[]),
    State(Connection(0, true, Phase.Failed, {0}), map[0 := Rechecked], map[], map[]),
    State(CLEARED, map[0 := Rechecked], map[], map[]),
    State(CLEARED, map[0 := Inserted(0)], map[0 := 0], map[]),
    State(CLEARED.(readers := {}), map[0 := Waiting(0)], map[0 := 0], map[])]

  lemma RaceRefillsTable()
    ensures IsRun(RACE_STATES, RACE)
    ensures var s := RACE_STATES[|RACE|];
            Enabled(s, SpinTask(TakeLock)) && 0 in s.tracked && 0 in s.calls && s.calls[0].Waiting?
  {
    RaceBeforeFailure();
    RaceUpToClear();
    RaceAfterClear();
    hide Apply;
    forall i | 0 <= i < |RACE| ensures IsRaceStep(i) {
    }
  }

  ghost predicate IsRaceStep(i: nat)
    requires i < 7
  {
    Enabled(RACE_STATES[i], RACE[i]) && RACE_STATES[i + 1] == Apply(RACE_STATES[i], RACE[i])
  }

  lemma RaceBeforeFailure()
    ensures IsRaceStep(0) && IsRaceStep(1) && IsRaceStep(2)
  {
  }

  lemma RaceUpToClear()
    ensures IsRaceStep(3) && IsRaceStep(4)
  {
  }

  lemma RaceAfterClear()
    ensures IsRaceStep(5) && IsRaceStep(6)
  {
  }
}
