// Topic subscriptions of a rosbridge client (roslibrust_rosbridge/src/client.rs): the table of
// subscribers by topic, the subscribe and unsubscribe messages sent for it, and their
// repetition after a reconnection. Subscribing and unsubscribing hold the client's lock for
// reading and the entry of their topic; everything else interleaves in any order.
module RosbridgeSubscriptions {
  import opened Wrappers
  import opened RosbridgeConnection

  datatype Message = Subscribe | Unsubscribe

  // The life of a subscriber: `Subscribing` and `Unsubscribing` hold the entry of the topic;
  // `Dropped` waits for the task that unsubscribes.
  datatype Handle =
    | Checked(topic: string)
    | Subscribing(topic: string)
    | Live(topic: string)
    | Dropped(topic: string)
    | Unsubscribing(topic: string)
    | Gone

  // `last` is the last message sent for a topic on the current connection.
  datatype State = State(
    connection: Connection,
    subscriptions: map<string, set<nat>>,
    handles: map<nat, Handle>,
    last: map<string, Message>)

  const INITIAL: State := State(CONNECTED, map[], map[], map[])

  // A message that could not be sent may have reached the server all the same (`sent`).
  // `restored` are the topics whose message went out before a failing reconnection stopped.
  datatype Step =
    | Begin(id: nat, topic: string)
    | Abandon(id: nat)
    | LockSubscribe(id: nat)
    | SendSubscribe(id: nat, succeeds: bool, sent: bool)
    | Drop(id: nat)
    | LockUnsubscribe(id: nat)
    | SendUnsubscribe(id: nat, sent: bool)
    | SpinTask(step: SpinStep, restored: set<string>)

  predicate HoldsEntry(s: State, id: nat, topic: string) {
    id in s.handles && (s.handles[id] == Subscribing(topic) || s.handles[id] == Unsubscribing(topic))
  }

  predicate EntryFree(s: State, topic: string) { forall id <- s.handles.Keys :: !HoldsEntry(s, id, topic) }

  predicate Enabled(s: State, step: Step) {
    match step
    case Begin(id, _) => id !in s.handles && !s.connection.disconnected
    case Abandon(id) => id in s.handles && s.handles[id].Checked?
    case LockSubscribe(id) =>
      id in s.handles && s.handles[id].Checked? && !WriteLocked(s.connection) && EntryFree(s, s.handles[id].topic)
    case SendSubscribe(id, _, _) => id in s.handles && s.handles[id].Subscribing?
    case Drop(id) => id in s.handles && s.handles[id].Live?
    case LockUnsubscribe(id) =>
      id in s.handles && s.handles[id].Dropped? && !WriteLocked(s.connection) && EntryFree(s, s.handles[id].topic)
    case SendUnsubscribe(id, _) => id in s.handles && s.handles[id].Unsubscribing?
    case SpinTask(step, _) => CanSpin(s.connection, step)
  }

  function SetHandle(s: State, id: nat, h: Handle): State { s.(handles := s.handles[id := h]) }

  function Sent(s: State, topic: string, m: Message, sent: bool): State {
    if sent then s.(last := s.last[topic := m]) else s
  }

  // The entry is made when the first subscriber of the topic arrives, and never removed.
  function AfterLockSubscribe(s: State, id: nat, topic: string): State {
    var entry := if topic in s.subscriptions then s.subscriptions[topic] else {};
    SetHandle(s.(subscriptions := s.subscriptions[topic := entry], connection := StartReading(s.connection, id)),
              id, Subscribing(topic))
  }

  function AfterSendSubscribe(s: State, id: nat, topic: string, succeeds: bool, sent: bool): State
    requires topic in s.subscriptions
  {
    var s' := Sent(s, topic, Subscribe, succeeds || sent);
    var s'' := if succeeds then s'.(subscriptions := s.subscriptions[topic := s.subscriptions[topic] + {id}]) else s';
    SetHandle(s''.(connection := StopReading(s.connection, id)), id, if succeeds then Live(topic) else Gone)
  }

  // Without an entry, or without the subscriber in it, nothing happens but a logged error.
  function AfterLockUnsubscribe(s: State, id: nat, topic: string): State {
    if topic !in s.subscriptions || id !in s.subscriptions[topic] then SetHandle(s, id, Gone)
    else
      var rest := s.subscriptions[topic] - {id};
      var s' := s.(subscriptions := s.subscriptions[topic := rest]);
      if rest != {} then SetHandle(s', id, Gone)
      else SetHandle(s'.(connection := StartReading(s.connection, id)), id, Unsubscribing(topic))
  }

  function AfterSpin(s: State, step: SpinStep, restored: set<string>): State
    requires CanSpin(s.connection, step)
  {
    var s' := s.(connection := Spin(s.connection, step));
    match step
    case Connect => s'.(last := map[])
    case RestoreFails => s'.(last := map t | t in s.subscriptions && t in restored :: Subscribe)
    case RestoreSucceeds => s'.(last := map t | t in s.subscriptions :: Subscribe)
    case _ => s'
  }

  function Apply(s: State, step: Step): State
    requires Enabled(s, step)
  {
    match step
    case Begin(id, topic) => SetHandle(s, id, Checked(topic))
    case Abandon(id) => SetHandle(s, id, Gone)
    case LockSubscribe(id) => AfterLockSubscribe(s, id, s.handles[id].topic)
    case SendSubscribe(id, succeeds, sent) =>
      var topic := s.handles[id].topic;
      if topic in s.subscriptions then AfterSendSubscribe(s, id, topic, succeeds, sent) else s
    case Drop(id) => SetHandle(s, id, Dropped(s.handles[id].topic))
    case LockUnsubscribe(id) => AfterLockUnsubscribe(s, id, s.handles[id].topic)
    case SendUnsubscribe(id, sent) =>
      SetHandle(Sent(s, s.handles[id].topic, Unsubscribe, sent).(connection := StopReading(s.connection, id)), id, Gone)
    case SpinTask(step, restored) => AfterSpin(s, step, restored)
  }

  /******* what every step keeps *******/

  ghost predicate LocksMatch(s: State) {
    && Consistent(s.connection)
    && (forall id :: id in s.connection.readers <==>
          id in s.handles && (s.handles[id].Subscribing? || s.handles[id].Unsubscribing?))
  }

  ghost predicate EntriesExclusive(s: State) {
    forall id, id', t | HoldsEntry(s, id, t) && HoldsEntry(s, id', t) :: id == id'
  }

  predicate Registered(h: Handle, topic: string) { h == Live(topic) || h == Dropped(topic) }

  // The table lists exactly the live subscribers and those whose unsubscription has not begun.
  ghost predicate RegisteredAreListed(s: State) {
    forall id <- s.handles.Keys | s.handles[id].Live? || s.handles[id].Dropped? ::
      s.handles[id].topic in s.subscriptions && id in s.subscriptions[s.handles[id].topic]
  }

  ghost predicate ListedAreRegistered(s: State) {
    forall t <- s.subscriptions.Keys :: forall id <- s.subscriptions[t] ::
      id in s.handles && Registered(s.handles[id], t)
  }

  ghost predicate HoldersMatch(s: State) {
    && (forall id <- s.handles.Keys | s.handles[id].Subscribing? :: s.handles[id].topic in s.subscriptions)
    && (forall id <- s.handles.Keys | s.handles[id].Unsubscribing? ::
          s.handles[id].topic in s.subscriptions && s.subscriptions[s.handles[id].topic] == {})
  }

  predicate Established(c: Connection) { c.phase.Spinning? || c.phase.Failed? || c.phase.Restored? }

  // On an established connection, the last message for a topic with subscribers was "subscribe".
  ghost predicate SubscribedTopics(s: State) {
    Established(s.connection) ==>
      forall t <- s.subscriptions.Keys | s.subscriptions[t] != {} :: t in s.last && s.last[t].Subscribe?
  }

  // Nothing has been sent on a connection that is being set up.
  ghost predicate NothingSentYet(s: State) { s.connection.phase.Restoring? ==> s.last == map[] }

  ghost predicate Invariant(s: State) {
    && LocksMatch(s) && EntriesExclusive(s) && HoldersMatch(s)
    && RegisteredAreListed(s) && ListedAreRegistered(s) && SubscribedTopics(s) && NothingSentYet(s)
  }

  lemma StepKeepsLocks(s: State, step: Step)
    requires LocksMatch(s) && HoldersMatch(s) && Enabled(s, step)
    ensures LocksMatch(Apply(s, step))
  {
  }

  lemma NewHolder(s: State, step: Step, id: nat, t: string)
    requires Enabled(s, step) && HoldsEntry(Apply(s, step), id, t)
    ensures HoldsEntry(s, id, t)
            || ((step.LockSubscribe? || step.LockUnsubscribe?) && step.id == id && EntryFree(s, t))
  {
  }

  lemma StepKeepsExclusive(s: State, step: Step)
    requires EntriesExclusive(s) && Enabled(s, step)
    ensures EntriesExclusive(Apply(s, step))
  {
    hide Apply, Enabled;
    var s' := Apply(s, step);
    forall id, id', t | HoldsEntry(s', id, t) && HoldsEntry(s', id', t) ensures id == id' {
      NewHolder(s, step, id, t);
      NewHolder(s, step, id', t);
    }
  }

  lemma StepKeepsRegistered(s: State, step: Step)
    requires RegisteredAreListed(s) && HoldersMatch(s) && Enabled(s, step)
    ensures RegisteredAreListed(Apply(s, step))
  {
  }

  lemma StepKeepsListed(s: State, step: Step)
    requires ListedAreRegistered(s) && HoldersMatch(s) && Enabled(s, step)
    ensures ListedAreRegistered(Apply(s, step))
  {
  }

  lemma StepKeepsHolders(s: State, step: Step)
    requires EntriesExclusive(s) && HoldersMatch(s) && Enabled(s, step)
    ensures HoldersMatch(Apply(s, step))
  {
    assert forall id <- s.handles.Keys | s.handles[id].Subscribing? || s.handles[id].Unsubscribing? ::
        HoldsEntry(s, id, s.handles[id].topic);
  }

  lemma StepKeepsSubscribed(s: State, step: Step)
    requires HoldersMatch(s) && SubscribedTopics(s) && Enabled(s, step)
    ensures SubscribedTopics(Apply(s, step))
  {
  }

  lemma StepKeepsNothingSent(s: State, step: Step)
    requires LocksMatch(s) && NothingSentYet(s) && Enabled(s, step)
    ensures NothingSentYet(Apply(s, step))
  {
  }

  lemma StepKeepsInvariant(s: State, step: Step)
    requires Invariant(s) && Enabled(s, step)
    ensures Invariant(Apply(s, step))
  {
    hide LocksMatch, EntriesExclusive, RegisteredAreListed, ListedAreRegistered, HoldersMatch, SubscribedTopics;
    hide NothingSentYet, Apply, Enabled;
    StepKeepsLocks(s, step);
    StepKeepsExclusive(s, step);
    StepKeepsRegistered(s, step);
    StepKeepsListed(s, step);
    StepKeepsHolders(s, step);
    StepKeepsSubscribed(s, step);
    StepKeepsNothingSent(s, step);
  }

  /******* the client *******/

  // Each method carries out one step on the fields. `Valid` is what the steps keep.
  class Client {
    var connection: Connection
    var subscriptions: map<string, set<nat>>
    var handles: map<nat, Handle>
    var last: map<string, Message>

    function Current(): State
      reads this
    {
      State(connection, subscriptions, handles, last)
    }

    ghost predicate Valid()
      reads this
    {
      Invariant(Current())
    }

    constructor ()
      ensures Valid() && Current() == INITIAL
    {
      connection, subscriptions, handles, last := CONNECTED, map[], map[], map[];
    }

    // The look at the flag before anything else.
    method BeginSubscribe(id: nat, topic: string) returns (r: Result<(), ()>)
      requires Valid() && id !in handles
      modifies this`handles
      ensures Valid() && r == if connection.disconnected then Err(()) else Ok(())
      ensures r.Ok? ==>
                Enabled(old(Current()), Begin(id, topic)) && Current() == Apply(old(Current()), Begin(id, topic))
      ensures handles == if r.Ok? then old(handles)[id := Checked(topic)] else old(handles)
    {
      if connection.disconnected {
        return Err(());
      }
      StepKeepsInvariant(Current(), Begin(id, topic));
      hide Invariant;
      handles := handles[id := Checked(topic)];
      r := Ok(());
    }

    // With the entry held: the message, and the new subscriber in the table if it went out.
    method FinishSubscribe(id: nat, succeeds: bool, sent: bool) returns (r: Result<nat, ()>)
      requires Valid() && Enabled(Current(), SendSubscribe(id, succeeds, sent))
      modifies this
      ensures Valid() && Current() == Apply(old(Current()), SendSubscribe(id, succeeds, sent))
      ensures r == if succeeds then Ok(id) else Err(())
      ensures r.Ok? ==>
                var topic := old(handles)[id].topic;
                && handles[id] == Live(topic) && topic in subscriptions && id in subscriptions[topic]
                && topic in last && last[topic].Subscribe?
      ensures r.Err? ==> subscriptions == old(subscriptions)
      ensures EntryFree(Current(), old(handles)[id].topic)
    {
      StepKeepsInvariant(Current(), SendSubscribe(id, succeeds, sent));
      HolderFreesEntry(Current(), id, handles[id].topic, if succeeds then Live(handles[id].topic) else Gone);
      assert handles[id].topic in subscriptions;
      hide Invariant, EntryFree;
      var topic := handles[id].topic;
      if succeeds || sent {
        last := last[topic := Subscribe];
      }
      connection := StopReading(connection, id);
      if !succeeds {
        handles := handles[id := Gone];
        return Err(());
      }
      subscriptions := subscriptions[topic := subscriptions[topic] + {id}];
      handles := handles[id := Live(topic)];
      r := Ok(id);
    }

    // The unsubscribe task: the subscriber, which is always found, leaves the table; the last
    // one of its topic goes on to unsubscribe.
    method BeginUnsubscribe(id: nat) returns (last: bool)
      requires Valid() && Enabled(Current(), LockUnsubscribe(id))
      modifies this
      ensures Valid() && Current() == Apply(old(Current()), LockUnsubscribe(id))
      ensures var topic := old(handles)[id].topic;
              && topic in old(subscriptions) && id in old(subscriptions)[topic]
              && subscriptions == old(subscriptions)[topic := old(subscriptions)[topic] - {id}]
              && (last <==> subscriptions[topic] == {})
      ensures last <==> handles[id].Unsubscribing?
    {
      hide Invariant, EntryFree;
      ghost var s := Current();
      StepKeepsInvariant(s, LockUnsubscribe(id));
      var topic := handles[id].topic;
      if topic !in subscriptions || id !in subscriptions[topic] {
        handles := handles[id := Gone];
        last := false;
      } else {
        subscriptions := subscriptions[topic := subscriptions[topic] - {id}];
        last := subscriptions[topic] == {};
        if last {
          connection := StartReading(connection, id);
          handles := handles[id := Unsubscribing(topic)];
        } else {
          handles := handles[id := Gone];
        }
      }
      DroppedIsListed(s, id);
    }

    // With the entry held: the message, whether it goes out or not. If it does, it is the last
    // one for the topic, and nobody is registered for the topic.
    method FinishUnsubscribe(id: nat, sent: bool)
      requires Valid() && Enabled(Current(), SendUnsubscribe(id, sent))
      modifies this`last, this`handles, this`connection
      ensures Valid() && Current() == Apply(old(Current()), SendUnsubscribe(id, sent))
      ensures var topic := old(handles)[id].topic;
              && topic in subscriptions && subscriptions[topic] == {} && EntryFree(Current(), topic)
              && (sent ==> topic in last && last[topic] == Message.Unsubscribe)
              && last - {topic} == old(last) - {topic} && (!sent ==> last == old(last))
      ensures handles == old(handles)[id := Gone] && id !in connection.readers
    {
      ghost var s := Current();
      var topic := handles[id].topic;
      StepKeepsInvariant(s, SendUnsubscribe(id, sent));
      HolderFreesEntry(s, id, topic, Gone);
      assert topic in subscriptions && subscriptions[topic] == {};
      hide Invariant, EntryFree;
      if sent {
        last := last[topic := Message.Unsubscribe];
      }
      connection := StopReading(connection, id);
      handles := handles[id := Gone];
    }

    // The end of a reconnection: every topic of the table is subscribed to again, in any
    // order; sending may fail at some topic, which ends the attempt.
    method RestoreSubscriptions(order: seq<string>, failure: Option<nat>) returns (succeeded: bool)
      requires Valid() && connection.phase.Restoring?
      requires forall t :: t in order <==> t in subscriptions
      modifies this`last, this`connection
      ensures Valid()
      ensures succeeded <==> failure.None? || failure.value >= |order|
      ensures succeeded ==> Current() == Apply(old(Current()), SpinTask(RestoreSucceeds, {}))
      ensures !succeeded ==>
                Current() == Apply(old(Current()), SpinTask(RestoreFails, set t | t in order[..failure.value]))
    {
      assert last == map[];
      hide Invariant;
      ghost var s := Current();
      RestoringKeepsInvariant(s);
      hide Apply;
      for i := 0 to |order|
        invariant last == map t | t in order[..i] :: Subscribe
        invariant connection == old(connection) && subscriptions == old(subscriptions) && handles == old(handles)
        invariant failure.Some? ==> failure.value >= i
      {
        if failure == Some(i) {
          connection := connection.(phase := Retrying);
          RestoredPart(s, order, i, last);
          return false;
        }
        last := last[order[i] := Subscribe];
        assert order[..i + 1] == order[..i] + [order[i]];
      }
      assert order[..|order|] == order;
      connection := connection.(phase := Restored);
      RestoredAll(s, order, last);
      succeeded := true;
    }
  }

  lemma DroppedIsListed(s: State, id: nat)
    requires Invariant(s) && id in s.handles && s.handles[id].Dropped?
    ensures s.handles[id].topic in s.subscriptions && id in s.subscriptions[s.handles[id].topic]
  {
  }

  lemma RestoringKeepsInvariant(s: State)
    requires Invariant(s) && s.connection.phase.Restoring?
    ensures Invariant(Apply(s, SpinTask(RestoreSucceeds, {})))
    ensures forall restored :: Invariant(Apply(s, SpinTask(RestoreFails, restored)))
  {
    hide Invariant, Apply;
    StepKeepsInvariant(s, SpinTask(RestoreSucceeds, {}));
    forall restored ensures Invariant(Apply(s, SpinTask(RestoreFails, restored))) {
      StepKeepsInvariant(s, SpinTask(RestoreFails, restored));
    }
  }

  lemma RestoredPart(s: State, order: seq<string>, n: nat, last: map<string, Message>)
    requires s.connection.phase.Restoring? && n <= |order| && forall t :: t in order <==> t in s.subscriptions
    requires last == map t | t in order[..n] :: Subscribe
    ensures Apply(s, SpinTask(RestoreFails, set t | t in order[..n]))
            == s.(connection := s.connection.(phase := Retrying), last := last)
  {
    assert forall t | t in order[..n] :: t in order;
    assert last == map t | t in s.subscriptions && t in order[..n] :: Subscribe;
  }

  lemma RestoredAll(s: State, order: seq<string>, last: map<string, Message>)
    requires s.connection.phase.Restoring? && forall t :: t in order <==> t in s.subscriptions
    requires last == map t | t in order :: Subscribe
    ensures Apply(s, SpinTask(RestoreSucceeds, {})) == s.(connection := s.connection.(phase := Restored), last := last)
  {
    assert last == map t | t in s.subscriptions :: Subscribe;
  }

  // Nobody but the holder of an entry held it.
  lemma HolderFreesEntry(s: State, id: nat, topic: string, h: Handle)
    requires Invariant(s) && HoldsEntry(s, id, topic) && (h.Live? || h.Gone?)
    ensures forall s': State | s'.handles == s.handles[id := h] :: EntryFree(s', topic)
  {
    hide LocksMatch, HoldersMatch, RegisteredAreListed, ListedAreRegistered, SubscribedTopics;
    forall s': State, other | s'.handles == s.handles[id := h] && other in s'.handles
      ensures !HoldsEntry(s', other, topic)
    {
      assert HoldsEntry(s', other, topic) ==> other != id && HoldsEntry(s, other, topic);
    }
  }

  /******* runs *******/

  ghost predicate IsRun(states: seq<State>, steps: seq<Step>) {
    && |states| == |steps| + 1 && states[0] == INITIAL
    && forall i | 0 <= i < |steps| :: Enabled(states[i], steps[i]) && states[i + 1] == Apply(states[i], steps[i])
  }

  lemma {:induction false} RunKeepsInvariant(states: seq<State>, steps: seq<Step>, i: nat)
    requires IsRun(states, steps) && i < |states|
    ensures Invariant(states[i])
    decreases i
  {
    hide Apply, Enabled;
    if i > 0 {
      RunKeepsInvariant(states, steps, i - 1);
      hide Invariant;
      StepKeepsInvariant(states[i - 1], steps[i - 1]);
    }
  }

  // Whenever the client is not marked disconnected and a topic has a live subscriber, the last
  // message for the topic on the current connection was "subscribe": through any sequence of
  // subscribes, drops, failures and reconnections.
  lemma LiveTopicIsSubscribed(states: seq<State>, steps: seq<Step>, i: nat, id: nat)
    requires IsRun(states, steps) && i < |states| && !states[i].connection.disconnected
    requires id in states[i].handles && states[i].handles[id].Live?
    ensures var t := states[i].handles[id].topic; t in states[i].last && states[i].last[t].Subscribe?
  {
    hide Apply, Enabled;
    RunKeepsInvariant(states, steps, i);
  }

  // The unsubscribe task of a dropped subscriber always finds its topic and itself in the table,
  // and it sends "unsubscribe" exactly when no other subscriber of the topic is left.
  lemma DroppedSubscriberIsFound(states: seq<State>, steps: seq<Step>, i: nat)
    requires IsRun(states, steps) && i < |steps| && steps[i].LockUnsubscribe?
    ensures var s, s', id := states[i], states[i + 1], steps[i].id;
            var t := s.handles[id].topic;
            && t in s.subscriptions && id in s.subscriptions[t]
            && s'.subscriptions == s.subscriptions[t := s.subscriptions[t] - {id}]
            && (s'.handles[id].Unsubscribing? <==>
                  forall other <- s.handles.Keys | other != id :: !Registered(s.handles[other], t))
  {
    RunKeepsInvariant(states, steps, i);
    var s, id := states[i], steps[i].id;
    assert Enabled(s, steps[i]) && states[i + 1] == Apply(s, steps[i]);
    var t := s.handles[id].topic;
    assert s.subscriptions[t] - {id} == {} <==>
             forall other <- s.handles.Keys | other != id :: !Registered(s.handles[other], t) by {
      if s.subscriptions[t] - {id} != {} {
        var other :| other in s.subscriptions[t] - {id};
        assert Registered(s.handles[other], t);
      }
    }
  }

  /******* topics without subscribers *******/

  // No subscriber of the topic is registered, and nobody is about to unsubscribe from it.
  ghost predicate Unused(s: State, topic: string) {
    forall id <- s.handles.Keys :: !Registered(s.handles[id], topic) && s.handles[id] != Handle.Unsubscribing(topic)
  }

  predicate AskedFor(s: State, topic: string) { topic in s.last && s.last[topic] == Message.Subscribe }

  // The step leaves the server with a subscription that nobody wants: a "subscribe" that went
  // out although it failed, an "unsubscribe" that did not go out, or the renewal of a
  // subscription whose entry is empty.
  predicate LeavesBehind(s: State, step: Step, topic: string) {
    match step
    case SendSubscribe(id, succeeds, sent) =>
      id in s.handles && s.handles[id] == Subscribing(topic) && !succeeds && sent
    case SendUnsubscribe(id, sent) => id in s.handles && s.handles[id] == Unsubscribing(topic) && !sent
    case SpinTask(spin, _) => spin.RestoreSucceeds? && topic in s.subscriptions && s.subscriptions[topic] == {}
    case _ => false
  }

  // The step sends a message for the topic, or replaces the connection.
  predicate Settles(s: State, step: Step, topic: string) {
    match step
    case SendSubscribe(id, succeeds, sent) =>
      id in s.handles && s.handles[id] == Subscribing(topic) && (succeeds || sent)
    case SendUnsubscribe(id, sent) => id in s.handles && s.handles[id] == Unsubscribing(topic) && sent
    case SpinTask(spin, _) => spin.Connect?
    case _ => false
  }

  ghost predicate LeftBehindSince(states: seq<State>, steps: seq<Step>, k: nat, i: nat, topic: string)
    requires IsRun(states, steps) && k < i < |states|
  {
    LeavesBehind(states[k], steps[k], topic) && forall l | k < l < i :: !Settles(states[l], steps[l], topic)
  }

  ghost predicate LeftBehind(states: seq<State>, steps: seq<Step>, i: nat, topic: string)
    requires IsRun(states, steps) && i < |states|
  {
    exists k: nat | k < i :: LeftBehindSince(states, steps, k, i, topic)
  }

  // Whoever is about to unsubscribe does so on a connection on which "subscribe" was the last
  // message of the topic.
  ghost predicate HoldersAskedFor(s: State) {
    Established(s.connection) ==>
      forall id <- s.handles.Keys | s.handles[id].Unsubscribing? :: AskedFor(s, s.handles[id].topic)
  }

  lemma StepKeepsHoldersAskedFor(s: State, step: Step)
    requires Invariant(s) && HoldersAskedFor(s) && Enabled(s, step)
    ensures HoldersAskedFor(Apply(s, step))
  {
    assert forall id <- s.handles.Keys | s.handles[id].Unsubscribing? || s.handles[id].Subscribing? ::
        HoldsEntry(s, id, s.handles[id].topic);
    hide RegisteredAreListed, ListedAreRegistered, NothingSentYet;
  }

  lemma {:induction false} RunKeepsHoldersAskedFor(states: seq<State>, steps: seq<Step>, i: nat)
    requires IsRun(states, steps) && i < |states|
    ensures HoldersAskedFor(states[i])
    decreases i
  {
    hide Apply, Enabled, Invariant;
    if i > 0 {
      RunKeepsHoldersAskedFor(states, steps, i - 1);
      RunKeepsInvariant(states, steps, i - 1);
      hide HoldersAskedFor;
      StepKeepsHoldersAskedFor(states[i - 1], steps[i - 1]);
    }
  }

  // Why an unused topic is asked for after a step: the step left it behind, or it was before.
  ghost predicate StaysAskedFor(s: State, step: Step, topic: string) {
    || LeavesBehind(s, step, topic)
    || (!Settles(s, step, topic) && Established(s.connection) && Unused(s, topic) && AskedFor(s, topic))
  }

  lemma UnusedSendStep(s: State, step: Step, topic: string)
    requires (step.SendSubscribe? || step.SendUnsubscribe?) && HoldersMatch(s) && HoldersAskedFor(s) && Enabled(s, step)
    requires Established(Apply(s, step).connection) && Unused(Apply(s, step), topic)
    ensures AskedFor(Apply(s, step), topic) <==> StaysAskedFor(s, step, topic)
    ensures Unused(s, topic) || LeavesBehind(s, step, topic) || Settles(s, step, topic)
  {
    OthersStayUnused(s, Apply(s, step), step.id, topic);
    hide Unused;
  }

  lemma UnusedSpinStep(s: State, step: Step, topic: string)
    requires step.SpinTask? && ListedAreRegistered(s) && Enabled(s, step)
    requires Established(Apply(s, step).connection) && Unused(Apply(s, step), topic)
    ensures AskedFor(Apply(s, step), topic) <==> StaysAskedFor(s, step, topic)
    ensures Unused(s, topic) || LeavesBehind(s, step, topic) || Settles(s, step, topic)
  {
    assert Unused(s, topic);
    UnusedIsEmpty(s, topic);
    hide Unused, ListedAreRegistered;
  }

  lemma UnusedHandleStep(s: State, step: Step, topic: string)
    requires !step.SpinTask? && !step.SendSubscribe? && !step.SendUnsubscribe? && Enabled(s, step)
    requires RegisteredAreListed(s) && ListedAreRegistered(Apply(s, step))
    requires Established(Apply(s, step).connection) && Unused(Apply(s, step), topic)
    ensures AskedFor(Apply(s, step), topic) <==> StaysAskedFor(s, step, topic)
    ensures Unused(s, topic) || LeavesBehind(s, step, topic) || Settles(s, step, topic)
  {
    UnusedIsEmpty(Apply(s, step), topic);
    hide ListedAreRegistered;
    if step.Begin? {
      assert forall id <- s.handles.Keys :: s.handles[id] == Apply(s, step).handles[id];
    } else {
      OthersStayUnused(s, Apply(s, step), step.id, topic);
      hide Unused;
    }
  }

  // One step of an unused topic on an established connection.
  lemma UnusedStep(s: State, step: Step, topic: string)
    requires Invariant(s) && HoldersAskedFor(s) && Enabled(s, step)
    requires Established(Apply(s, step).connection) && Unused(Apply(s, step), topic)
    ensures AskedFor(Apply(s, step), topic) <==> StaysAskedFor(s, step, topic)
    ensures Unused(s, topic) || LeavesBehind(s, step, topic) || Settles(s, step, topic)
  {
    hide Apply, Enabled, Unused, HoldersAskedFor, StaysAskedFor, RegisteredAreListed, ListedAreRegistered, HoldersMatch;
    StepKeepsInvariant(s, step);
    if step.SpinTask? {
      UnusedSpinStep(s, step, topic);
    } else if step.SendSubscribe? || step.SendUnsubscribe? {
      UnusedSendStep(s, step, topic);
    } else {
      UnusedHandleStep(s, step, topic);
    }
  }

  // The topic was unused before as well, unless it is the subscriber that moved who used it.
  lemma OthersStayUnused(s: State, s': State, id: nat, topic: string)
    requires id in s.handles && id in s'.handles && s'.handles == s.handles[id := s'.handles[id]] && Unused(s', topic)
    ensures Unused(s, topic)
            <==> !Registered(s.handles[id], topic) && s.handles[id] != Handle.Unsubscribing(topic)
  {
    assert forall other <- s.handles.Keys | other != id :: s.handles[other] == s'.handles[other];
  }

  lemma UnusedIsEmpty(s: State, topic: string)
    requires ListedAreRegistered(s) && Unused(s, topic)
    ensures topic in s.subscriptions ==> s.subscriptions[topic] == {}
  {
  }

  lemma LeftBehindNext(states: seq<State>, steps: seq<Step>, i: nat, topic: string)
    requires IsRun(states, steps) && 0 < i < |states|
    ensures LeftBehind(states, steps, i, topic) <==>
            || LeavesBehind(states[i - 1], steps[i - 1], topic)
            || (LeftBehind(states, steps, i - 1, topic) && !Settles(states[i - 1], steps[i - 1], topic))
  {
    hide Apply, Enabled, LeavesBehind, Settles;
    if LeavesBehind(states[i - 1], steps[i - 1], topic) {
      assert LeftBehindSince(states, steps, i - 1, i, topic);
    } else if LeftBehind(states, steps, i, topic) {
      var k: nat :| k < i && LeftBehindSince(states, steps, k, i, topic);
      assert LeftBehindSince(states, steps, k, i - 1, topic);
    }
    if LeftBehind(states, steps, i - 1, topic) && !Settles(states[i - 1], steps[i - 1], topic) {
      var k: nat :| k < i - 1 && LeftBehindSince(states, steps, k, i - 1, topic);
      assert LeftBehindSince(states, steps, k, i, topic);
    }
  }

  lemma InitiallyNotAskedFor(states: seq<State>, steps: seq<Step>, topic: string)
    requires IsRun(states, steps)
    ensures !AskedFor(states[0], topic) && !LeftBehind(states, steps, 0, topic)
  {
  }

  lemma {:induction false} NothingLeftWhileRestoring(states: seq<State>, steps: seq<Step>, i: nat, topic: string)
    requires IsRun(states, steps) && i < |states| && states[i].connection.phase.Restoring?
    ensures !LeftBehind(states, steps, i, topic)
    decreases i
  {
    hide LeftBehind, Invariant;
    if i > 0 {
      LeftBehindNext(states, steps, i, topic);
      RunKeepsInvariant(states, steps, i - 1);
      RestoringStep(states[i - 1], steps[i - 1], topic);
      if states[i - 1].connection.phase.Restoring? {
        NothingLeftWhileRestoring(states, steps, i - 1, topic);
      }
    }
  }

  lemma RestoringStep(s: State, step: Step, topic: string)
    requires Invariant(s) && Enabled(s, step) && Apply(s, step).connection.phase.Restoring?
    ensures !LeavesBehind(s, step, topic) && (s.connection.phase.Restoring? || Settles(s, step, topic))
  {
    hide EntriesExclusive, RegisteredAreListed, ListedAreRegistered, SubscribedTopics, NothingSentYet, HoldersMatch;
  }

  // On an established connection, the last message for a topic that nobody uses was
  // "subscribe" if and only if a step on this connection left that behind, and nothing was sent
  // for the topic since: there is no other reason for messages that nobody wants.
  lemma {:induction false} UnusedTopicIsAskedForIff(states: seq<State>, steps: seq<Step>, i: nat, topic: string)
    requires IsRun(states, steps) && i < |states|
    requires Established(states[i].connection) && Unused(states[i], topic)
    ensures AskedFor(states[i], topic) <==> LeftBehind(states, steps, i, topic)
    decreases i
  {
    hide Apply, Unused, HoldersAskedFor, Invariant, LeavesBehind, Settles, LeftBehind;
    if i == 0 {
      InitiallyNotAskedFor(states, steps, topic);
    } else {
      RunKeepsInvariant(states, steps, i - 1);
      RunKeepsHoldersAskedFor(states, steps, i - 1);
      UnusedStep(states[i - 1], steps[i - 1], topic);
      LeftBehindNext(states, steps, i, topic);
      EstablishedBefore(states[i - 1], steps[i - 1]);
      if states[i - 1].connection.phase.Restoring? {
        NothingLeftWhileRestoring(states, steps, i - 1, topic);
      } else if Unused(states[i - 1], topic) {
        UnusedTopicIsAskedForIff(states, steps, i - 1, topic);
      }
    }
  }

  lemma EstablishedBefore(s: State, step: Step)
    requires Enabled(s, step) && Established(Apply(s, step).connection)
    ensures Established(s.connection) || s.connection.phase.Restoring?
  {
  }
}
