// The life of a subscription in a ROS1 node (roslibrust_ros1/src/node/actor.rs and
// roslibrust_ros1/src/subscriber.rs). A subscriber that is dropped first gives up its receiver
// and then starts a task that takes the node's lock later and removes the subscription of the
// topic if nobody holds a receiver of it. Each region under the lock is one step, and so are
// the two halves of a drop; all interleavings are considered.
module Ros1Subscribers {
  import opened Wrappers

  // A live subscriber: its topic and the subscription whose receiver it holds. The number
  // tells subscriptions of one topic apart; the code has no such number.
  datatype Subscriber = Subscriber(topic: string, subscription: nat)

  datatype NodeError = MasterFailed

  // `receivers` counts the receivers of each subscription, the internal one included.
  // `dropping` holds the topics of subscribers between the two halves of their drop, and
  // `cleanups` the topics of cleanup tasks that have not run yet.
  datatype State = State(
    subscriptions: map<string, nat>,
    receivers: multiset<nat>,
    live: multiset<Subscriber>,
    dropping: multiset<string>,
    cleanups: multiset<string>,
    nextId: nat)

  const INITIAL: State := State(map[], multiset{}, multiset{}, multiset{}, multiset{}, 0)

  datatype Step =
    | Subscribe(topic: string, masterSucceeds: bool)
    | ReleaseReceiver(subscriber: Subscriber)
    | SpawnCleanup(topic: string)
    | RunCleanup(topic: string)

  predicate Enabled(s: State, step: Step) {
    match step
    case Subscribe(_, _) => true
    case ReleaseReceiver(sub) => sub in s.live
    case SpawnCleanup(t) => t in s.dropping
    case RunCleanup(t) => t in s.cleanups
  }

  // `receiver_count().saturating_sub(1)`
  function SubscriberCount(s: State, id: nat): nat {
    if s.receivers[id] == 0 then 0 else s.receivers[id] - 1
  }

  /******* one step *******/

  function AfterSubscribe(s: State, topic: string, masterSucceeds: bool): State {
    if topic in s.subscriptions then
      var id := s.subscriptions[topic];
      s.(receivers := s.receivers + multiset{id}, live := s.live + multiset{Subscriber(topic, id)})
    else if !masterSucceeds then s
    else
      var id := s.nextId;
      s.(subscriptions := s.subscriptions[topic := id],
         receivers := s.receivers + multiset{id, id},
         live := s.live + multiset{Subscriber(topic, id)},
         nextId := id + 1)
  }

  function AfterUnsubscribe(s: State, topic: string): State {
    if topic in s.subscriptions && SubscriberCount(s, s.subscriptions[topic]) == 0 then
      s.(subscriptions := s.subscriptions - {topic},
         receivers := s.receivers - multiset{s.subscriptions[topic]})
    else s
  }

  function Apply(s: State, step: Step): State
    requires Enabled(s, step)
  {
    match step
    case Subscribe(topic, masterSucceeds) => AfterSubscribe(s, topic, masterSucceeds)
    case ReleaseReceiver(sub) =>
      s.(receivers := s.receivers - multiset{sub.subscription},
         live := s.live - multiset{sub},
         dropping := s.dropping + multiset{sub.topic})
    case SpawnCleanup(t) => s.(dropping := s.dropping - multiset{t}, cleanups := s.cleanups + multiset{t})
    case RunCleanup(t) => AfterUnsubscribe(s.(cleanups := s.cleanups - multiset{t}), t)
  }

  /******* what every step keeps *******/

  ghost predicate DistinctSubscriptions(s: State) {
    && (forall t <- s.subscriptions.Keys :: s.subscriptions[t] < s.nextId)
    && (forall t, t' | t in s.subscriptions && t' in s.subscriptions && t != t' ::
          s.subscriptions[t] != s.subscriptions[t'])
  }

  // A live subscriber holds a receiver of the subscription that is filed under its topic.
  ghost predicate LiveAreFiled(s: State) {
    forall sub <- s.live :: sub.topic in s.subscriptions && s.subscriptions[sub.topic] == sub.subscription
  }

  // A subscription has its internal receiver and one for each live subscriber; nothing else has receivers.
  ghost predicate ReceiversCounted(s: State) {
    && (forall t <- s.subscriptions.Keys ::
          s.receivers[s.subscriptions[t]] == 1 + s.live[Subscriber(t, s.subscriptions[t])])
    && (forall id <- s.receivers :: id < s.nextId)
  }

  predicate HasLive(s: State, topic: string) {
    topic in s.subscriptions && Subscriber(topic, s.subscriptions[topic]) in s.live
  }

  // A subscription without subscribers has a drop or a cleanup of its topic outstanding.
  ghost predicate NoneForgotten(s: State) {
    forall t <- s.subscriptions.Keys :: HasLive(s, t) || t in s.dropping || t in s.cleanups
  }

  ghost predicate Invariant(s: State) {
    DistinctSubscriptions(s) && LiveAreFiled(s) && ReceiversCounted(s) && NoneForgotten(s)
  }

  // `m'` has `delta` more of `x` than `m`, and the same of everything else.
  ghost predicate Changed<T(!new)>(m: multiset<T>, m': multiset<T>, x: T, delta: int) {
    forall y :: m'[y] == m[y] + if y == x then delta else 0
  }

  lemma MultisetChanges<T(!new)>(m: multiset<T>, x: T)
    ensures Changed(m, m + multiset{x}, x, 1) && Changed(m, m + multiset{x, x}, x, 2)
    ensures x in m ==> Changed(m, m - multiset{x}, x, -1)
  {
  }

  // One more receiver and one more live subscriber of a subscription in the map.
  lemma ShareKeepsInvariant(s: State, s': State, sub: Subscriber)
    requires Invariant(s) && sub.topic in s.subscriptions && s.subscriptions[sub.topic] == sub.subscription
    requires Changed(s.receivers, s'.receivers, sub.subscription, 1) && Changed(s.live, s'.live, sub, 1)
    requires s' == s.(receivers := s'.receivers, live := s'.live)
    ensures Invariant(s')
  {
    assert LiveAreFiled(s') && NoneForgotten(s') by { hide ReceiversCounted, DistinctSubscriptions; }
    assert ReceiversCounted(s') by { hide NoneForgotten, LiveAreFiled; }
  }

  // A new subscription with two receivers, one of them its own.
  lemma CreateKeepsInvariant(s: State, s': State, sub: Subscriber)
    requires Invariant(s) && sub.topic !in s.subscriptions && sub.subscription == s.nextId
    requires Changed(s.receivers, s'.receivers, s.nextId, 2) && Changed(s.live, s'.live, sub, 1)
    requires s' == s.(subscriptions := s.subscriptions[sub.topic := s.nextId], nextId := s.nextId + 1,
                      receivers := s'.receivers, live := s'.live)
    ensures Invariant(s')
  {
    assert s.receivers[s.nextId] == 0 && sub !in s.live by { hide NoneForgotten; }
    CreateKeepsCount(s, s', sub);
    CreateKeepsDistinct(s, s', sub);
    hide ReceiversCounted, DistinctSubscriptions;
    CreateKeepsFiled(s, s', sub);
    hide LiveAreFiled;
  }

  lemma CreateKeepsDistinct(s: State, s': State, sub: Subscriber)
    requires DistinctSubscriptions(s)
    requires s'.subscriptions == s.subscriptions[sub.topic := s.nextId] && s'.nextId == s.nextId + 1
    ensures DistinctSubscriptions(s')
  {
  }

  lemma CreateKeepsFiled(s: State, s': State, sub: Subscriber)
    requires LiveAreFiled(s) && sub.topic !in s.subscriptions && sub.subscription == s.nextId
    requires s'.subscriptions == s.subscriptions[sub.topic := s.nextId] && Changed(s.live, s'.live, sub, 1)
    ensures LiveAreFiled(s')
  {
  }

  lemma CreateKeepsCount(s: State, s': State, sub: Subscriber)
    requires DistinctSubscriptions(s) && ReceiversCounted(s) && sub.topic !in s.subscriptions
    requires sub.subscription == s.nextId && s.receivers[s.nextId] == 0 && s.live[sub] == 0
    requires Changed(s.receivers, s'.receivers, s.nextId, 2) && Changed(s.live, s'.live, sub, 1)
    requires s'.subscriptions == s.subscriptions[sub.topic := s.nextId] && s'.nextId == s.nextId + 1
    ensures ReceiversCounted(s')
  {
    forall t <- s'.subscriptions.Keys
      ensures s'.receivers[s'.subscriptions[t]] == 1 + s'.live[Subscriber(t, s'.subscriptions[t])]
    {
      if t == sub.topic { assert Subscriber(t, s'.subscriptions[t]) == sub; }
    }
  }

  lemma ReleaseKeepsInvariant(s: State, s': State, sub: Subscriber)
    requires Invariant(s) && sub in s.live
    requires Changed(s.receivers, s'.receivers, sub.subscription, -1) && Changed(s.live, s'.live, sub, -1)
    requires Changed(s.dropping, s'.dropping, sub.topic, 1)
    requires s' == s.(receivers := s'.receivers, live := s'.live, dropping := s'.dropping)
    ensures Invariant(s')
  {
    assert s.subscriptions[sub.topic] == sub.subscription;
    assert LiveAreFiled(s') && NoneForgotten(s') by { hide ReceiversCounted, DistinctSubscriptions; }
    assert ReceiversCounted(s') by { hide NoneForgotten, LiveAreFiled; }
  }

  // Tasks come and go, but none that is needed for its topic goes.
  lemma TasksKeepInvariant(s: State, s': State)
    requires Invariant(s) && s' == s.(dropping := s'.dropping, cleanups := s'.cleanups)
    requires forall t | t in s.subscriptions && !HasLive(s, t) && (t in s.dropping || t in s.cleanups) ::
               t in s'.dropping || t in s'.cleanups
    ensures Invariant(s')
  {
  }

  lemma CountMeansLive(s: State, t: string)
    requires ReceiversCounted(s) && t in s.subscriptions
    ensures SubscriberCount(s, s.subscriptions[t]) == s.live[Subscriber(t, s.subscriptions[t])]
  {
  }

  // The subscription of a topic and its own receiver go, as does one cleanup task of the topic.
  lemma RemoveKeepsInvariant(s: State, s': State, t: string)
    requires Invariant(s) && t in s.subscriptions && !HasLive(s, t)
    requires Changed(s.receivers, s'.receivers, s.subscriptions[t], -1) && Changed(s.cleanups, s'.cleanups, t, -1)
    requires s' == s.(subscriptions := s.subscriptions - {t}, receivers := s'.receivers, cleanups := s'.cleanups)
    ensures Invariant(s')
  {
    assert forall sub <- s.live :: sub.topic != t;
    assert DistinctSubscriptions(s') by { hide NoneForgotten, ReceiversCounted, LiveAreFiled; }
    assert LiveAreFiled(s') && NoneForgotten(s') by { hide ReceiversCounted, DistinctSubscriptions; }
    assert ReceiversCounted(s') by { hide NoneForgotten, LiveAreFiled; }
  }

  lemma CleanupKeepsInvariant(s: State, t: string)
    requires Invariant(s) && t in s.cleanups
    ensures Invariant(AfterUnsubscribe(s.(cleanups := s.cleanups - multiset{t}), t))
  {
    hide Invariant;
    MultisetChanges(s.cleanups, t);
    var s' := AfterUnsubscribe(s.(cleanups := s.cleanups - multiset{t}), t);
    if t in s.subscriptions {
      MultisetChanges(s.receivers, s.subscriptions[t]);
      CountMeansLive(s, t) by { assert ReceiversCounted(s) by { InvariantParts(s); } }
      if HasLive(s, t) {
        TasksKeepInvariant(s, s');
      } else {
        assert s.subscriptions[t] in s.receivers by { InvariantParts(s); }
        RemoveKeepsInvariant(s, s', t);
      }
    } else {
      TasksKeepInvariant(s, s');
    }
  }

  lemma InvariantParts(s: State)
    requires Invariant(s)
    ensures ReceiversCounted(s) && LiveAreFiled(s)
    ensures forall t <- s.subscriptions.Keys :: s.subscriptions[t] in s.receivers
    ensures forall sub <- s.live :: sub.subscription in s.receivers
  {
    hide DistinctSubscriptions, NoneForgotten;
  }

  lemma SubscribeKeepsInvariant(s: State, topic: string, masterSucceeds: bool)
    requires Invariant(s)
    ensures Invariant(AfterSubscribe(s, topic, masterSucceeds))
  {
    hide Invariant;
    var s' := AfterSubscribe(s, topic, masterSucceeds);
    if topic in s.subscriptions || masterSucceeds {
      var sub := Subscriber(topic, if topic in s.subscriptions then s.subscriptions[topic] else s.nextId);
      MultisetChanges(s.receivers, sub.subscription);
      MultisetChanges(s.live, sub);
      hide Changed;
      if topic in s.subscriptions { ShareKeepsInvariant(s, s', sub); } else { CreateKeepsInvariant(s, s', sub); }
    }
  }

  lemma DropKeepsInvariant(s: State, sub: Subscriber)
    requires Invariant(s) && sub in s.live
    ensures Invariant(Apply(s, ReleaseReceiver(sub)))
  {
    hide Invariant;
    InvariantParts(s);
    MultisetChanges(s.receivers, sub.subscription);
    MultisetChanges(s.live, sub);
    MultisetChanges(s.dropping, sub.topic);
    hide Changed;
    ReleaseKeepsInvariant(s, Apply(s, ReleaseReceiver(sub)), sub);
  }

  lemma SpawnKeepsInvariant(s: State, t: string)
    requires Invariant(s) && t in s.dropping
    ensures Invariant(Apply(s, SpawnCleanup(t)))
  {
    hide Invariant;
    MultisetChanges(s.dropping, t);
    MultisetChanges(s.cleanups, t);
    TasksKeepInvariant(s, Apply(s, SpawnCleanup(t)));
  }

  lemma StepKeepsInvariant(s: State, step: Step)
    requires Invariant(s) && Enabled(s, step)
    ensures Invariant(Apply(s, step))
  {
    hide Invariant, AfterSubscribe, AfterUnsubscribe;
    match step
    case Subscribe(topic, masterSucceeds) => SubscribeKeepsInvariant(s, topic, masterSucceeds);
    case ReleaseReceiver(sub) => DropKeepsInvariant(s, sub);
    case SpawnCleanup(t) => SpawnKeepsInvariant(s, t);
    case RunCleanup(t) => CleanupKeepsInvariant(s, t);
  }

  /******* the node *******/

  // Each method carries out one step on the fields. `Valid` is what the steps keep.
  class Node {
    var subscriptions: map<string, nat>
    var receivers: multiset<nat>
    var live: multiset<Subscriber>
    var dropping: multiset<string>
    var cleanups: multiset<string>
    var nextId: nat

    function Current(): State
      reads this
    {
      State(subscriptions, receivers, live, dropping, cleanups, nextId)
    }

    ghost predicate Valid()
      reads this
    {
      Invariant(Current())
    }

    constructor ()
      ensures Valid() && Current() == INITIAL
    {
      subscriptions, receivers, live := map[], multiset{}, multiset{};
      dropping, cleanups, nextId := multiset{}, multiset{}, 0;
    }

    // A subscription of the topic is shared whatever the type; a new one is filed only after
    // the master has answered.
    method RegisterSubscriber(topic: string, masterSucceeds: bool) returns (r: Result<Subscriber, NodeError>)
      requires Valid()
      modifies this`subscriptions, this`receivers, this`live, this`nextId
      ensures Valid() && Current() == Apply(old(Current()), Subscribe(topic, masterSucceeds))
      ensures r == if topic in old(subscriptions) then Ok(Subscriber(topic, old(subscriptions)[topic]))
                   else if masterSucceeds then Ok(Subscriber(topic, old(nextId))) else Err(MasterFailed)
      ensures r.Ok? ==> topic in subscriptions && subscriptions[topic] == r.value.subscription && r.value in live
    {
      hide Invariant;
      StepKeepsInvariant(Current(), Subscribe(topic, masterSucceeds));
      ghost var s := Current();
      assert Apply(s, Subscribe(topic, masterSucceeds)) == AfterSubscribe(s, topic, masterSucceeds);
      hide Apply, Enabled;
      if topic in subscriptions {
        r := Ok(Subscriber(topic, subscriptions[topic]));
        receivers := receivers + multiset{subscriptions[topic]};
        live := live + multiset{r.value};
        assert Current() == AfterSubscribe(s, topic, masterSucceeds);
      } else if masterSucceeds {
        r := Ok(Subscriber(topic, nextId));
        // The subscription keeps one receiver itself and hands out another.
        receivers := receivers + multiset{nextId, nextId};
        subscriptions := subscriptions[topic := nextId];
        nextId := nextId + 1;
        live := live + multiset{r.value};
        assert Current() == AfterSubscribe(s, topic, masterSucceeds);
      } else {
        r := Err(MasterFailed);
      }
    }

    // `Drop` of a subscriber, first half. The subscription counts one subscriber less, and
    // none exactly when this was the last; no other subscription counts differently, and the
    // topic is remembered until its cleanup.
    method DropReceiver(subscriber: Subscriber)
      requires Valid() && Enabled(Current(), ReleaseReceiver(subscriber))
      modifies this`receivers, this`live, this`dropping
      ensures Valid() && Current() == Apply(old(Current()), ReleaseReceiver(subscriber))
      ensures subscriber.topic in subscriptions && subscriptions[subscriber.topic] == subscriber.subscription
      ensures SubscriberCount(Current(), subscriber.subscription) + 1
              == old(SubscriberCount(Current(), subscriber.subscription))
      ensures SubscriberCount(Current(), subscriber.subscription) == 0 <==> subscriber !in live
      ensures forall id | id != subscriber.subscription ::
                SubscriberCount(Current(), id) == old(SubscriberCount(Current(), id))
      ensures Enabled(Current(), SpawnCleanup(subscriber.topic))
    {
      hide Invariant, SubscriberCount;
      StepKeepsInvariant(Current(), ReleaseReceiver(subscriber));
      ReleaseIsCounted(Current(), subscriber);
      receivers := receivers - multiset{subscriber.subscription};
      live := live - multiset{subscriber};
      dropping := dropping + multiset{subscriber.topic};
    }

    // `Drop` of a subscriber, second half. From here on the cleanup can run.
    method TryUnregisterSubscriber(topic: string)
      requires Valid() && Enabled(Current(), SpawnCleanup(topic))
      modifies this`dropping, this`cleanups
      ensures Valid() && Current() == Apply(old(Current()), SpawnCleanup(topic))
      ensures Enabled(Current(), RunCleanup(topic))
    {
      hide Invariant;
      StepKeepsInvariant(Current(), SpawnCleanup(topic));
      dropping := dropping - multiset{topic};
      cleanups := cleanups + multiset{topic};
    }

    // The body of a cleanup task. It removes the subscription exactly when nobody is
    // subscribed, and does so whatever the master answers.
    method UnregisterSubscriber(topic: string, masterSucceeds: bool) returns (r: Result<(), NodeError>)
      requires Valid() && Enabled(Current(), RunCleanup(topic))
      modifies this`subscriptions, this`receivers, this`cleanups
      ensures Valid() && Current() == Apply(old(Current()), RunCleanup(topic))
      ensures subscriptions
              == if HasLive(old(Current()), topic) then old(subscriptions) else old(subscriptions) - {topic}
      ensures r.Err? <==> topic in old(subscriptions) && topic !in subscriptions && !masterSucceeds
    {
      hide Invariant, SubscriberCount, HasLive;
      StepKeepsInvariant(Current(), RunCleanup(topic));
      CleanupMeans(Current(), topic);
      cleanups := cleanups - multiset{topic};
      if topic !in subscriptions {
        return Ok(());
      }
      if SubscriberCount(Current(), subscriptions[topic]) != 0 {
        return Ok(());
      }
      receivers := receivers - multiset{subscriptions[topic]};
      subscriptions := subscriptions - {topic};
      r := if masterSucceeds then Ok(()) else Err(MasterFailed);
    }
  }

  lemma ReleaseIsCounted(s: State, sub: Subscriber)
    requires Invariant(s) && sub in s.live
    ensures sub.topic in s.subscriptions && s.subscriptions[sub.topic] == sub.subscription
    ensures var s' := Apply(s, ReleaseReceiver(sub));
            && SubscriberCount(s', sub.subscription) + 1 == SubscriberCount(s, sub.subscription)
            && (SubscriberCount(s', sub.subscription) == 0 <==> sub !in s'.live)
            && (forall id | id != sub.subscription :: SubscriberCount(s', id) == SubscriberCount(s, id))
            && Enabled(s', SpawnCleanup(sub.topic))
  {
    assert s.subscriptions[sub.topic] == sub.subscription && s.receivers[sub.subscription] == 1 + s.live[sub];
    hide Invariant;
    MultisetChanges(s.receivers, sub.subscription);
    MultisetChanges(s.live, sub);
  }

  lemma CleanupMeans(s: State, topic: string)
    requires Invariant(s) && topic in s.cleanups
    ensures Apply(s, RunCleanup(topic)).subscriptions
            == if HasLive(s, topic) then s.subscriptions else s.subscriptions - {topic}
  {
    if topic in s.subscriptions { CountMeansLive(s, topic) by { InvariantParts(s); } }
  }

  /******* runs *******/

  ghost predicate IsRun(states: seq<State>, steps: seq<Step>) {
    && |states| == |steps| + 1 && states[0] == INITIAL
    && forall i | 0 <= i < |steps| :: Enabled(states[i], steps[i]) && states[i + 1] == Apply(states[i], steps[i])
  }

  lemma {:induction false} RunKeepsInvariant(states: seq<State>, steps: seq<Step>, i: nat)
    requires IsRun(states, steps) && i < |states|
    ensures Invariant(states[i])
    decreases i
  {
    hide Apply, Enabled;
    if i > 0 {
      RunKeepsInvariant(states, steps, i - 1);
      hide Invariant;
      StepKeepsInvariant(states[i - 1], steps[i - 1]);
    }
  }

  // In every run, the subscription whose receiver a live subscriber holds is the one in the map.
  lemma LiveSubscriberIsFiled(states: seq<State>, steps: seq<Step>, i: nat, sub: Subscriber)
    requires IsRun(states, steps) && i < |states| && sub in states[i].live
    ensures sub.topic in states[i].subscriptions && states[i].subscriptions[sub.topic] == sub.subscription
  {
    hide Apply, Enabled;
    RunKeepsInvariant(states, steps, i);
  }

  // When no drop is half done and no cleanup is outstanding, a topic has a subscription
  // exactly when it has a live subscriber.
  lemma SubscribedIffLive(states: seq<State>, steps: seq<Step>, i: nat, topic: string)
    requires IsRun(states, steps) && i < |states|
    requires topic !in states[i].dropping && topic !in states[i].cleanups
    ensures topic in states[i].subscriptions <==> exists sub :: sub in states[i].live && sub.topic == topic
  {
    hide Apply, Enabled;
    RunKeepsInvariant(states, steps, i);
    if topic in states[i].subscriptions {
      assert HasLive(states[i], topic);
    }
  }

  // A cleanup task removes a subscription exactly when nobody is subscribed, whichever
  // subscription of the topic it was started for.
  lemma CleanupRemovesIffUnused(states: seq<State>, steps: seq<Step>, i: nat)
    requires IsRun(states, steps) && i < |steps| && steps[i].RunCleanup?
    ensures var t := steps[i].topic;
            && (t in states[i + 1].subscriptions <==> exists sub :: sub in states[i].live && sub.topic == t)
            && states[i + 1].subscriptions - {t} == states[i].subscriptions - {t}
            && states[i + 1].live == states[i].live
  {
    RunKeepsInvariant(states, steps, i);
    var s, t := states[i], steps[i].topic;
    assert Enabled(s, steps[i]) && states[i + 1] == Apply(s, steps[i]);
    if t in s.subscriptions {
      assert SubscriberCount(s, s.subscriptions[t]) == s.live[Subscriber(t, s.subscriptions[t])];
    }
  }

  /******* the order of the two halves of a drop *******/

  // Were the cleanup task started before the receiver is released, it could run in between,
  // find the receiver, and leave the subscription behind for good.
  lemma ReleaseMustComeFirst()
    ensures var sub := Subscriber("/topic", 0);
            var subscribed := Apply(INITIAL, Subscribe("/topic", true));
            var spawned := subscribed.(cleanups := subscribed.cleanups + multiset{"/topic"});
            && Enabled(spawned, RunCleanup("/topic"))
            && var cleaned := Apply(spawned, RunCleanup("/topic"));
               var released := cleaned.(receivers := cleaned.receivers - multiset{sub.subscription},
                                        live := cleaned.live - multiset{sub});
               && released.live == multiset{} && released.dropping == multiset{} && released.cleanups == multiset{}
               && "/topic" in released.subscriptions
  {
  }
}
