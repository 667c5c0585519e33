// The life of a publication in a ROS1 node (roslibrust_ros1/src/node/actor.rs and
// roslibrust_ros1/src/publisher.rs). Publishers are created under the node's lock, but they
// are dropped anywhere: when the last one is gone, the accept task of the publication notices
// and starts a task that takes the lock later and removes whatever is filed under the topic.
// An accept task that has taken a connection waits for its peer, as long as that takes, and
// looks at nothing else meanwhile; if answering fails it panics. Each region under the lock is
// one step; so are the drop of a publisher, the arrival and the answer of a peer, the notice
// and the death of an accept task and the run of a cleanup task. All interleavings are considered.
module Ros1Publishers {
  import opened Wrappers

  // The shutdown channel of a publication. Every live publisher holds a sender of it. The
  // number tells publications of one topic apart; the code has no such number.
  datatype Channel = Channel(topic: string, id: nat)

  datatype Publication = Publication(topicType: string, channel: Channel)

  // `BindFailed` and `MasterFailed` report the environment's failures, the others the node's.
  datatype NodeError = TypeMismatch | AlreadyShutDown | BindFailed | MasterFailed | UnregisterFailed

  // `senders` counts the live publishers of each channel, `accepting` holds the channels whose
  // accept task runs, `answering` those of them whose accept task is busy with a peer, `dead`
  // those whose accept task has panicked, `cleanups` the cleanup tasks that have not run yet.
  datatype State = State(
    publishers: map<string, Publication>,
    senders: multiset<Channel>,
    accepting: set<Channel>,
    answering: set<Channel>,
    dead: set<Channel>,
    cleanups: multiset<Channel>,
    nextId: nat)

  const INITIAL: State := State(map[], multiset{}, {}, {}, {}, multiset{}, 0)

  // What the environment does during a registration.
  datatype Environment = Environment(bindSucceeds: bool, masterSucceeds: bool)

  datatype Step =
    | Register(topic: string, topicType: string, environment: Environment)
    | DropPublisher(channel: Channel)
    | PeerConnects(channel: Channel)
    | PeerAnswered(channel: Channel)
    | NoticeShutdown(channel: Channel)
    | AcceptTaskDies(channel: Channel)
    | RunCleanup(cleanup: Channel)

  predicate Enabled(s: State, step: Step) {
    match step
    case Register(_, _, _) => true
    case DropPublisher(c) => c in s.senders
    case PeerConnects(c) => c in s.accepting && c !in s.answering
    case PeerAnswered(c) => c in s.answering
    case NoticeShutdown(c) => c in s.accepting && c !in s.answering && c !in s.senders
    case AcceptTaskDies(c) => c in s.answering
    case RunCleanup(c) => c in s.cleanups
  }

  /******* one step *******/

  // The result of a registration: the sender that keeps the publication alive, or an error.
  function RegisterResult(s: State, topic: string, topicType: string, e: Environment): Result<Channel, NodeError> {
    if topic in s.publishers then
      var publication := s.publishers[topic];
      if publication.topicType != topicType then Err(TypeMismatch)
      else if publication.channel in s.senders then Ok(publication.channel)
      else Err(AlreadyShutDown)
    else if !e.bindSucceeds then Err(BindFailed)
    else if !e.masterSucceeds then Err(MasterFailed)
    else Ok(Channel(topic, s.nextId))
  }

  // A new publication is filed under a topic that had none.
  function File(s: State, topic: string, topicType: string): State {
    var channel := Channel(topic, s.nextId);
    s.(publishers := s.publishers[topic := Publication(topicType, channel)],
       accepting := s.accepting + {channel},
       nextId := s.nextId + 1)
  }

  // A publication that could not be announced to the master is filed all the same, but
  // without any publisher.
  function AfterRegister(s: State, topic: string, topicType: string, e: Environment): State {
    var result := RegisterResult(s, topic, topicType, e);
    var s' :=
      if topic in s.publishers || !e.bindSucceeds then s
      else File(s, topic, topicType);
    if result.Ok? then s'.(senders := s'.senders + multiset{result.value}) else s'
  }

  // Removing a publication aborts its accept task.
  function AfterUnregister(s: State, topic: string): State {
    if topic in s.publishers then
      var channel := s.publishers[topic].channel;
      s.(publishers := s.publishers - {topic},
         accepting := s.accepting - {channel},
         answering := s.answering - {channel})
    else s
  }

  function Apply(s: State, step: Step): State
    requires Enabled(s, step)
  {
    match step
    case Register(topic, topicType, e) => AfterRegister(s, topic, topicType, e)
    case DropPublisher(c) => s.(senders := s.senders - multiset{c})
    case NoticeShutdown(c) => s.(accepting := s.accepting - {c}, cleanups := s.cleanups + multiset{c})
    case PeerConnects(c) => s.(answering := s.answering + {c})
    case PeerAnswered(c) => s.(answering := s.answering - {c})
    case AcceptTaskDies(c) =>
      s.(accepting := s.accepting - {c}, answering := s.answering - {c}, dead := s.dead + {c})
    case RunCleanup(c) => AfterUnregister(s.(cleanups := s.cleanups - multiset{c}), c.topic)
  }

  /******* what every step keeps *******/

  predicate Filed(s: State, c: Channel) {
    c.topic in s.publishers && s.publishers[c.topic].channel == c
  }

  ghost predicate NamedByTopic(s: State) {
    forall t <- s.publishers.Keys :: s.publishers[t].channel.topic == t && s.publishers[t].channel.id < s.nextId
  }

  // The publication of a live publisher, and one whose accept task runs or has panicked, is
  // in the map; accept tasks of live publishers end only by a panic.
  ghost predicate LiveAccept(s: State) {
    && (forall c <- s.senders :: c in s.accepting || c in s.dead)
    && (forall c | c in s.accepting || c in s.dead :: Filed(s, c))
    && s.accepting !! s.dead && s.answering <= s.accepting
  }

  // A cleanup task belongs to a publication in the map whose accept task gave notice.
  ghost predicate CleanupsOwned(s: State) {
    forall c <- s.cleanups :: Filed(s, c) && c !in s.accepting && c !in s.dead && s.cleanups[c] == 1
  }

  // A publication has its accept task, or that task gave notice, or it panicked.
  ghost predicate NoneForgotten(s: State) {
    forall t <- s.publishers.Keys ::
      var c := s.publishers[t].channel; c in s.accepting || c in s.cleanups || c in s.dead
  }

  ghost predicate Invariant(s: State) {
    NamedByTopic(s) && LiveAccept(s) && CleanupsOwned(s) && NoneForgotten(s)
  }

  lemma StepKeepsInvariant(s: State, step: Step)
    requires Invariant(s) && Enabled(s, step)
    ensures Invariant(Apply(s, step))
  {
    hide Invariant, AfterRegister, AfterUnregister;
    match step
    case Register(topic, topicType, e) => RegisterKeepsInvariant(s, topic, topicType, e);
    case DropPublisher(c) => DropKeepsInvariant(s, c);
    case PeerConnects(c) => ConnectKeepsInvariant(s, c);
    case PeerAnswered(c) => AnswerKeepsInvariant(s, c);
    case NoticeShutdown(c) => NoticeKeepsInvariant(s, c);
    case AcceptTaskDies(c) => DeathKeepsInvariant(s, c);
    case RunCleanup(c) => CleanupKeepsInvariant(s, c);
  }

  lemma DropKeepsInvariant(s: State, c: Channel)
    requires Invariant(s) && c in s.senders
    ensures Invariant(s.(senders := s.senders - multiset{c}))
  {
    assert forall d :: d in s.senders - multiset{c} ==> d in s.senders;
  }

  lemma ConnectKeepsInvariant(s: State, c: Channel)
    requires Invariant(s) && c in s.accepting
    ensures Invariant(s.(answering := s.answering + {c}))
  {
  }

  lemma AnswerKeepsInvariant(s: State, c: Channel)
    requires Invariant(s)
    ensures Invariant(s.(answering := s.answering - {c}))
  {
  }

  lemma NoticeKeepsInvariant(s: State, c: Channel)
    requires Invariant(s) && c in s.accepting && c !in s.answering && c !in s.senders
    ensures Invariant(s.(accepting := s.accepting - {c}, cleanups := s.cleanups + multiset{c}))
  {
  }

  lemma DeathKeepsInvariant(s: State, c: Channel)
    requires Invariant(s) && c in s.answering
    ensures Invariant(s.(accepting := s.accepting - {c}, answering := s.answering - {c}, dead := s.dead + {c}))
  {
  }

  lemma FiledWithout(s: State, c: Channel)
    requires Filed(s, c)
    ensures forall d :: Filed(s.(publishers := s.publishers - {c.topic}), d) <==> Filed(s, d) && d != c
  {
  }

  // A publication without publisher and accept task goes, and its cleanup task with it.
  lemma RemoveKeepsInvariant(s: State, s': State, c: Channel)
    requires Invariant(s) && c in s.cleanups
    requires s' == s.(publishers := s.publishers - {c.topic}, cleanups := s'.cleanups)
    requires forall d :: s'.cleanups[d] == if d == c then 0 else s.cleanups[d]
    ensures Invariant(s')
  {
    FiledWithout(s, c);
    assert forall d :: Filed(s', d) <==> Filed(s, d) && d != c;
    hide Filed;
    assert LiveAccept(s') && CleanupsOwned(s') by { hide NoneForgotten, NamedByTopic; }
    hide LiveAccept, CleanupsOwned;
  }

  lemma CleanupKeepsInvariant(s: State, c: Channel)
    requires Invariant(s) && c in s.cleanups
    ensures Invariant(AfterUnregister(s.(cleanups := s.cleanups - multiset{c}), c.topic))
  {
    assert Filed(s, c) && c !in s.accepting && s.cleanups[c] == 1;
    hide Invariant;
    var s' := AfterUnregister(s.(cleanups := s.cleanups - multiset{c}), c.topic);
    assert c !in s.answering && s.accepting - {c} == s.accepting && s.answering - {c} == s.answering by {
      CleanupIsOwned(s, c);
    }
    RemoveKeepsInvariant(s, s', c);
  }

  lemma RegisterKeepsInvariant(s: State, topic: string, topicType: string, e: Environment)
    requires Invariant(s)
    ensures Invariant(AfterRegister(s, topic, topicType, e))
  {
    hide NamedByTopic, LiveAccept, CleanupsOwned, NoneForgotten;
    if topic in s.publishers {
      if RegisterResult(s, topic, topicType, e).Ok? {
        ShareKeepsInvariant(s, s.publishers[topic].channel);
      }
    } else if e.bindSucceeds {
      FileKeepsInvariant(s, topic, topicType);
      if e.masterSucceeds {
        ShareKeepsInvariant(File(s, topic, topicType), Channel(topic, s.nextId));
      }
    }
  }

  lemma ShareKeepsInvariant(s: State, channel: Channel)
    requires Invariant(s) && (channel in s.senders || channel in s.accepting)
    ensures Invariant(s.(senders := s.senders + multiset{channel}))
  {
    assert forall d :: d in s.senders + multiset{channel} <==> d in s.senders || d == channel;
  }

  lemma FiledBefore(s: State, topic: string, topicType: string)
    requires NamedByTopic(s) && topic !in s.publishers
    ensures NamedByTopic(File(s, topic, topicType)) && Filed(File(s, topic, topicType), Channel(topic, s.nextId))
    ensures forall c | Filed(s, c) :: Filed(File(s, topic, topicType), c) && c.id < s.nextId
  {
  }

  lemma FileKeepsInvariant(s: State, topic: string, topicType: string)
    requires Invariant(s) && topic !in s.publishers
    ensures Invariant(File(s, topic, topicType))
  {
    var s' := File(s, topic, topicType);
    FiledBefore(s, topic, topicType);
    assert LiveAccept(s') && CleanupsOwned(s') by { hide NamedByTopic, NoneForgotten, Filed; }
    assert NoneForgotten(s') by { hide NamedByTopic, LiveAccept, CleanupsOwned, Filed; }
  }

  /******* the node *******/

  // Each method carries out one step on the fields. `Valid` is what the steps keep.
  class Node {
    var publishers: map<string, Publication>
    var senders: multiset<Channel>
    var accepting: set<Channel>
    var answering: set<Channel>
    ghost var dead: set<Channel>
    var cleanups: multiset<Channel>
    var nextId: nat

    ghost function Current(): State
      reads this
    {
      State(publishers, senders, accepting, answering, dead, cleanups, nextId)
    }

    ghost predicate Valid()
      reads this
    {
      Invariant(Current())
    }

    constructor ()
      ensures Valid() && Current() == INITIAL
    {
      publishers, senders, accepting, answering := map[], multiset{}, {}, {};
      dead, cleanups, nextId := {}, multiset{}, 0;
    }

    // A new publication starts its accept task and hands out the first sender.
    method NewPublication(topic: string) returns (channel: Channel)
      modifies this`nextId, this`accepting, this`senders
      ensures channel == Channel(topic, old(nextId)) && nextId == old(nextId) + 1
      ensures accepting == old(accepting) + {channel} && senders == old(senders) + multiset{channel}
    {
      channel := Channel(topic, nextId);
      nextId := nextId + 1;
      accepting := accepting + {channel};
      senders := senders + multiset{channel};
    }

    method CreatePublication(topic: string, topicType: string, masterSucceeds: bool)
      returns (r: Result<Channel, NodeError>)
      modifies this`publishers, this`senders, this`accepting, this`nextId
      ensures var filed := File(old(Current()), topic, topicType);
              if masterSucceeds then
                && r == Ok(Channel(topic, old(nextId)))
                && Current() == filed.(senders := filed.senders + multiset{r.value})
              else r == Err(MasterFailed) && Current() == filed
    {
      var channel := NewPublication(topic);
      publishers := publishers[topic := Publication(topicType, channel)];
      if !masterSucceeds {
        // Returning early drops the new sender.
        senders := senders - multiset{channel};
        AddAndRemove(old(senders), channel);
        return Err(MasterFailed);
      }
      r := Ok(channel);
    }

    // A taken topic is shared exactly if it has the type asked for and a live publisher; a free
    // one gets a publication if the environment lets it. A success gives one more publisher of
    // the publication under the topic, and a topic that is taken keeps its publication.
    method RegisterPublisher(topic: string, topicType: string, e: Environment) returns (r: Result<Channel, NodeError>)
      requires Valid()
      modifies this`publishers, this`senders, this`accepting, this`nextId
      ensures Valid()
      ensures Current() == Apply(old(Current()), Register(topic, topicType, e))
      ensures r.Ok? <==> if topic in old(publishers)
                         then old(publishers)[topic].topicType == topicType
                              && old(publishers)[topic].channel in old(senders)
                         else e.bindSucceeds && e.masterSucceeds
      ensures r.Err? ==>
                r.error == if topic in old(publishers)
                           then if old(publishers)[topic].topicType != topicType then TypeMismatch else AlreadyShutDown
                           else if !e.bindSucceeds then BindFailed else MasterFailed
      ensures r.Ok? ==>
                && Filed(Current(), r.value) && publishers[topic].topicType == topicType
                && senders == old(senders) + multiset{r.value}
                && (if topic in old(publishers) then r.value in old(senders)
                    else r.value == Channel(topic, old(nextId)))
                && (topic !in old(publishers) ==> r.value in accepting)
      ensures r.Err? ==> senders == old(senders)
      ensures topic in old(publishers) ==> publishers == old(publishers)
      ensures topic in publishers <==> topic in old(publishers) || e.bindSucceeds
      ensures topic in publishers && topic !in old(publishers) ==>
                publishers[topic] == Publication(topicType, Channel(topic, old(nextId)))
      ensures publishers - {topic} == old(publishers) - {topic}
    {
      StepKeepsInvariant(Current(), Register(topic, topicType, e));
      RegistrationMeans(Current(), topic, topicType, e);
      hide Invariant, Filed;
      if topic in publishers {
        var publication := publishers[topic];
        if publication.topicType != topicType {
          return Err(TypeMismatch);
        }
        if publication.channel !in senders {
          return Err(AlreadyShutDown);
        }
        senders := senders + multiset{publication.channel};
        return Ok(publication.channel);
      }
      if !e.bindSucceeds {
        return Err(BindFailed);
      }
      r := CreatePublication(topic, topicType, e.masterSucceeds);
    }

    // The body of a cleanup task. The removal happens whatever the master answers, always
    // finds the publication that the task was started for, and takes away no live publisher's.
    method UnregisterPublisher(cleanup: Channel, masterSucceeds: bool) returns (r: Result<(), NodeError>)
      requires Valid() && Enabled(Current(), RunCleanup(cleanup))
      modifies this`publishers, this`accepting, this`answering, this`cleanups
      ensures Valid() && Current() == Apply(old(Current()), RunCleanup(cleanup))
      ensures old(Filed(Current(), cleanup)) && publishers == old(publishers) - {cleanup.topic}
      ensures accepting == old(accepting) && answering == old(answering)
      ensures cleanup !in cleanups && cleanup !in senders
      ensures r.Ok? <==> masterSucceeds
    {
      hide Invariant;
      StepKeepsInvariant(Current(), RunCleanup(cleanup));
      CleanupIsOwned(Current(), cleanup);
      CleanupChanges(Current(), cleanup);
      hide Apply, Enabled;
      cleanups := cleanups - multiset{cleanup};
      var found := cleanup.topic in publishers;
      if found {
        accepting := accepting - {publishers[cleanup.topic].channel};
        answering := answering - {publishers[cleanup.topic].channel};
        publishers := publishers - {cleanup.topic};
      }
      r := if masterSucceeds && found then Ok(()) else Err(UnregisterFailed);
    }
  }

  lemma AddAndRemove(senders: multiset<Channel>, c: Channel)
    ensures senders + multiset{c} - multiset{c} == senders
  {
  }

  lemma RegistrationMeans(s: State, topic: string, topicType: string, e: Environment)
    requires Invariant(s)
    ensures var r, s' := RegisterResult(s, topic, topicType, e), AfterRegister(s, topic, topicType, e);
            && (r.Ok? ==>
                  && Filed(s', r.value) && s'.publishers[topic].topicType == topicType
                  && s'.senders == s.senders + multiset{r.value}
                  && (if topic in s.publishers then r.value in s.senders else r.value == Channel(topic, s.nextId))
                  && (topic !in s.publishers ==> r.value in s'.accepting))
            && (r.Err? ==> s'.senders == s.senders)
            && (topic in s.publishers ==> s'.publishers == s.publishers)
            && (topic in s'.publishers <==> topic in s.publishers || e.bindSucceeds)
            && (topic in s'.publishers && topic !in s.publishers ==>
                  s'.publishers[topic] == Publication(topicType, Channel(topic, s.nextId)))
            && s'.publishers - {topic} == s.publishers - {topic}
  {
    hide CleanupsOwned, NoneForgotten;
    if topic !in s.publishers {
      hide LiveAccept, NamedByTopic;
      assert Filed(File(s, topic, topicType), Channel(topic, s.nextId));
      hide Filed;
    }
  }

  lemma CleanupIsOwned(s: State, c: Channel)
    requires Invariant(s) && c in s.cleanups
    ensures Filed(s, c) && c !in s.accepting && c !in s.answering && c !in s.dead && c !in s.senders
    ensures s.cleanups[c] == 1
  {
  }

  lemma CleanupChanges(s: State, c: Channel)
    requires Invariant(s) && c in s.cleanups
    ensures Apply(s, RunCleanup(c))
            == s.(publishers := s.publishers - {c.topic}, cleanups := s.cleanups - multiset{c})
    ensures c !in s.cleanups - multiset{c}
  {
    CleanupIsOwned(s, c);
    hide Invariant;
    assert s.accepting - {c} == s.accepting && s.answering - {c} == s.answering;
  }

  /******* runs *******/

  ghost predicate IsRun(states: seq<State>, steps: seq<Step>) {
    && |states| == |steps| + 1 && states[0] == INITIAL
    && forall i | 0 <= i < |steps| :: Enabled(states[i], steps[i]) && states[i + 1] == Apply(states[i], steps[i])
  }

  lemma {:induction false} RunKeepsInvariant(states: seq<State>, steps: seq<Step>, i: nat)
    requires IsRun(states, steps) && i < |states|
    ensures Invariant(states[i])
    decreases i
  {
    hide Invariant, Apply, Enabled;
    if i == 0 {
      InitialInvariant();
    } else {
      RunKeepsInvariant(states, steps, i - 1);
      StepKeepsInvariant(states[i - 1], steps[i - 1]);
    }
  }

  lemma InitialInvariant()
    ensures Invariant(INITIAL)
  {
  }

  // In every run, a cleanup task removes exactly the publication whose publishers all died,
  // never a newer one of the same topic, and nothing else.
  lemma CleanupRemovesItsOwn(states: seq<State>, steps: seq<Step>, i: nat)
    requires IsRun(states, steps) && i < |steps| && steps[i].RunCleanup?
    ensures var s, s', c := states[i], states[i + 1], steps[i].cleanup;
            && Filed(s, c) && c !in s.senders
            && s'.publishers == s.publishers - {c.topic}
            && s'.senders == s.senders && s'.accepting == s.accepting && s'.answering == s.answering
  {
    hide Enabled;
    RunKeepsInvariant(states, steps, i);
    assert Enabled(states[i], steps[i]) && states[i + 1] == Apply(states[i], steps[i]);
    var c := steps[i].cleanup;
    assert c in states[i].cleanups by { CleanupIsPending(states[i], steps[i]); }
  }

  lemma CleanupIsPending(s: State, step: Step)
    requires step.RunCleanup? && Enabled(s, step)
    ensures step.cleanup in s.cleanups
  {
  }

  // A publication whose publishers all died never gets a publisher again, in no later state of
  // the run: the node hands out senders of live channels only, and new channels are new.
  lemma {:induction false} DeadStaysDead(states: seq<State>, steps: seq<Step>, i: nat, j: nat, c: Channel)
    requires IsRun(states, steps) && i <= j < |states|
    requires c.id < states[i].nextId && c !in states[i].senders
    ensures c.id < states[j].nextId && c !in states[j].senders
    decreases j
  {
    hide Apply, Enabled;
    if i < j {
      DeadStaysDead(states, steps, i, j - 1, c);
      DeadStep(states[j - 1], steps[j - 1], c);
    }
  }

  lemma DeadStep(s: State, step: Step, c: Channel)
    requires Enabled(s, step) && c.id < s.nextId && c !in s.senders
    ensures c.id < Apply(s, step).nextId && c !in Apply(s, step).senders
  {
  }

  // A registration for the topic of a live publisher is shared, and gives it one more sender,
  // exactly if it asks for the type that is filed; otherwise nothing changes.
  lemma LivePublicationIsShared(states: seq<State>, steps: seq<Step>, i: nat, c: Channel)
    requires IsRun(states, steps) && i < |steps| && c in states[i].senders
    requires steps[i].Register? && steps[i].topic == c.topic
    ensures Filed(states[i], c)
    ensures if states[i].publishers[c.topic].topicType == steps[i].topicType
            then states[i + 1] == states[i].(senders := states[i].senders + multiset{c})
            else states[i + 1] == states[i]
  {
    RunKeepsInvariant(states, steps, i);
    hide LiveAccept, CleanupsOwned, NoneForgotten;
    assert Filed(states[i], c) by { LiveIsFiled(states[i], c); }
    assert states[i + 1] == Apply(states[i], steps[i]);
  }

  lemma LiveIsFiled(s: State, c: Channel)
    requires Invariant(s) && c in s.senders
    ensures Filed(s, c)
  {
  }

  // At any time, at most one cleanup task is pending for a topic.
  lemma OneCleanupPerTopic(states: seq<State>, steps: seq<Step>, i: nat, c: Channel, d: Channel)
    requires IsRun(states, steps) && i < |states|
    requires c in states[i].cleanups && d in states[i].cleanups && c.topic == d.topic
    ensures c == d && states[i].cleanups[c] == 1
  {
    hide Apply, Enabled;
    RunKeepsInvariant(states, steps, i);
  }

  // The topic of a live publisher is in the map, with that publisher's own publication, so
  // all live publishers of a topic share one publication. It takes the next connection unless
  // its accept task has panicked or is busy with a peer.
  lemma LivePublisherIsFiled(states: seq<State>, steps: seq<Step>, i: nat, c: Channel)
    requires IsRun(states, steps) && i < |states| && c in states[i].senders
    ensures Filed(states[i], c) && c !in states[i].cleanups
    ensures Enabled(states[i], PeerConnects(c)) <==> !HasDied(steps, i, c) && !IsBusy(steps, i, c)
    ensures forall d <- states[i].senders | d.topic == c.topic :: d == c
  {
    hide HasDied, IsBusy;
    RunKeepsInvariant(states, steps, i);
    DeadMeansDied(states, steps, i, c);
    AnsweringMeansBusy(states, steps, i, c);
  }

  /******* accept tasks that panic or wait *******/

  // The accept task of the channel panicked before state `i`.
  ghost predicate HasDied(steps: seq<Step>, i: nat, c: Channel) {
    exists k | 0 <= k < |steps| && k < i :: steps[k] == AcceptTaskDies(c)
  }

  lemma {:induction false} DeadMeansDied(states: seq<State>, steps: seq<Step>, i: nat, c: Channel)
    requires IsRun(states, steps) && i < |states|
    ensures c in states[i].dead <==> HasDied(steps, i, c)
    decreases i
  {
    hide Enabled;
    if i > 0 {
      DeadMeansDied(states, steps, i - 1, c);
      assert states[i] == Apply(states[i - 1], steps[i - 1]);
      assert HasDied(steps, i, c) <==> HasDied(steps, i - 1, c) || steps[i - 1] == AcceptTaskDies(c);
    }
  }

  predicate EndsAnswer(step: Step, c: Channel) { step == PeerAnswered(c) || step == AcceptTaskDies(c) }

  ghost predicate BusySince(steps: seq<Step>, k: nat, i: nat, c: Channel)
    requires k < i <= |steps|
  {
    steps[k] == PeerConnects(c) && forall l | k < l < i :: !EndsAnswer(steps[l], c)
  }

  // In state `i` the accept task of the channel is still busy with a peer that connected before.
  ghost predicate IsBusy(steps: seq<Step>, i: nat, c: Channel)
    requires i <= |steps|
  {
    exists k: nat | k < i :: BusySince(steps, k, i, c)
  }

  lemma BusyNext(steps: seq<Step>, i: nat, c: Channel)
    requires 0 < i <= |steps|
    ensures IsBusy(steps, i, c) <==>
            steps[i - 1] == PeerConnects(c) || (IsBusy(steps, i - 1, c) && !EndsAnswer(steps[i - 1], c))
  {
    if steps[i - 1] == PeerConnects(c) {
      assert BusySince(steps, i - 1, i, c);
    } else if IsBusy(steps, i, c) {
      var k: nat :| k < i && BusySince(steps, k, i, c);
      assert BusySince(steps, k, i - 1, c);
    } else if IsBusy(steps, i - 1, c) {
      var k: nat :| k < i - 1 && BusySince(steps, k, i - 1, c);
      assert !EndsAnswer(steps[i - 1], c) ==> BusySince(steps, k, i, c);
    }
  }

  // A cleanup never runs for a publication whose accept task is busy.
  lemma AnsweringStep(s: State, step: Step, c: Channel)
    requires Invariant(s) && Enabled(s, step)
    ensures c in Apply(s, step).answering <==> step == PeerConnects(c) || (c in s.answering && !EndsAnswer(step, c))
  {
    hide Invariant;
    if step.RunCleanup? {
      CleanupIsOwned(s, step.cleanup);
    } else if step.Register? {
      RegisterKeepsPeers(s, step.topic, step.topicType, step.environment);
      hide AfterRegister;
    }
  }

  lemma RegisterKeepsPeers(s: State, topic: string, topicType: string, e: Environment)
    ensures var s' := AfterRegister(s, topic, topicType, e);
            && s'.answering == s.answering && s'.dead == s.dead
            && forall t <- s.publishers.Keys :: t in s'.publishers && s'.publishers[t] == s.publishers[t]
  {
  }

  lemma {:induction false} AnsweringMeansBusy(states: seq<State>, steps: seq<Step>, i: nat, c: Channel)
    requires IsRun(states, steps) && i < |states|
    ensures c in states[i].answering <==> IsBusy(steps, i, c)
    decreases i
  {
    hide Enabled, Apply, IsBusy;
    if i > 0 {
      AnsweringMeansBusy(states, steps, i - 1, c);
      RunKeepsInvariant(states, steps, i - 1);
      hide Invariant;
      AnsweringStep(states[i - 1], steps[i - 1], c);
      BusyNext(steps, i, c);
    } else {
      assert c !in INITIAL.answering;
      NotBusyAtFirst(steps, c);
    }
  }

  lemma NotBusyAtFirst(steps: seq<Step>, c: Channel)
    ensures !IsBusy(steps, 0, c)
  {
  }

  // The end of the publication can not be noticed: nobody looks.
  ghost predicate IsDeaf(steps: seq<Step>, i: nat, c: Channel)
    requires i <= |steps|
  {
    HasDied(steps, i, c) || IsBusy(steps, i, c)
  }

  // A publication without publishers can have its end noticed, or has its cleanup pending, if
  // and only if its accept task has not panicked and is not busy with a peer.
  lemma ForgottenIffDeaf(states: seq<State>, steps: seq<Step>, i: nat, topic: string)
    requires IsRun(states, steps) && i < |states| && topic in states[i].publishers
    requires states[i].publishers[topic].channel !in states[i].senders
    ensures var c := states[i].publishers[topic].channel;
            !Enabled(states[i], NoticeShutdown(c)) && !Enabled(states[i], RunCleanup(c)) <==> IsDeaf(steps, i, c)
  {
    hide HasDied, IsBusy;
    var c := states[i].publishers[topic].channel;
    RunKeepsInvariant(states, steps, i);
    DeadMeansDied(states, steps, i, c);
    AnsweringMeansBusy(states, steps, i, c);
  }

  // When no notice and no cleanup is left to do, a publication has a live publisher, or its
  // accept task has panicked or is busy with a peer.
  lemma QuietNodeHasNoDeadPublication(states: seq<State>, steps: seq<Step>, i: nat, topic: string)
    requires IsRun(states, steps) && i < |states| && topic in states[i].publishers
    requires forall c :: !Enabled(states[i], NoticeShutdown(c)) && !Enabled(states[i], RunCleanup(c))
    ensures var c := states[i].publishers[topic].channel;
            c !in states[i].senders ==> IsDeaf(steps, i, c)
  {
    hide Enabled, IsDeaf;
    var c := states[i].publishers[topic].channel;
    assert !Enabled(states[i], NoticeShutdown(c)) && !Enabled(states[i], RunCleanup(c));
    if c !in states[i].senders {
      ForgottenIffDeaf(states, steps, i, topic);
    }
  }

  // A registration is refused for a publication that shut down exactly while its end can be
  // noticed or its cleanup is pending, or when its last publisher is gone and its accept task
  // has panicked or is busy with a peer.
  lemma RefusedUntilCleanedUp(states: seq<State>, steps: seq<Step>, i: nat, topic: string, topicType: string,
                              e: Environment)
    requires IsRun(states, steps) && i < |states|
    requires topic in states[i].publishers && states[i].publishers[topic].topicType == topicType
    ensures var c := states[i].publishers[topic].channel;
            RegisterResult(states[i], topic, topicType, e) == Err(AlreadyShutDown)
            <==> || Enabled(states[i], NoticeShutdown(c)) || Enabled(states[i], RunCleanup(c))
                 || (IsDeaf(steps, i, c) && c !in states[i].senders)
  {
    hide IsDeaf;
    var c := states[i].publishers[topic].channel;
    RunKeepsInvariant(states, steps, i);
    if c !in states[i].senders {
      ForgottenIffDeaf(states, steps, i, topic);
    }
  }

  // Once the peer is answered, the end is noticed, the cleanup runs, and the topic is free.
  lemma AnsweredPeerFreesTopic(states: seq<State>, steps: seq<Step>, i: nat, c: Channel)
    requires IsRun(states, steps) && i < |states| && IsBusy(steps, i, c) && c !in states[i].senders
    ensures Enabled(states[i], PeerAnswered(c))
    ensures var answered := Apply(states[i], PeerAnswered(c));
            && Enabled(answered, NoticeShutdown(c))
            && var noticed := Apply(answered, NoticeShutdown(c));
               Enabled(noticed, RunCleanup(c)) && c.topic !in Apply(noticed, RunCleanup(c)).publishers
  {
    hide IsBusy;
    RunKeepsInvariant(states, steps, i);
    AnsweringMeansBusy(states, steps, i, c);
  }

  lemma DeafIsFiled(s: State, c: Channel)
    requires Invariant(s) && (c in s.dead || c in s.answering)
    ensures Filed(s, c) && c !in s.cleanups && c.id < s.nextId
  {
  }

  // A publication leaves the map only by its own cleanup.
  lemma OthersStay(s: State, step: Step, c: Channel)
    requires Invariant(s) && Enabled(s, step) && Filed(s, c) && c !in s.cleanups
    ensures c.topic in Apply(s, step).publishers && Apply(s, step).publishers[c.topic] == s.publishers[c.topic]
    ensures s.dead <= Apply(s, step).dead
  {
    hide Invariant;
    if step.RunCleanup? {
      CleanupIsOwned(s, step.cleanup);
    } else if step.Register? {
      RegisterKeepsPeers(s, step.topic, step.topicType, step.environment);
      hide AfterRegister;
    }
  }

  lemma DeafStaysFiled(s: State, step: Step, c: Channel)
    requires Invariant(s) && Enabled(s, step) && (c in s.dead || c in s.answering) && step != PeerAnswered(c)
    ensures c in Apply(s, step).dead || c in Apply(s, step).answering
    ensures Filed(s, c) && Filed(Apply(s, step), c) && c.id < s.nextId
    ensures Apply(s, step).publishers[c.topic] == s.publishers[c.topic]
  {
    DeafIsFiled(s, c);
    hide Invariant;
    AnsweringStep(s, step, c);
    OthersStay(s, step, c);
    if step == AcceptTaskDies(c) {
      assert c in Apply(s, step).dead;
    }
    hide Apply, Enabled;
  }

  // Once the last publisher is gone while the accept task has panicked or is busy, the
  // publication stays in the map and its topic is refused for as long as the peer is not
  // answered: after a panic, or if the peer stays silent, for ever.
  lemma {:induction false} TopicStaysRefused(states: seq<State>, steps: seq<Step>, i: nat, j: nat, c: Channel,
                                             topicType: string, e: Environment)
    requires IsRun(states, steps) && i <= j < |states|
    requires IsDeaf(steps, i, c) && c !in states[i].senders
    requires HasDied(steps, i, c) || forall l | i <= l < j :: steps[l] != PeerAnswered(c)
    ensures Filed(states[i], c) && Filed(states[j], c)
    ensures states[j].publishers[c.topic] == states[i].publishers[c.topic]
    ensures IsDeaf(steps, j, c) && c !in states[j].senders
    ensures RegisterResult(states[j], c.topic, topicType, e)
            == Err(if states[i].publishers[c.topic].topicType == topicType then AlreadyShutDown else TypeMismatch)
    decreases j
  {
    hide Apply, Enabled, Invariant, HasDied, IsBusy;
    DeadMeansDied(states, steps, i, c);
    AnsweringMeansBusy(states, steps, i, c);
    RunKeepsInvariant(states, steps, i);
    DeafIsFiled(states[i], c);
    if i < j {
      TopicStaysRefused(states, steps, i, j - 1, c, topicType, e);
      DeadMeansDied(states, steps, j - 1, c);
      AnsweringMeansBusy(states, steps, j - 1, c);
      RunKeepsInvariant(states, steps, j - 1);
      if HasDied(steps, i, c) {
        DiedBefore(steps, i, j - 1, c);
        DeadIsNotAnswered(states[j - 1], steps[j - 1], c);
      }
      DeafStaysFiled(states[j - 1], steps[j - 1], c);
      DeadStep(states[j - 1], steps[j - 1], c);
      DeadMeansDied(states, steps, j, c);
      AnsweringMeansBusy(states, steps, j, c);
    }
  }

  lemma DiedBefore(steps: seq<Step>, i: nat, j: nat, c: Channel)
    requires HasDied(steps, i, c) && i <= j
    ensures HasDied(steps, j, c)
  {
  }

  lemma DeadIsNotAnswered(s: State, step: Step, c: Channel)
    requires Invariant(s) && c in s.dead && Enabled(s, step)
    ensures step != PeerAnswered(c)
  {
  }

  /******* runs that strand a topic *******/

  const STRANDED: Channel := Channel("/topic", 0)

  const FILED: map<string, Publication> := map["/topic" := Publication("std_msgs/String", STRANDED)]

  const START: seq<Step> := [Register("/topic", "std_msgs/String", Environment(true, true)), PeerConnects(STRANDED)]

  const START_STATES: seq<State> := [
    INITIAL,
    State(FILED, multiset{STRANDED}, {STRANDED}, {}, {}, multiset{}, 1),
    State(FILED, multiset{STRANDED}, {STRANDED}, {STRANDED}, {}, multiset{}, 1)]

  // A peer connects and stays silent.
  const SILENCE: seq<Step> := START + [DropPublisher(STRANDED)]

  const SILENCE_STATES: seq<State> := START_STATES + [
    State(FILED, multiset{}, {STRANDED}, {STRANDED}, {}, multiset{}, 1)]

  // A peer connects and breaks the connection off before it is answered.
  const PANIC: seq<Step> := START + [AcceptTaskDies(STRANDED), DropPublisher(STRANDED)]

  const PANIC_STATES: seq<State> := START_STATES + [
    State(FILED, multiset{STRANDED}, {}, {}, {STRANDED}, multiset{}, 1),
    State(FILED, multiset{}, {}, {}, {STRANDED}, multiset{}, 1)]

  ghost predicate IsStep(s: State, step: Step, s': State) { Enabled(s, step) && s' == Apply(s, step) }

  lemma PeerArrives()
    ensures IsStep(START_STATES[0], START[0], START_STATES[1]) && IsStep(START_STATES[1], START[1], START_STATES[2])
  {
  }

  lemma PublisherDropped()
    ensures IsStep(SILENCE_STATES[2], SILENCE[2], SILENCE_STATES[3])
  {
  }

  lemma PeerBreaksOff()
    ensures IsStep(PANIC_STATES[2], PANIC[2], PANIC_STATES[3]) && IsStep(PANIC_STATES[3], PANIC[3], PANIC_STATES[4])
  {
  }

  lemma SilentPeerStrandsTopic()
    ensures IsRun(SILENCE_STATES, SILENCE)
    ensures IsBusy(SILENCE, 3, STRANDED) && STRANDED !in SILENCE_STATES[3].senders
    ensures !Enabled(SILENCE_STATES[3], NoticeShutdown(STRANDED)) && !Enabled(SILENCE_STATES[3], RunCleanup(STRANDED))
  {
    PeerArrives();
    PublisherDropped();
    hide Apply;
    forall i | 0 <= i < |SILENCE| ensures IsStep(SILENCE_STATES[i], SILENCE[i], SILENCE_STATES[i + 1]) {
    }
    assert BusySince(SILENCE, 1, 3, STRANDED);
  }

  lemma TopicCanBeStranded()
    ensures IsRun(PANIC_STATES, PANIC)
    ensures HasDied(PANIC, 4, STRANDED) && STRANDED !in PANIC_STATES[4].senders
    ensures !Enabled(PANIC_STATES[4], NoticeShutdown(STRANDED)) && !Enabled(PANIC_STATES[4], RunCleanup(STRANDED))
  {
    PeerArrives();
    PeerBreaksOff();
    hide Apply;
    forall i | 0 <= i < |PANIC| ensures IsStep(PANIC_STATES[i], PANIC[i], PANIC_STATES[i + 1]) {
    }
    assert PANIC[2] == AcceptTaskDies(STRANDED);
  }
}
