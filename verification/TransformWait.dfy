// Waiting for a transform (roslibrust_transforms/src/lib.rs): a waiter looks the transform up,
// and if it is not there waits for a notification or its deadline. Whoever adds transforms
// changes the registry first and sends the notification afterwards, not in one step. The
// lookup itself is the parameter `lookup`.
module TransformWait {
  import opened Wrappers

  datatype Transform = Transform(parent: string, child: string, timestamp: int, pose: string)

  datatype Query = Query(targetFrame: string, sourceFrame: string, time: int)

  type Registry = seq<Transform>

  type Lookup = (Registry, Query) -> Option<Transform>

  // Messages that the broadcast channel keeps for a slow receiver.
  const CAPACITY: nat := 16

  datatype Outcome = Found(transform: Transform) | TimedOut

  // `Looking` is about to look up; `Missed` found nothing and has not looked at the clock yet;
  // `Blocked` waits; `LastLook` was woken by its deadline.
  datatype Phase = Looking | Missed | Blocked | LastLook | Done(outcome: Outcome)

  // `seen` counts the notifications the waiter has read or missed; `missedOn` is the registry
  // of its last failed lookup.
  datatype Waiter = Waiter(query: Query, deadline: nat, seen: nat, missedOn: Option<Registry>, phase: Phase)

  // `sent` counts the notifications; `owing` are the tasks that have added transforms and not
  // yet sent their notification.
  datatype State = State(clock: nat, registry: Registry, sent: nat, owing: set<nat>, waiters: map<nat, Waiter>)

  const INITIAL: State := State(0, [], 0, {}, map[])

  datatype Step =
    | Pass(time: nat)
    | Add(task: nat, transforms: seq<Transform>)
    | Notify(task: nat)
    | Wait(id: nat, query: Query, timeout: nat)
    | LookUp(id: nat)
    | CheckDeadline(id: nat)
    | Receive(id: nat)
    | DeadlinePassed(id: nat)

  predicate InPhase(s: State, id: nat, phase: Phase) { id in s.waiters && s.waiters[id].phase == phase }

  predicate Enabled(s: State, step: Step) {
    match step
    case Pass(_) => true
    case Add(task, _) => task !in s.owing
    case Notify(task) => task in s.owing
    case Wait(id, _, _) => id !in s.waiters
    case LookUp(id) => InPhase(s, id, Looking) || InPhase(s, id, LastLook)
    case CheckDeadline(id) => InPhase(s, id, Missed)
    case Receive(id) => InPhase(s, id, Blocked) && s.waiters[id].seen < s.sent
    case DeadlinePassed(id) => InPhase(s, id, Blocked) && s.clock >= s.waiters[id].deadline
  }

  function SetWaiter(s: State, id: nat, w: Waiter): State { s.(waiters := s.waiters[id := w]) }

  // A lookup that fails is final when the deadline has woken the waiter.
  function AfterLookUp(lookup: Lookup, s: State, w: Waiter): Waiter {
    match lookup(s.registry, w.query)
    case Some(t) => w.(phase := Done(Found(t)))
    case None => w.(missedOn := Some(s.registry), phase := if w.phase.LastLook? then Done(TimedOut) else Missed)
  }

  // A receiver that lags behind skips to the oldest notification that is still kept, and is
  // told so; otherwise it reads the next one. The waiter looks again in both cases.
  function AfterReceive(s: State, w: Waiter): Waiter {
    w.(phase := Looking, seen := if s.sent > w.seen + CAPACITY then s.sent - CAPACITY else w.seen + 1)
  }

  function Apply(lookup: Lookup, s: State, step: Step): State
    requires Enabled(s, step)
  {
    match step
    case Pass(time) => s.(clock := s.clock + time)
    case Add(task, transforms) => s.(registry := s.registry + transforms, owing := s.owing + {task})
    case Notify(task) => s.(sent := s.sent + 1, owing := s.owing - {task})
    case Wait(id, query, timeout) => SetWaiter(s, id, Waiter(query, s.clock + timeout, s.sent, None, Looking))
    case LookUp(id) => SetWaiter(s, id, AfterLookUp(lookup, s, s.waiters[id]))
    case CheckDeadline(id) =>
      var phase := if s.clock >= s.waiters[id].deadline then Done(TimedOut) else Blocked;
      SetWaiter(s, id, s.waiters[id].(phase := phase))
    case Receive(id) => SetWaiter(s, id, AfterReceive(s, s.waiters[id]))
    case DeadlinePassed(id) => SetWaiter(s, id, s.waiters[id].(phase := LastLook))
  }

  /******* what every step keeps *******/

  predicate Waiting(w: Waiter) { w.phase.Missed? || w.phase.Blocked? }

  // A waiter that has missed has something to read, or somebody still owes a notification, or
  // the registry is the very one it looked at.
  ghost predicate NoLostWakeup(s: State) {
    forall id <- s.waiters.Keys | Waiting(s.waiters[id]) ::
      s.waiters[id].seen < s.sent || s.owing != {} || s.waiters[id].missedOn == Some(s.registry)
  }

  // A failed lookup stands behind every wait and every timeout.
  ghost predicate MissesMatch(lookup: Lookup, s: State) {
    forall id <- s.waiters.Keys ::
      var w := s.waiters[id];
      && w.seen <= s.sent
      && (w.missedOn.Some? ==> lookup(w.missedOn.value, w.query) == None)
      && (Waiting(w) || w.phase == Done(TimedOut) || w.phase == LastLook ==> w.missedOn.Some?)
      && (w.phase == Done(TimedOut) || w.phase == LastLook ==> s.clock >= w.deadline)
  }

  ghost predicate Invariant(lookup: Lookup, s: State) { NoLostWakeup(s) && MissesMatch(lookup, s) }

  lemma StepKeepsWakeups(lookup: Lookup, s: State, step: Step)
    requires NoLostWakeup(s) && MissesMatch(lookup, s) && Enabled(s, step)
    ensures NoLostWakeup(Apply(lookup, s, step))
  {
  }

  lemma StepKeepsMisses(lookup: Lookup, s: State, step: Step)
    requires MissesMatch(lookup, s) && Enabled(s, step)
    ensures MissesMatch(lookup, Apply(lookup, s, step))
  {
  }

  lemma StepKeepsInvariant(lookup: Lookup, s: State, step: Step)
    requires Invariant(lookup, s) && Enabled(s, step)
    ensures Invariant(lookup, Apply(lookup, s, step))
  {
    hide NoLostWakeup, MissesMatch, Apply;
    StepKeepsWakeups(lookup, s, step);
    StepKeepsMisses(lookup, s, step);
  }

  /******* the manager *******/

  // Each method carries out one step on the fields. `Valid` is what the steps keep.
  class TransformManager {
    const lookup: Lookup
    var clock: nat
    var registry: Registry
    var sent: nat
    var owing: set<nat>
    var waiters: map<nat, Waiter>

    function Current(): State
      reads this
    {
      State(clock, registry, sent, owing, waiters)
    }

    ghost predicate Valid()
      reads this
    {
      Invariant(lookup, Current())
    }

    constructor (lookup: Lookup)
      ensures Valid() && Current() == INITIAL && this.lookup == lookup
    {
      this.lookup := lookup;
      clock, registry, sent, owing, waiters := 0, [], 0, {}, map[];
    }

    // With the registry's lock held: the transforms of one message, one after the other. The
    // notification is owed from here on.
    method AddTransforms(task: nat, transforms: seq<Transform>)
      requires Valid() && Enabled(Current(), Add(task, transforms))
      modifies this`registry, this`owing
      ensures Valid() && Current() == Apply(lookup, old(Current()), Add(task, transforms))
      ensures registry == old(registry) + transforms && Enabled(Current(), Notify(task))
    {
      hide Invariant;
      StepKeepsInvariant(lookup, Current(), Add(task, transforms));
      for i := 0 to |transforms|
        invariant registry == old(registry) + transforms[..i] && owing == old(owing)
      {
        registry := registry + [transforms[i]];
        assert transforms[..i + 1] == transforms[..i] + [transforms[i]];
      }
      assert transforms[..|transforms|] == transforms;
      owing := owing + {task};
    }

    // Every blocked waiter can read it.
    method SendNotification(task: nat)
      requires Valid() && Enabled(Current(), Notify(task))
      modifies this`sent, this`owing
      ensures Valid() && Current() == Apply(lookup, old(Current()), Notify(task))
      ensures forall id | InPhase(Current(), id, Blocked) :: Enabled(Current(), Receive(id))
    {
      StepKeepsInvariant(lookup, Current(), Notify(task));
      hide NoLostWakeup;
      sent := sent + 1;
      owing := owing - {task};
    }

    // The start of a wait: the receiver is created before the first lookup, so that it gets
    // every notification that is sent after it.
    method Subscribe(id: nat, query: Query, timeout: nat)
      requires Valid() && Enabled(Current(), Wait(id, query, timeout))
      modifies this`waiters
      ensures Valid() && Current() == Apply(lookup, old(Current()), Wait(id, query, timeout))
      ensures InPhase(Current(), id, Looking) && waiters[id].seen == sent && waiters[id].deadline == clock + timeout
      ensures waiters - {id} == old(waiters)
    {
      hide Invariant;
      StepKeepsInvariant(lookup, Current(), Wait(id, query, timeout));
      waiters := waiters[id := Waiter(query, clock + timeout, sent, None, Looking)];
    }

    // With the registry's lock held: one look, and the answer if there is one. Without one the
    // wait goes on, or ends if the deadline is what caused this look.
    method TryGetTransform(id: nat) returns (r: Option<Transform>)
      requires Valid() && Enabled(Current(), LookUp(id))
      modifies this`waiters
      ensures Valid() && Current() == Apply(lookup, old(Current()), LookUp(id))
      ensures r == lookup(registry, waiters[id].query)
      ensures r.Some? <==> exists t :: InPhase(Current(), id, Done(Found(t)))
      ensures r.Some? ==> InPhase(Current(), id, Done(Found(r.value)))
      ensures InPhase(Current(), id, Done(TimedOut)) ==> r.None? && clock >= waiters[id].deadline
      ensures r.None? && InPhase(old(Current()), id, Looking) ==> InPhase(Current(), id, Missed)
    {
      StepKeepsInvariant(lookup, Current(), LookUp(id));
      assert InPhase(Current(), id, LastLook) ==> clock >= waiters[id].deadline;
      hide Invariant;
      var w := waiters[id];
      r := lookup(registry, w.query);
      if r.Some? {
        waiters := waiters[id := w.(phase := Done(Found(r.value)))];
      } else if w.phase.LastLook? {
        waiters := waiters[id := w.(missedOn := Some(registry), phase := Done(TimedOut))];
      } else {
        waiters := waiters[id := w.(missedOn := Some(registry), phase := Missed)];
      }
    }
  }

  /******* runs *******/

  ghost predicate IsRun(lookup: Lookup, states: seq<State>, steps: seq<Step>) {
    && |states| == |steps| + 1 && states[0] == INITIAL
    && forall i | 0 <= i < |steps| ::
         Enabled(states[i], steps[i]) && states[i + 1] == Apply(lookup, states[i], steps[i])
  }

  lemma {:induction false} RunKeepsInvariant(lookup: Lookup, states: seq<State>, steps: seq<Step>, i: nat)
    requires IsRun(lookup, states, steps) && i < |states|
    ensures Invariant(lookup, states[i])
    decreases i
  {
    hide Apply, Enabled;
    if i > 0 {
      RunKeepsInvariant(lookup, states, steps, i - 1);
      hide Invariant;
      StepKeepsInvariant(lookup, states[i - 1], steps[i - 1]);
    }
  }

  // No wakeup is lost: a blocked waiter that has nothing to read, while nobody owes a
  // notification, would not find its transform in the registry as it is now either.
  lemma BlockedWaiterMissesNothing(lookup: Lookup, states: seq<State>, steps: seq<Step>, i: nat, id: nat)
    requires IsRun(lookup, states, steps) && i < |states| && InPhase(states[i], id, Blocked)
    requires !Enabled(states[i], Receive(id)) && states[i].owing == {}
    ensures lookup(states[i].registry, states[i].waiters[id].query) == None
  {
    hide Apply;
    RunKeepsInvariant(lookup, states, steps, i);
  }

  // If transforms were added since the last failed lookup of a blocked waiter, it has a
  // notification to read, or an adder has not sent its notification yet.
  lemma ChangeWakesWaiter(lookup: Lookup, states: seq<State>, steps: seq<Step>, i: nat, id: nat)
    requires IsRun(lookup, states, steps) && i < |states| && InPhase(states[i], id, Blocked)
    requires states[i].waiters[id].missedOn != Some(states[i].registry)
    ensures Enabled(states[i], Receive(id)) || exists task :: Enabled(states[i], Notify(task))
  {
    hide Apply;
    RunKeepsInvariant(lookup, states, steps, i);
    if states[i].owing != {} {
      var task :| task in states[i].owing;
      assert Enabled(states[i], Notify(task));
    }
  }

  // A notification that is sent while a waiter is blocked can be read by it, however many
  // others came before.
  lemma NotificationReachesWaiter(lookup: Lookup, states: seq<State>, steps: seq<Step>, i: nat, id: nat)
    requires IsRun(lookup, states, steps) && i < |steps| && steps[i].Notify? && InPhase(states[i], id, Blocked)
    ensures Enabled(states[i + 1], Receive(id))
  {
    RunKeepsInvariant(lookup, states, steps, i);
    assert states[i + 1] == Apply(lookup, states[i], steps[i]);
  }

  // A waiter that reads takes one notification; one that lags behind by more than the sixteen
  // that the channel keeps skips to the oldest of these. It looks again in both cases.
  lemma ReadingTakesOne(lookup: Lookup, states: seq<State>, steps: seq<Step>, i: nat, id: nat)
    requires IsRun(lookup, states, steps) && i < |steps| && steps[i] == Receive(id) && id in states[i].waiters
    ensures InPhase(states[i], id, Blocked) && InPhase(states[i + 1], id, Looking)
    ensures var unread := states[i].sent - states[i].waiters[id].seen;
            && 0 < unread && states[i + 1].sent == states[i].sent
            && states[i + 1].sent - states[i + 1].waiters[id].seen == if unread > 16 then 16 else unread - 1
  {
    RunKeepsInvariant(lookup, states, steps, i);
    assert Enabled(states[i], steps[i]) && states[i + 1] == Apply(lookup, states[i], steps[i]);
  }

  // A timeout is reported only at or after the deadline, and only after a lookup that failed.
  lemma TimeoutAfterFailedLookup(lookup: Lookup, states: seq<State>, steps: seq<Step>, i: nat, id: nat)
    requires IsRun(lookup, states, steps) && i < |states| && InPhase(states[i], id, Done(TimedOut))
    ensures var w := states[i].waiters[id];
            && states[i].clock >= w.deadline && w.missedOn.Some?
            && lookup(w.missedOn.value, w.query) == None
  {
    hide Apply, Enabled;
    RunKeepsInvariant(lookup, states, steps, i);
  }

  lemma OutcomeStep(lookup: Lookup, s: State, step: Step, id: nat, t: Transform)
    requires Enabled(s, step) && InPhase(Apply(lookup, s, step), id, Done(Found(t)))
    ensures id in s.waiters && s.waiters[id].query == Apply(lookup, s, step).waiters[id].query
    ensures InPhase(s, id, Done(Found(t)))
            || (step == LookUp(id) && lookup(s.registry, s.waiters[id].query) == Some(t))
  {
  }

  // The lookup at step `k` gave the transform.
  ghost predicate FindsAt(lookup: Lookup, states: seq<State>, steps: seq<Step>, k: nat, id: nat, t: Transform)
    requires IsRun(lookup, states, steps)
  {
    k < |steps| && steps[k] == LookUp(id) && id in states[k].waiters
    && lookup(states[k].registry, states[k].waiters[id].query) == Some(t)
  }

  // A transform that is reported was given by a lookup of this waiter, on the registry as it
  // was at some step of the run, for the query of the wait, and is reported ever since.
  lemma {:induction false} FoundByLookup(lookup: Lookup, states: seq<State>, steps: seq<Step>, i: nat, id: nat,
                                         t: Transform)
    returns (k: nat)
    requires IsRun(lookup, states, steps) && i < |states| && InPhase(states[i], id, Done(Found(t)))
    ensures k < i && FindsAt(lookup, states, steps, k, id, t)
    ensures states[k].waiters[id].query == states[i].waiters[id].query
    ensures !states[k].waiters[id].phase.Done?
    ensures forall j | k < j <= i :: InPhase(states[j], id, Done(Found(t)))
    decreases i
  {
    hide Apply, AfterLookUp;
    OutcomeStep(lookup, states[i - 1], steps[i - 1], id, t);
    if InPhase(states[i - 1], id, Done(Found(t))) {
      k := FoundByLookup(lookup, states, steps, i - 1, id, t);
    } else {
      k := i - 1;
    }
  }

  // Conversely a lookup that gives a transform ends the wait with it, for good.
  lemma {:induction false} FoundStays(lookup: Lookup, states: seq<State>, steps: seq<Step>, k: nat, j: nat, id: nat,
                                      t: Transform)
    requires IsRun(lookup, states, steps) && FindsAt(lookup, states, steps, k, id, t) && k < j < |states|
    ensures InPhase(states[j], id, Done(Found(t)))
    decreases j
  {
    hide Enabled;
    assert Enabled(states[j - 1], steps[j - 1]) && states[j] == Apply(lookup, states[j - 1], steps[j - 1]);
    if k < j - 1 {
      FoundStays(lookup, states, steps, k, j - 1, id, t);
      FinalStep(lookup, states[j - 1], steps[j - 1], id, t);
    }
  }

  lemma FinalStep(lookup: Lookup, s: State, step: Step, id: nat, t: Transform)
    requires Enabled(s, step) && InPhase(s, id, Done(Found(t)))
    ensures InPhase(Apply(lookup, s, step), id, Done(Found(t)))
  {
  }

  lemma LastLookStep(lookup: Lookup, s: State, step: Step, id: nat)
    requires Enabled(s, step) && InPhase(s, id, LastLook)
    ensures var s' := Apply(lookup, s, step);
            && id in s'.waiters && s'.waiters[id].query == s.waiters[id].query
            && if step == LookUp(id) then
                 s'.waiters[id].phase == Done(match lookup(s.registry, s.waiters[id].query)
                                              case Some(t) => Found(t)
                                              case None => Outcome.TimedOut)
               else InPhase(s', id, LastLook)
  {
  }

  lemma OutcomeStays(lookup: Lookup, s: State, step: Step, id: nat)
    requires Enabled(s, step) && id in s.waiters && s.waiters[id].phase.Done?
    ensures id in Apply(lookup, s, step).waiters && Apply(lookup, s, step).waiters[id] == s.waiters[id]
  {
  }

  // A waiter that its deadline wakes has looked once more, at or after the deadline, before it
  // has an outcome, and that look decides the outcome.
  lemma {:induction false} LastLookDecides(lookup: Lookup, states: seq<State>, steps: seq<Step>,
                                           j: nat, i: nat, id: nat)
    returns (k: nat)
    requires IsRun(lookup, states, steps) && j < i < |states| && steps[j] == DeadlinePassed(id)
    requires id in states[i].waiters && states[i].waiters[id].phase.Done?
    ensures j < k < i && steps[k] == LookUp(id) && id in states[k].waiters
    ensures states[k].clock >= states[k].waiters[id].deadline
    ensures states[i].waiters[id].phase.outcome == match lookup(states[k].registry, states[k].waiters[id].query)
                                                   case Some(t) => Found(t)
                                                   case None => Outcome.TimedOut
    decreases i
  {
    hide AfterLookUp;
    k := j;
    assert InPhase(states[j + 1], id, LastLook);
    k := j + 1;
    while k < i && steps[k] != LookUp(id)
      invariant j < k <= i && InPhase(states[k], id, LastLook)
    {
      LastLookStep(lookup, states[k], steps[k], id);
      k := k + 1;
    }
    RunKeepsInvariant(lookup, states, steps, k);
    LastLookStep(lookup, states[k], steps[k], id);
    var l := k + 1;
    while l < i
      invariant k < l <= i && id in states[l].waiters && states[l].waiters[id] == states[k + 1].waiters[id]
    {
      OutcomeStays(lookup, states[l], steps[l], id);
      l := l + 1;
    }
  }

  // A waiter that missed goes to sleep exactly if its deadline lies ahead; otherwise its wait
  // ends there.
  lemma DeadlineIsKept(lookup: Lookup, states: seq<State>, steps: seq<Step>, i: nat, id: nat)
    requires IsRun(lookup, states, steps) && i < |steps| && InPhase(states[i], id, Missed)
    ensures var w := states[i].waiters[id];
            steps[i] == CheckDeadline(id) ==>
              if states[i].clock < w.deadline then InPhase(states[i + 1], id, Blocked)
              else InPhase(states[i + 1], id, Done(Outcome.TimedOut))
    ensures states[i].waiters[id].missedOn.Some?
  {
    RunKeepsInvariant(lookup, states, steps, i);
    assert states[i + 1] == Apply(lookup, states[i], steps[i]);
  }

  /******* the order of subscribing and looking *******/

  // Were the receiver created only after the failed lookup, a transform that is added and
  // announced in between would leave the waiter blocked although its transform is there.
  lemma SubscribeMustComeFirst(lookup: Lookup, query: Query, t: Transform)
    requires lookup([], query) == None && lookup([t], query) == Some(t)
    ensures var added := Apply(lookup, INITIAL, Add(0, [t]));
            var announced := Apply(lookup, added, Notify(0));
            var late := SetWaiter(announced, 0, Waiter(query, 10, announced.sent, Some(INITIAL.registry), Blocked));
            && !Enabled(late, Receive(0)) && late.owing == {} && late.clock < 10
            && lookup(late.registry, query) == Some(t)
  {
    assert [] + [t] == [t];
  }
}
