// The discovery monitor (roslibrust_zenoh/src/lib.rs): announcements refresh a fact, and a
// regular tick forgets the facts that were not refreshed for more than three seconds.
module ZenohMonitor {
  import opened Wrappers
  import opened Bytes
  import opened ZenohKeys

  // Milliseconds.
  const DISCOVERY_LOST_AFTER: nat := 3000

  datatype State = State(activeFacts: map<string, nat>, graph: map<string, DiscoveryFact>)

  const INITIAL: State := State(map[], map[])

  datatype Event = Sample(key: string, time: nat) | Tick(time: nat)

  // `duration_since` is zero for a later instant.
  predicate IsLost(lastSeen: nat, now: nat) { now > lastSeen + DISCOVERY_LOST_AFTER }

  function Handle(s: State, e: Event): State {
    match e
    case Sample(key, time) =>
      var fact := ParseDiscoveryKey(key);
      if fact.None? then s else State(s.activeFacts[key := time], s.graph[key := fact.value])
    case Tick(now) =>
      var lost := set k | k in s.activeFacts && IsLost(s.activeFacts[k], now);
      State(s.activeFacts - lost, s.graph - lost)
  }

  function Run(events: seq<Event>): State {
    if events == [] then INITIAL else Handle(Run(events[..|events| - 1]), events[|events| - 1])
  }

  /******* which keys are known *******/

  ghost predicate LastSample(events: seq<Event>, key: string, l: nat) {
    && l < |events| && events[l].Sample? && events[l].key == key
    && forall j | l < j < |events| :: !(events[j].Sample? && events[j].key == key)
  }

  // No tick came too late after the last announcement of the key.
  ghost predicate KeptAlive(events: seq<Event>, key: string) {
    exists l: nat | l < |events| :: KeptAliveSince(events, key, l)
  }

  ghost predicate KeptAliveSince(events: seq<Event>, key: string, l: nat) {
    && LastSample(events, key, l)
    && forall j | l < j < |events| && events[j].Tick? :: !IsLost(events[l].time, events[j].time)
  }

  ghost predicate SeenAt(events: seq<Event>, key: string, time: nat) {
    exists l: nat | l < |events| :: KeptAliveSince(events, key, l) && events[l].time == time
  }

  // What the next event makes of it.
  ghost predicate SeenNext(events: seq<Event>, e: Event, key: string, time: nat) {
    if e.Sample? && e.key == key then e.time == time
    else SeenAt(events, key, time) && (e.Tick? ==> !IsLost(time, e.time))
  }

  lemma SeenAfterSample(events: seq<Event>, e: Event, key: string, time: nat)
    requires e.Sample?
    ensures SeenAt(events + [e], key, time) <==> SeenNext(events, e, key, time)
  {
    var all := events + [e];
    var n := |events|;
    assert all[n] == e && forall j | 0 <= j < n :: all[j] == events[j];
    if e.key == key {
      assert KeptAliveSince(all, key, n);
      assert forall l: nat | l < n :: !LastSample(all, key, l);
    } else {
      forall l: nat | l < n ensures KeptAliveSince(all, key, l) <==> KeptAliveSince(events, key, l) {
      }
    }
  }

  lemma SeenAfterTick(events: seq<Event>, e: Event, key: string, time: nat)
    requires e.Tick?
    ensures SeenAt(events + [e], key, time) <==> SeenNext(events, e, key, time)
  {
    var all := events + [e];
    var n := |events|;
    assert all[n] == e && forall j | 0 <= j < n :: all[j] == events[j];
    forall l: nat | l < n
      ensures KeptAliveSince(all, key, l) <==> KeptAliveSince(events, key, l) && !IsLost(events[l].time, e.time)
    {
    }
  }

  // After any events, the two tables have the same keys; a key is in them exactly when it is a
  // discovery key, was announced, and no tick came more than three seconds after its last
  // announcement. What is filed under it is what the key says.
  lemma {:induction false} KnownExactlyWhenKeptAlive(events: seq<Event>, key: string)
    ensures Run(events).graph.Keys == Run(events).activeFacts.Keys
    ensures key in Run(events).graph <==> ParseDiscoveryKey(key).Some? && KeptAlive(events, key)
    ensures key in Run(events).graph ==>
              && ParseDiscoveryKey(key) == Some(Run(events).graph[key])
              && SeenAt(events, key, Run(events).activeFacts[key])
    decreases |events|
  {
    hide ParseDiscoveryKey, KeptAliveSince, IsLost;
    if events != [] {
      var before, e := events[..|events| - 1], events[|events| - 1];
      assert events == before + [e];
      KnownExactlyWhenKeptAlive(before, key);
      forall time ensures SeenAt(events, key, time) <==> SeenNext(before, e, key, time) {
        if e.Sample? { SeenAfterSample(before, e, key, time); } else { SeenAfterTick(before, e, key, time); }
      }
      KeptAliveIsSeen(events, key);
      KeptAliveIsSeen(before, key);
      OneTime(before, key);
      if KeptAlive(events, key) {
        var time :| SeenAt(events, key, time);
        assert SeenNext(before, e, key, time);
      }
      if key in Run(events).graph {
        assert SeenNext(before, e, key, Run(events).activeFacts[key]);
        assert SeenAt(events, key, Run(events).activeFacts[key]);
      }
    }
  }

  lemma KeptAliveIsSeen(events: seq<Event>, key: string)
    ensures KeptAlive(events, key) <==> exists time :: SeenAt(events, key, time)
  {
    hide KeptAliveSince;
    if KeptAlive(events, key) {
      var l: nat :| l < |events| && KeptAliveSince(events, key, l);
      assert SeenAt(events, key, events[l].time);
    }
  }

  lemma OneTime(events: seq<Event>, key: string)
    ensures forall t, u | SeenAt(events, key, t) && SeenAt(events, key, u) :: t == u
  {
    forall t, u | SeenAt(events, key, t) && SeenAt(events, key, u) ensures t == u {
      var l: nat :| l < |events| && KeptAliveSince(events, key, l) && events[l].time == t;
      var m: nat :| m < |events| && KeptAliveSince(events, key, m) && events[m].time == u;
      assert l == m;
    }
  }

  /******* the monitor *******/

  // `events` is what the monitor has handled so far; the two tables are what it made of them.
  class DiscoveryMonitor {
    var activeFacts: map<string, nat>
    var graph: map<string, DiscoveryFact>
    ghost var events: seq<Event>

    function Current(): State
      reads this
    {
      State(activeFacts, graph)
    }

    ghost predicate Valid()
      reads this
    {
      Current() == Run(events)
    }

    constructor ()
      ensures Valid() && events == [] && Current() == INITIAL
    {
      activeFacts, graph, events := map[], map[], [];
    }

    // An announcement makes its key known, as seen now, exactly if it is a discovery key; all
    // other keys stay as they are.
    method HandleSample(key: string, now: nat)
      requires Valid()
      modifies this
      ensures Valid() && events == old(events) + [Sample(key, now)]
      ensures graph.Keys == activeFacts.Keys && (key in graph <==> ParseDiscoveryKey(key).Some?)
      ensures key in graph ==> activeFacts[key] == now && ParseDiscoveryKey(key) == Some(graph[key])
      ensures graph - {key} == old(graph) - {key} && activeFacts - {key} == old(activeFacts) - {key}
    {
      hide ParseDiscoveryKey, Run;
      SampleMeans(events, key, now);
      events := events + [Sample(key, now)];
      var fact := ParseDiscoveryKey(key);
      if fact.None? {
        return;
      }
      activeFacts := activeFacts[key := now];
      graph := graph[key := fact.value];
    }

    // A tick forgets exactly the keys that are overdue, in both tables. The lost keys are
    // collected first, and then removed one by one.
    method HandleTick(now: nat)
      requires Valid()
      modifies this
      ensures Valid() && events == old(events) + [Tick(now)]
      ensures graph.Keys == activeFacts.Keys
      ensures forall key :: key in graph <==> key in old(activeFacts) && !IsLost(old(activeFacts)[key], now)
      ensures forall key <- graph.Keys :: graph[key] == old(graph)[key] && activeFacts[key] == old(activeFacts)[key]
    {
      SameKeys(events);
      TickExtends(events, now);
      hide Run;
      var lost := set k | k in activeFacts && IsLost(activeFacts[k], now);
      var rest := lost;
      while rest != {}
        invariant rest <= lost && events == old(events)
        invariant activeFacts == old(activeFacts) - (lost - rest) && graph == old(graph) - (lost - rest)
        decreases |rest|
      {
        var key :| key in rest;
        activeFacts := activeFacts - {key};
        graph := graph - {key};
        rest := rest - {key};
      }
      events := events + [Tick(now)];
    }
  }

  lemma SameKeys(events: seq<Event>)
    ensures Run(events).graph.Keys == Run(events).activeFacts.Keys
  {
    hide Run;
    KnownExactlyWhenKeptAlive(events, "");
  }

  lemma TickExtends(events: seq<Event>, now: nat)
    ensures Run(events + [Tick(now)]) == Handle(Run(events), Tick(now))
  {
    assert (events + [Tick(now)])[..|events|] == events;
  }

  lemma SampleMeans(events: seq<Event>, key: string, now: nat)
    ensures Run(events + [Sample(key, now)]) == Handle(Run(events), Sample(key, now))
    ensures Run(events).graph.Keys == Run(events).activeFacts.Keys
    ensures key in Run(events).graph ==> ParseDiscoveryKey(key).Some?
  {
    hide ParseDiscoveryKey;
    assert (events + [Sample(key, now)])[..|events|] == events;
    KnownExactlyWhenKeptAlive(events, key);
  }

  /******* what this means for announcements *******/

  predicate Announces(e: Event, key: string) { e.Sample? && e.key == key }

  ghost predicate AnnouncedBefore(events: seq<Event>, key: string, j: nat)
    requires j <= |events|
  {
    exists i: nat | i < j :: Announces(events[i], key)
  }

  // The key was announced at most three seconds before the event.
  ghost predicate FreshAt(events: seq<Event>, key: string, j: nat)
    requires j < |events|
  {
    exists i: nat | i < j :: Announces(events[i], key) && events[j].time <= events[i].time + 3000
  }

  // A key that was announced at most three seconds before every tick since its first
  // announcement is known.
  lemma RefreshedKeyStays(events: seq<Event>, key: string)
    requires ParseDiscoveryKey(key).Some? && AnnouncedBefore(events, key, |events|)
    requires forall j: nat | j < |events| && events[j].Tick? && AnnouncedBefore(events, key, j) ::
               FreshAt(events, key, j)
    requires forall i, j | 0 <= i < j < |events| :: events[i].time <= events[j].time
    ensures key in Run(events).graph
  {
    hide ParseDiscoveryKey, Run;
    var l := FindLast(events, key);
    forall j | l < j < |events| && events[j].Tick? ensures !IsLost(events[l].time, events[j].time) {
      assert Announces(events[l], key);
      assert AnnouncedBefore(events, key, j);
      var i: nat :| i < j && Announces(events[i], key) && events[j].time <= events[i].time + 3000;
      assert i <= l;
    }
    assert KeptAliveSince(events, key, l);
    KnownExactlyWhenKeptAlive(events, key);
  }

  lemma {:induction false} FindLast(events: seq<Event>, key: string) returns (l: nat)
    requires AnnouncedBefore(events, key, |events|)
    ensures LastSample(events, key, l)
    decreases |events|
  {
    var n := |events| - 1;
    if Announces(events[n], key) {
      l := n;
    } else {
      var i: nat :| i < |events| && Announces(events[i], key);
      assert events[..n][i] == events[i];
      l := FindLast(events[..n], key);
    }
  }

  // A key that falls silent is gone once a tick more than three seconds after its last
  // announcement has been handled.
  lemma SilentKeyIsGone(events: seq<Event>, key: string, l: nat, j: nat)
    requires LastSample(events, key, l) && l < j < |events| && events[j].Tick?
    requires events[j].time > events[l].time + 3000
    ensures key !in Run(events).graph && key !in Run(events).activeFacts
  {
    hide ParseDiscoveryKey, Run;
    KnownExactlyWhenKeptAlive(events, key);
    if KeptAlive(events, key) {
      var m: nat :| m < |events| && KeptAliveSince(events, key, m);
      assert m == l;
    }
  }

  /******* listing what is known *******/

  datatype Conflict = Conflict(name: string, existing: seq<Byte>, other: seq<Byte>)

  ghost predicate HasType(facts: seq<DiscoveryFact>, classes: set<DiscoveryClass>, name: string, typeName: seq<Byte>) {
    exists f <- facts :: f.class_ in classes && f.name == name && f.typeName == typeName
  }

  ghost predicate Conflicting(facts: seq<DiscoveryFact>, classes: set<DiscoveryClass>) {
    exists name, t, u :: t != u && HasType(facts, classes, name, t) && HasType(facts, classes, name, u)
  }

  // No name is paired with two types.
  ghost predicate OneTypePerName(pairs: set<(string, seq<Byte>)>) {
    forall p, q | p in pairs && q in pairs && p.0 == q.0 :: p.1 == q.1
  }

  // One table holds this pair and those of the other.
  ghost predicate EnteredPair(types: map<string, seq<Byte>>, name: string, typeName: seq<Byte>,
                              types': map<string, seq<Byte>>)
  {
    forall n, t :: (n, t) in types'.Items <==> (n, t) in types.Items + {(name, typeName)}
  }

  // A name and its type can be entered exactly when that does not give the name two types; the
  // table then holds this pair and those that it held before, and otherwise the error names
  // the two types.
  method InsertDiscoveredType(types: map<string, seq<Byte>>, name: string, typeName: seq<Byte>)
    returns (r: Result<map<string, seq<Byte>>, Conflict>)
    ensures r.Ok? <==> OneTypePerName(types.Items + {(name, typeName)})
    ensures r.Ok? ==> EnteredPair(types, name, typeName, r.value)
    ensures r.Err? ==>
              && r.error.name == name && r.error.other == typeName && r.error.existing != typeName
              && (name, r.error.existing) in types.Items
  {
    EnteringItems(types, name, typeName);
    if name in types {
      if types[name] != typeName {
        return Err(Conflict(name, types[name], typeName));
      }
      r := Ok(types);
    } else {
      r := Ok(types[name := typeName]);
    }
  }

  lemma ItemOf(types: map<string, seq<Byte>>, p: (string, seq<Byte>))
    ensures p in types.Items <==> p.0 in types && types[p.0] == p.1
  {
    assert p == (p.0, p.1);
  }

  lemma EnteringItems(types: map<string, seq<Byte>>, name: string, typeName: seq<Byte>)
    ensures var pairs := types.Items + {(name, typeName)};
            if name !in types then OneTypePerName(pairs) && EnteredPair(types, name, typeName, types[name := typeName])
            else if types[name] != typeName then !OneTypePerName(pairs)
            else OneTypePerName(pairs) && EnteredPair(types, name, typeName, types)
    ensures name in types ==> (name, types[name]) in types.Items
  {
    var pairs := types.Items + {(name, typeName)};
    forall p ensures p in types.Items <==> p.0 in types && types[p.0] == p.1 {
      ItemOf(types, p);
    }
    if name in types {
      assert (name, types[name]) in pairs && (name, typeName) in pairs;
    } else {
      forall n, t ensures (n, t) in types[name := typeName].Items <==> (n, t) in pairs {
        ItemOf(types[name := typeName], (n, t));
        ItemOf(types, (n, t));
      }
    }
  }

  // Listing succeeds exactly when no name is known with two types, and then lists each name
  // with its type; otherwise it names a conflict that exists.
  method ListTypes(facts: seq<DiscoveryFact>, classes: set<DiscoveryClass>)
    returns (r: Result<map<string, seq<Byte>>, Conflict>)
    ensures r.Ok? <==> !Conflicting(facts, classes)
    ensures r.Ok? ==> Lists(r.value, facts, classes)
    ensures r.Err? ==>
              && r.error.existing != r.error.other
              && HasType(facts, classes, r.error.name, r.error.existing)
              && HasType(facts, classes, r.error.name, r.error.other)
  {
    var types: map<string, seq<Byte>> := map[];
    for i := 0 to |facts|
      invariant Lists(types, facts[..i], classes)
    {
      var f := facts[i];
      assert facts[..i + 1] == facts[..i] + [f];
      Extended(facts[..i], f, facts[..i + 1], classes);
      if f.class_ in classes {
        var inserted := InsertDiscoveredType(types, f.name, f.typeName);
        if inserted.Err? {
          var existing := inserted.error.existing;
          assert HasType(facts[..i], classes, f.name, existing);
          HasTypeInAll(facts, i, classes, f.name, existing);
          HasTypeInAll(facts, i + 1, classes, f.name, f.typeName);
          IsConflict(facts, classes, f.name, existing, f.typeName);
          return Err(inserted.error);
        }
        ListsMore(types, inserted.value, facts[..i], f, facts[..i + 1], classes);
        types := inserted.value;
      } else {
        ListsSame(types, facts[..i], f, facts[..i + 1], classes);
      }
    }
    assert facts[..|facts|] == facts;
    r := Ok(types);
  }

  lemma IsConflict(facts: seq<DiscoveryFact>, classes: set<DiscoveryClass>, name: string, t: seq<Byte>, u: seq<Byte>)
    requires t != u && HasType(facts, classes, name, t) && HasType(facts, classes, name, u)
    ensures Conflicting(facts, classes)
  {
  }

  lemma ListsMore(types: map<string, seq<Byte>>, types': map<string, seq<Byte>>, before: seq<DiscoveryFact>,
                  f: DiscoveryFact, all: seq<DiscoveryFact>, classes: set<DiscoveryClass>)
    requires all == before + [f] && f.class_ in classes && Lists(types, before, classes)
    requires EnteredPair(types, f.name, f.typeName, types')
    ensures Lists(types', all, classes)
  {
    hide HasType;
    Extended(before, f, all, classes);
  }

  lemma ListsSame(types: map<string, seq<Byte>>, before: seq<DiscoveryFact>,
                  f: DiscoveryFact, all: seq<DiscoveryFact>, classes: set<DiscoveryClass>)
    requires all == before + [f] && f.class_ !in classes && Lists(types, before, classes)
    ensures Lists(types, all, classes)
  {
    hide HasType;
    Extended(before, f, all, classes);
  }

  // Each name with its type.
  ghost predicate Lists(types: map<string, seq<Byte>>, facts: seq<DiscoveryFact>, classes: set<DiscoveryClass>) {
    forall name, t :: (name, t) in types.Items <==> HasType(facts, classes, name, t)
  }

  lemma Extended(before: seq<DiscoveryFact>, f: DiscoveryFact, all: seq<DiscoveryFact>, classes: set<DiscoveryClass>)
    requires all == before + [f]
    ensures forall name, t :: HasType(all, classes, name, t)
              <==> HasType(before, classes, name, t) || (f.class_ in classes && f.name == name && f.typeName == t)
  {
    assert f in all;
    forall name, t | HasType(before, classes, name, t) ensures HasType(all, classes, name, t) {
      var g :| g in before && g.class_ in classes && g.name == name && g.typeName == t;
      assert g in all;
    }
  }

  lemma HasTypeInAll(facts: seq<DiscoveryFact>, i: nat, classes: set<DiscoveryClass>, name: string, t: seq<Byte>)
    requires i <= |facts| && HasType(facts[..i], classes, name, t)
    ensures HasType(facts, classes, name, t)
  {
  }
}
