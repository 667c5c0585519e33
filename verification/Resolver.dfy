// The dependency resolver (`resolve_dependency_graph` in roslibrust_codegen/src/lib.rs):
// a first-in first-out work list of messages, each with the number of times it was put
// back because a type it refers to was not resolved yet.
module Resolver {
  import opened Wrappers
  import opened Messages
  import opened Libraries
  import opened Text
  import opened MessageGraph
  import opened MessageFiles
  import opened GraphProperties

  const MAX_PARSE_ITER_LIMIT: nat := 2048

  datatype MessageMetadata = MessageMetadata(msg: ParsedMessage, seenCount: nat)

  datatype ResolveError =
    | CannotResolve(name: string)
    | LimitReached(unresolvedTypes: set<string>, blockedMessages: seq<string>)

  ghost predicate DistinctNames(messages: seq<ParsedMessage>, seed: set<string>) {
    && (forall i, j | 0 <= i < j < |messages| :: FullName(messages[i]) != FullName(messages[j]))
    && (forall m <- messages :: FullName(m) !in seed && !NamedAfterPrimitive(FullName(m)))
  }

  /******* in which round of the work list a message gets its turn *******/

  // Message `i` is resolved in round `n` or before: each type it refers to is part of the
  // seed, or is a message that was resolved earlier in the same round or in a round before.
  ghost predicate ResolvedBy(messages: seq<ParsedMessage>, seed: set<string>, i: nat, n: nat)
    requires i < |messages|
    decreases n, i
  {
    forall f <- messages[i].fields ::
      IsPrimitive(f.fieldType.fieldType) || FullTypeName(f) in seed ||
      exists j: nat | j < |messages| && FullName(messages[j]) == FullTypeName(f) ::
        if j < i then ResolvedBy(messages, seed, j, n) else n > 0 && ResolvedBy(messages, seed, j, n - 1)
  }

  lemma {:induction false} ResolvedByMonotone(messages: seq<ParsedMessage>, seed: set<string>, i: nat, n: nat)
    requires i < |messages| && ResolvedBy(messages, seed, i, n)
    ensures ResolvedBy(messages, seed, i, n + 1)
    decreases n, i
  {
    hide IsPrimitive, FullTypeName, FullName;
    forall f <- messages[i].fields | !IsPrimitive(f.fieldType.fieldType) && FullTypeName(f) !in seed
      ensures exists j: nat | j < |messages| && FullName(messages[j]) == FullTypeName(f) ::
        if j < i then ResolvedBy(messages, seed, j, n + 1) else ResolvedBy(messages, seed, j, n)
    {
      var j: nat :| j < |messages| && FullName(messages[j]) == FullTypeName(f)
        && if j < i then ResolvedBy(messages, seed, j, n) else n > 0 && ResolvedBy(messages, seed, j, n - 1);
      if j < i {
        ResolvedByMonotone(messages, seed, j, n);
      } else {
        ResolvedByMonotone(messages, seed, j, n - 1);
      }
    }
  }

  lemma {:induction false} ResolvedByLater(messages: seq<ParsedMessage>, seed: set<string>, i: nat, n: nat, m: nat)
    requires i < |messages| && n <= m && ResolvedBy(messages, seed, i, n)
    ensures ResolvedBy(messages, seed, i, m)
    decreases m - n
  {
    if n < m {
      ResolvedByMonotone(messages, seed, i, n);
      ResolvedByLater(messages, seed, i, n + 1, m);
    }
  }

  // Message `i` has been resolved when round `s` has processed the messages before `p`.
  ghost predicate Known(messages: seq<ParsedMessage>, seed: set<string>, p: nat, s: nat, i: nat)
    requires i < |messages|
  {
    if i < p then ResolvedBy(messages, seed, i, s) else s > 0 && ResolvedBy(messages, seed, i, s - 1)
  }

  ghost predicate Progress(messages: seq<ParsedMessage>, seed: set<string>, keys: set<string>, p: nat, s: nat) {
    && p <= |messages|
    && seed <= keys
    && (forall k <- keys :: k in seed || exists i: nat | i < |messages| :: FullName(messages[i]) == k)
    && (forall i: nat | i < |messages| :: FullName(messages[i]) in keys <==> Known(messages, seed, p, s, i))
  }

  // The messages from `lo` up to `hi` that are not resolved yet, in order.
  ghost function Pending(messages: seq<ParsedMessage>, lo: nat, hi: nat, keys: set<string>, s: nat)
    : seq<MessageMetadata>
    requires hi <= |messages|
    decreases hi - lo
  {
    if lo >= hi then []
    else (if FullName(messages[lo]) in keys then [] else [MessageMetadata(messages[lo], s)])
         + Pending(messages, lo + 1, hi, keys, s)
  }

  lemma {:induction false} PendingSnoc(messages: seq<ParsedMessage>, lo: nat, hi: nat, keys: set<string>, s: nat)
    requires lo <= hi < |messages|
    ensures Pending(messages, lo, hi + 1, keys, s)
            == Pending(messages, lo, hi, keys, s)
               + if FullName(messages[hi]) in keys then [] else [MessageMetadata(messages[hi], s)]
    decreases hi - lo
  {
    hide FullName;
    if lo < hi {
      PendingSnoc(messages, lo + 1, hi, keys, s);
    } else {
      assert Pending(messages, hi + 1, hi + 1, keys, s) == [];
    }
  }

  lemma {:induction false} PendingInsert(messages: seq<ParsedMessage>, lo: nat, hi: nat, keys: set<string>, s: nat,
                                         p: nat)
    requires hi <= |messages| && p < |messages| && (hi <= p || p < lo)
    requires forall i | lo <= i < hi :: FullName(messages[i]) != FullName(messages[p])
    ensures Pending(messages, lo, hi, keys + {FullName(messages[p])}, s) == Pending(messages, lo, hi, keys, s)
    decreases hi - lo
  {
    hide FullName;
    if lo < hi {
      var more := keys + {FullName(messages[p])};
      assert FullName(messages[lo]) in more <==> FullName(messages[lo]) in keys;
      PendingInsert(messages, lo + 1, hi, keys, s, p);
    }
  }

  lemma {:induction false} PendingMembers(messages: seq<ParsedMessage>, lo: nat, hi: nat, keys: set<string>, s: nat)
    requires hi <= |messages|
    ensures forall q <- Pending(messages, lo, hi, keys, s) ::
      exists i: nat | lo <= i < hi :: q.msg == messages[i] && FullName(messages[i]) !in keys
    ensures forall i | lo <= i < hi && FullName(messages[i]) !in keys ::
      MessageMetadata(messages[i], s) in Pending(messages, lo, hi, keys, s)
    decreases hi - lo
  {
    hide FullName;
    if lo < hi { PendingMembers(messages, lo + 1, hi, keys, s); }
  }

  ghost predicate QueueShape(messages: seq<ParsedMessage>, queue: seq<MessageMetadata>, keys: set<string>,
                             p: nat, s: nat)
  {
    && p <= |messages|
    && queue == Pending(messages, p, |messages|, keys, s) + Pending(messages, 0, p, keys, s + 1)
  }

  // Skips the positions that were resolved already: the head of the queue is the message at `p'`.
  lemma {:induction false} NextTurn(messages: seq<ParsedMessage>, seed: set<string>, keys: set<string>,
                                    queue: seq<MessageMetadata>, p: nat, s: nat)
    returns (p': nat, s': nat)
    requires Progress(messages, seed, keys, p, s) && QueueShape(messages, queue, keys, p, s) && queue != []
    ensures Progress(messages, seed, keys, p', s') && QueueShape(messages, queue, keys, p', s')
    ensures p' < |messages| && FullName(messages[p']) !in keys && queue[0] == MessageMetadata(messages[p'], s')
    ensures (s' == s && p <= p') || s' == s + 1
    decreases p == |messages|, if p == |messages| then 0 else |messages| - p
  {
    hide FullName, ResolvedBy;
    if p == |messages| {
      assert Pending(messages, p, |messages|, keys, s) == [];
      assert Pending(messages, 0, 0, keys, s + 2) == [];
      p', s' := FirstPending(messages, seed, keys, queue, 0, s + 1);
    } else if Pending(messages, p, |messages|, keys, s) == [] {
      p', s' := SkipRound(messages, seed, keys, queue, p, s);
    } else {
      p', s' := FirstPending(messages, seed, keys, queue, p, s);
    }
  }

  lemma StepOver(messages: seq<ParsedMessage>, seed: set<string>, keys: set<string>,
                 queue: seq<MessageMetadata>, p: nat, s: nat)
    requires Progress(messages, seed, keys, p, s) && QueueShape(messages, queue, keys, p, s)
    requires p < |messages| && FullName(messages[p]) in keys
    ensures Progress(messages, seed, keys, p + 1, s) && QueueShape(messages, queue, keys, p + 1, s)
  {
    hide FullName, ResolvedBy, Pending;
    assert Known(messages, seed, p, s, p);
    ResolvedByMonotone(messages, seed, p, s - 1);
    assert Progress(messages, seed, keys, p + 1, s);
    StepOverQueue(messages, keys, queue, p, s);
  }

  lemma StepOverQueue(messages: seq<ParsedMessage>, keys: set<string>, queue: seq<MessageMetadata>, p: nat, s: nat)
    requires QueueShape(messages, queue, keys, p, s)
    requires p < |messages| && FullName(messages[p]) in keys
    ensures QueueShape(messages, queue, keys, p + 1, s)
  {
    hide FullName;
    PendingSnoc(messages, 0, p, keys, s + 1);
    assert Pending(messages, p, |messages|, keys, s) == Pending(messages, p + 1, |messages|, keys, s);
  }

  lemma {:induction false} SkipRound(messages: seq<ParsedMessage>, seed: set<string>, keys: set<string>,
                                     queue: seq<MessageMetadata>, p: nat, s: nat)
    returns (p': nat, s': nat)
    requires Progress(messages, seed, keys, p, s) && QueueShape(messages, queue, keys, p, s) && queue != []
    requires Pending(messages, p, |messages|, keys, s) == []
    ensures Progress(messages, seed, keys, p', s') && QueueShape(messages, queue, keys, p', s')
    ensures p' < |messages| && FullName(messages[p']) !in keys && queue[0] == MessageMetadata(messages[p'], s')
    ensures s' == s + 1
    decreases |messages| - p
  {
    hide FullName, ResolvedBy;
    if p < |messages| {
      StepOver(messages, seed, keys, queue, p, s);
      p', s' := SkipRound(messages, seed, keys, queue, p + 1, s);
    } else {
      assert Pending(messages, 0, 0, keys, s + 2) == [];
      p', s' := FirstPending(messages, seed, keys, queue, 0, s + 1);
    }
  }

  lemma {:induction false} FirstPending(messages: seq<ParsedMessage>, seed: set<string>, keys: set<string>,
                                        queue: seq<MessageMetadata>, p: nat, s: nat)
    returns (p': nat, s': nat)
    requires Progress(messages, seed, keys, p, s) && QueueShape(messages, queue, keys, p, s)
    requires Pending(messages, p, |messages|, keys, s) != []
    ensures Progress(messages, seed, keys, p', s') && QueueShape(messages, queue, keys, p', s')
    ensures p' < |messages| && FullName(messages[p']) !in keys && queue[0] == MessageMetadata(messages[p'], s')
    ensures s' == s && p <= p'
    decreases |messages| - p
  {
    hide FullName, ResolvedBy;
    if FullName(messages[p]) in keys {
      StepOver(messages, seed, keys, queue, p, s);
      p', s' := FirstPending(messages, seed, keys, queue, p + 1, s);
    } else {
      p', s' := p, s;
    }
  }

  // The head of the queue is ready exactly when it belongs to the current round.
  lemma ReadyIffResolvedBy(messages: seq<ParsedMessage>, seed: set<string>, keys: set<string>, p: nat, s: nat)
    requires Progress(messages, seed, keys, p, s) && p < |messages|
    ensures Ready(messages[p].fields, keys) <==> ResolvedBy(messages, seed, p, s)
  {
    hide IsPrimitive, FullTypeName, FullName;
    forall f <- messages[p].fields
      ensures FullTypeName(f) in keys <==>
              FullTypeName(f) in seed || exists j: nat | j < |messages| && FullName(messages[j]) == FullTypeName(f) ::
                Known(messages, seed, p, s, j)
    {
    }
  }

  /******* the work list *******/

  // Every message gets its turn within the limit.
  ghost predicate AllInTime(messages: seq<ParsedMessage>, seed: set<string>) {
    forall i: nat | i < |messages| :: ResolvedBy(messages, seed, i, 2048)
  }

  ghost predicate AllShallow(messages: seq<ParsedMessage>, seed: set<string>) {
    forall i: nat | i < |messages| :: DepthWithin(messages, seed, i, 2048)
  }

  // The names are names of messages; none of these is resolved within the limit, and every
  // other message is resolved within the limit or in the round after it.
  ghost predicate OutOfReach(messages: seq<ParsedMessage>, seed: set<string>, blocked: seq<string>) {
    && (forall name <- blocked :: exists m <- messages :: FullName(m) == name)
    && (forall i: nat | i < |messages| ::
          if FullName(messages[i]) in blocked then !ResolvedBy(messages, seed, i, 2048)
          else ResolvedBy(messages, seed, i, 2049))
  }

  predicate RefersTo(m: ParsedMessage, t: string) {
    exists f <- m.fields :: !IsPrimitive(f.fieldType.fieldType) && FullTypeName(f) == t
  }

  predicate Undefined(messages: seq<ParsedMessage>, seed: set<string>, t: string) {
    t !in seed && forall m <- messages :: FullName(m) != t
  }

  // A type that nobody defines and that one of the named messages refers to.
  ghost predicate IsMissing(messages: seq<ParsedMessage>, seed: set<string>, blocked: seq<string>, t: string) {
    Undefined(messages, seed, t) && exists m <- messages :: FullName(m) in blocked && RefersTo(m, t)
  }

  ghost predicate Unresolvable(md5: string -> string, messages: seq<ParsedMessage>, seed: Graph, name: string) {
    exists m, g :: m in messages && FullName(m) == name && FailsOn(md5, m, seed, g)
  }

  ghost predicate FailsOn(md5: string -> string, m: ParsedMessage, seed: Graph, g: Graph) {
    Consistent(md5, g) && GraphExtends(seed, g) && Ready(m.fields, g.Keys) && Resolve(md5, m, g) == None
  }

  // Parsed messages give a package wherever the hasher relies on it, see
  // `MessageParser.ParsedPackagesAreKnown`.
  method ResolveMessages(md5: string -> string, messages: seq<ParsedMessage>, seed: Graph)
    returns (r: Result<Graph, ResolveError>)
    requires Consistent(md5, seed)
    requires DistinctNames(messages, seed.Keys)
    requires forall m <- messages :: PackagesKnown(m)
    // Success: exactly the given messages were added, and the graph is closed, acyclic and
    // holds for each entry what the recursions compute on the finished graph.
    ensures r.Ok? ==> Consistent(md5, r.value) && GraphExtends(seed, r.value)
    ensures r.Ok? ==> r.value.Keys == seed.Keys + set m <- messages :: FullName(m)
    ensures r.Ok? ==> forall m <- messages :: FullName(m) in r.value && r.value[FullName(m)].parsed == m
    // When it succeeds.
    ensures r.Ok? ==> AllInTime(messages, seed.Keys)
    ensures AllPlain(messages, seed) ==> (r.Ok? <==> AllInTime(messages, seed.Keys))
    // Depth within the limit is enough; a circle or a missing type is always an error.
    ensures AllPlain(messages, seed) && AllShallow(messages, seed.Keys) ==> r.Ok?
    ensures SomeStuck(messages, seed.Keys) ==> r.Err?
    // What it reports otherwise: the messages that are out of reach, and exactly the types that
    // they refer to and nobody defines; or a message on which one of the recursions fails
    // although its references are there, which plain messages never do.
    ensures r.Err? && r.error.LimitReached? ==>
              && OutOfReach(messages, seed.Keys, r.error.blockedMessages)
              && forall t :: t in r.error.unresolvedTypes
                             <==> IsMissing(messages, seed.Keys, r.error.blockedMessages, t)
    ensures r.Err? && r.error.CannotResolve? ==>
              !AllPlain(messages, seed) && Unresolvable(md5, messages, seed, r.error.name)
  {
    hide IsPrimitive, FullTypeName, FullName, ResolvedBy, Consistent, Acyclic, Closed, Resolve, PackagesKnown,
         PlainFields, Progress, QueueShape, Ready, PlainLibrary, GraphExtends, OutOfReach, IsMissing, MissingOf;
    assert Built(md5, messages, seed, seed) by { SeedBuilt(md5, messages, seed); }
    RoundsDecide(messages, seed.Keys);
    hide AllShallow, SomeStuck, AllInTime;
    ghost var p, s := 0, 0;
    var unresolved := seq(|messages|, i requires 0 <= i < |messages| => MessageMetadata(messages[i], 0));
    var resolved := seed;
    AllPending(messages, seed.Keys, unresolved);
    while unresolved != []
      invariant s <= MAX_PARSE_ITER_LIMIT
      invariant Progress(messages, seed.Keys, resolved.Keys, p, s)
      invariant QueueShape(messages, unresolved, resolved.Keys, p, s)
      invariant Built(md5, messages, seed, resolved)
      decreases MAX_PARSE_ITER_LIMIT - s, |messages| - p
    {
      p, s := NextTurn(messages, seed.Keys, resolved.Keys, unresolved, p, s);
      ReadyIffResolvedBy(messages, seed.Keys, resolved.Keys, p, s);
      ConsistentShape(md5, resolved);
      if s > 0 {
        NotBefore(messages, seed.Keys, resolved.Keys, p, s);
      }
      var msg, seenCount := unresolved[0].msg, unresolved[0].seenCount;
      if Ready(msg.fields, resolved.Keys) {
        if AllPlain(messages, seed) {
          PlainMessageResolves(md5, msg, resolved);
        }
        var file := ResolveMessage(md5, msg, resolved);
        if file.None? {
          assert FailsOn(md5, msg, seed, resolved);
          return Err(CannotResolve(FullName(msg)));
        }
        InsertKeepsBuilt(md5, messages, seed, resolved, p);
        TakeTurn(messages, seed.Keys, resolved.Keys, unresolved, p, s);
        assert (resolved[FullName(msg) := file.value]).Keys == resolved.Keys + {FullName(msg)};
        resolved := resolved[FullName(msg) := file.value];
        unresolved := unresolved[1..];
      } else {
        PassTurn(messages, seed.Keys, resolved.Keys, unresolved, p, s);
        unresolved := unresolved[1..] + [MessageMetadata(msg, seenCount + 1)];
      }
      if seenCount > MAX_PARSE_ITER_LIMIT {
        var blocked := seq(|unresolved|, i requires 0 <= i < |unresolved| => FullName(unresolved[i].msg));
        var missing := MissingOf(unresolved, resolved.Keys, blocked);
        Report(messages, seed.Keys, resolved.Keys, unresolved, blocked, p, s);
        MissingTypes(messages, seed.Keys, resolved.Keys, unresolved, blocked, p, s);
        return Err(LimitReached(missing, blocked));
      }
      p := p + 1;
    }
    AllResolved(messages, seed.Keys, resolved.Keys, p, s);
    return Ok(resolved);
  }

  // What the resolved messages satisfy at every turn.
  ghost predicate Built(md5: string -> string, messages: seq<ParsedMessage>, seed: Graph, resolved: Graph) {
    && Consistent(md5, resolved) && GraphExtends(seed, resolved)
    && (forall m <- messages | FullName(m) in resolved :: resolved[FullName(m)].parsed == m)
    && (AllPlain(messages, seed) ==> PlainLibrary(LibraryOf(resolved)))
  }

  ghost predicate AllPlain(messages: seq<ParsedMessage>, seed: Graph) {
    PlainLibrary(LibraryOf(seed)) && forall m <- messages :: PlainFields(m)
  }

  lemma SeedBuilt(md5: string -> string, messages: seq<ParsedMessage>, seed: Graph)
    requires Consistent(md5, seed) && DistinctNames(messages, seed.Keys)
    ensures Built(md5, messages, seed, seed)
  {
    hide Consistent, FullName;
  }

  lemma InsertKeepsBuilt(md5: string -> string, messages: seq<ParsedMessage>, seed: Graph, resolved: Graph, p: nat)
    requires Built(md5, messages, seed, resolved) && DistinctNames(messages, seed.Keys) && p < |messages|
    requires FullName(messages[p]) !in resolved && Ready(messages[p].fields, resolved.Keys)
    requires Resolve(md5, messages[p], resolved).Some?
    ensures Built(md5, messages, seed, resolved[FullName(messages[p]) := Resolve(md5, messages[p], resolved).value])
  {
    hide FullName, Acyclic, Closed, Resolve, PlainFields, Consistent;
    var msg := messages[p];
    ConsistentShape(md5, resolved);
    InsertKeepsConsistent(md5, resolved, msg);
    ResolveKeepsMessage(md5, msg, resolved);
    assert LibraryOf(resolved[FullName(msg) := Resolve(md5, msg, resolved).value])
           == LibraryOf(resolved)[FullName(msg) := msg];
  }

  lemma ConsistentShape(md5: string -> string, g: Graph)
    requires Consistent(md5, g)
    ensures Acyclic(LibraryOf(g)) && Closed(LibraryOf(g)) && LibraryOf(g).Keys == g.Keys
  {
    hide Acyclic, Closed;
  }

  lemma AllPending(messages: seq<ParsedMessage>, seed: set<string>, queue: seq<MessageMetadata>)
    requires DistinctNames(messages, seed) && |queue| == |messages|
    requires forall i | 0 <= i < |messages| :: queue[i] == MessageMetadata(messages[i], 0)
    ensures Progress(messages, seed, seed, 0, 0) && QueueShape(messages, queue, seed, 0, 0)
  {
    hide FullName, ResolvedBy;
    AllPendingFrom(messages, seed, queue, 0);
    assert queue[0..] == queue;
    assert Pending(messages, 0, 0, seed, 1) == [];
  }

  lemma {:induction false} AllPendingFrom(messages: seq<ParsedMessage>, seed: set<string>,
                                          queue: seq<MessageMetadata>, lo: nat)
    requires DistinctNames(messages, seed) && |queue| == |messages| && lo <= |messages|
    requires forall i | 0 <= i < |messages| :: queue[i] == MessageMetadata(messages[i], 0)
    ensures Pending(messages, lo, |messages|, seed, 0) == queue[lo..]
    decreases |messages| - lo
  {
    hide FullName;
    if lo < |messages| { AllPendingFrom(messages, seed, queue, lo + 1); }
  }

  // The message at `p` is resolved and leaves the queue.
  lemma TakeTurn(messages: seq<ParsedMessage>, seed: set<string>, keys: set<string>,
                 queue: seq<MessageMetadata>, p: nat, s: nat)
    requires DistinctNames(messages, seed) && Progress(messages, seed, keys, p, s) && p < |messages|
    requires QueueShape(messages, queue, keys, p, s) && queue != []
    requires FullName(messages[p]) !in keys && ResolvedBy(messages, seed, p, s)
    ensures Progress(messages, seed, keys + {FullName(messages[p])}, p + 1, s)
    ensures QueueShape(messages, queue[1..], keys + {FullName(messages[p])}, p + 1, s)
  {
    hide FullName, ResolvedBy, QueueShape;
    TakeTurnQueue(messages, seed, keys, queue, p, s);
  }

  lemma TakeTurnQueue(messages: seq<ParsedMessage>, seed: set<string>, keys: set<string>,
                      queue: seq<MessageMetadata>, p: nat, s: nat)
    requires DistinctNames(messages, seed) && p < |messages|
    requires QueueShape(messages, queue, keys, p, s) && queue != [] && FullName(messages[p]) !in keys
    ensures QueueShape(messages, queue[1..], keys + {FullName(messages[p])}, p + 1, s)
  {
    hide FullName;
    PendingHead(messages, keys, p, s);
    var keys' := keys + {FullName(messages[p])};
    PendingInsert(messages, p + 1, |messages|, keys, s, p);
    PendingInsert(messages, 0, p, keys, s + 1, p);
    PendingSnoc(messages, 0, p, keys', s + 1);
    hide Pending;
    assert queue[1..] == Pending(messages, p + 1, |messages|, keys, s) + Pending(messages, 0, p, keys, s + 1);
  }

  lemma PendingHead(messages: seq<ParsedMessage>, keys: set<string>, p: nat, s: nat)
    requires p < |messages| && FullName(messages[p]) !in keys
    ensures Pending(messages, p, |messages|, keys, s)
            == [MessageMetadata(messages[p], s)] + Pending(messages, p + 1, |messages|, keys, s)
  {
    hide FullName;
  }

  // The message at `p` is not ready and goes to the back of the queue.
  lemma PassTurn(messages: seq<ParsedMessage>, seed: set<string>, keys: set<string>,
                 queue: seq<MessageMetadata>, p: nat, s: nat)
    requires Progress(messages, seed, keys, p, s) && p < |messages|
    requires QueueShape(messages, queue, keys, p, s) && queue != []
    requires FullName(messages[p]) !in keys && !ResolvedBy(messages, seed, p, s)
    ensures Progress(messages, seed, keys, p + 1, s)
    ensures QueueShape(messages, queue[1..] + [MessageMetadata(messages[p], s + 1)], keys, p + 1, s)
  {
    hide FullName, ResolvedBy, QueueShape;
    PassTurnQueue(messages, keys, queue, p, s);
  }

  lemma PassTurnQueue(messages: seq<ParsedMessage>, keys: set<string>, queue: seq<MessageMetadata>, p: nat, s: nat)
    requires p < |messages| && QueueShape(messages, queue, keys, p, s) && queue != []
    requires FullName(messages[p]) !in keys
    ensures QueueShape(messages, queue[1..] + [MessageMetadata(messages[p], s + 1)], keys, p + 1, s)
  {
    hide FullName;
    PendingHead(messages, keys, p, s);
    PendingSnoc(messages, 0, p, keys, s + 1);
    hide Pending;
    assert queue[1..] == Pending(messages, p + 1, |messages|, keys, s) + Pending(messages, 0, p, keys, s + 1);
  }

  lemma NotBefore(messages: seq<ParsedMessage>, seed: set<string>, keys: set<string>, p: nat, s: nat)
    requires Progress(messages, seed, keys, p, s) && p < |messages| && FullName(messages[p]) !in keys && s > 0
    ensures !ResolvedBy(messages, seed, p, s - 1)
  {
    hide FullName, ResolvedBy;
    assert !Known(messages, seed, p, s, p);
  }

  lemma AllResolved(messages: seq<ParsedMessage>, seed: set<string>, keys: set<string>, p: nat, s: nat)
    requires Progress(messages, seed, keys, p, s) && QueueShape(messages, [], keys, p, s) && s <= MAX_PARSE_ITER_LIMIT
    ensures keys == seed + set m <- messages :: FullName(m)
    ensures AllInTime(messages, seed)
  {
    hide FullName, ResolvedBy;
    PendingMembers(messages, p, |messages|, keys, s);
    PendingMembers(messages, 0, p, keys, s + 1);
    forall i: nat | i < |messages|
      ensures FullName(messages[i]) in keys && ResolvedBy(messages, seed, i, MAX_PARSE_ITER_LIMIT)
    {
      assert FullName(messages[i]) in keys;
      assert Known(messages, seed, p, s, i);
      ResolvedByLater(messages, seed, i, if i < p then s else s - 1, MAX_PARSE_ITER_LIMIT);
    }
  }

  // The queue at the end of round `s - 1`, with the first `p + 1` messages of round `s` handled.
  ghost predicate Blocked(messages: seq<ParsedMessage>, keys: set<string>, queue: seq<MessageMetadata>,
                          blocked: seq<string>, p: nat, s: nat)
  {
    && p < |messages| && QueueShape(messages, queue, keys, p + 1, s)
    && |blocked| == |queue| && forall i | 0 <= i < |queue| :: blocked[i] == FullName(queue[i].msg)
  }

  lemma BlockedIffUnknown(messages: seq<ParsedMessage>, keys: set<string>, queue: seq<MessageMetadata>,
                          blocked: seq<string>, p: nat, s: nat)
    requires Blocked(messages, keys, queue, blocked, p, s)
    ensures forall name <- blocked :: name !in keys
    ensures forall i: nat | i < |messages| && FullName(messages[i]) !in keys :: FullName(messages[i]) in blocked
  {
    hide FullName;
    PendingMembers(messages, p + 1, |messages|, keys, s);
    PendingMembers(messages, 0, p + 1, keys, s + 1);
    forall name <- blocked ensures name !in keys {
      var k :| 0 <= k < |queue| && blocked[k] == name;
      assert queue[k] in queue;
    }
    forall i: nat | i < |messages| && FullName(messages[i]) !in keys ensures FullName(messages[i]) in blocked {
      var q := MessageMetadata(messages[i], if i < p + 1 then s + 1 else s);
      assert q in queue;
      var k :| 0 <= k < |queue| && queue[k] == q;
      assert blocked[k] == FullName(messages[i]);
    }
  }

  // What is left in the queue once the counter has passed the limit.
  lemma Report(messages: seq<ParsedMessage>, seed: set<string>, keys: set<string>,
               queue: seq<MessageMetadata>, blocked: seq<string>, p: nat, s: nat)
    requires s == MAX_PARSE_ITER_LIMIT + 1 && Blocked(messages, keys, queue, blocked, p, s)
    requires Progress(messages, seed, keys, p + 1, s)
    ensures OutOfReach(messages, seed, blocked)
    ensures forall name <- blocked :: name !in keys
    ensures seed <= keys && forall m <- messages :: FullName(m) in keys || FullName(m) in blocked
  {
    hide FullName, ResolvedBy;
    BlockedIffUnknown(messages, keys, queue, blocked, p, s);
    BlockedAreMessages(messages, keys, queue, blocked, p, s);
    hide Blocked;
    forall i: nat | i < |messages|
      ensures if FullName(messages[i]) in blocked then !ResolvedBy(messages, seed, i, MAX_PARSE_ITER_LIMIT)
              else ResolvedBy(messages, seed, i, MAX_PARSE_ITER_LIMIT + 1)
    {
      assert FullName(messages[i]) in blocked <==> !Known(messages, seed, p + 1, s, i);
      if ResolvedBy(messages, seed, i, MAX_PARSE_ITER_LIMIT) {
        ResolvedByMonotone(messages, seed, i, MAX_PARSE_ITER_LIMIT);
      }
    }
  }

  lemma BlockedAreMessages(messages: seq<ParsedMessage>, keys: set<string>, queue: seq<MessageMetadata>,
                           blocked: seq<string>, p: nat, s: nat)
    requires Blocked(messages, keys, queue, blocked, p, s)
    ensures forall q <- queue :: q.msg in messages && FullName(q.msg) in blocked
    ensures forall name <- blocked :: exists q <- queue :: FullName(q.msg) == name && q.msg in messages
  {
    hide FullName;
    PendingMembers(messages, p + 1, |messages|, keys, s);
    PendingMembers(messages, 0, p + 1, keys, s + 1);
    forall q <- queue ensures q.msg in messages && FullName(q.msg) in blocked {
      var k :| 0 <= k < |queue| && queue[k] == q;
      assert blocked[k] == FullName(q.msg);
    }
    forall name <- blocked ensures exists q <- queue :: FullName(q.msg) == name && q.msg in messages {
      var k :| 0 <= k < |blocked| && blocked[k] == name;
      assert queue[k] in queue;
    }
  }

  // The types that the report lists.
  function MissingOf(queue: seq<MessageMetadata>, keys: set<string>, blocked: seq<string>): set<string> {
    set item <- queue, f <- item.msg.fields
      | !IsPrimitive(f.fieldType.fieldType) && FullTypeName(f) !in keys && FullTypeName(f) !in blocked
      :: FullTypeName(f)
  }

  lemma MissingTypes(messages: seq<ParsedMessage>, seed: set<string>, keys: set<string>,
                     queue: seq<MessageMetadata>, blocked: seq<string>, p: nat, s: nat)
    requires s == MAX_PARSE_ITER_LIMIT + 1 && Blocked(messages, keys, queue, blocked, p, s)
    requires Progress(messages, seed, keys, p + 1, s) && DistinctNames(messages, seed)
    ensures forall t :: t in MissingOf(queue, keys, blocked) <==> IsMissing(messages, seed, blocked, t)
  {
    hide FullName, FullTypeName, IsPrimitive, Known;
    Report(messages, seed, keys, queue, blocked, p, s);
    BlockedAreMessages(messages, keys, queue, blocked, p, s);
    hide Blocked, OutOfReach;
    forall t ensures t in MissingOf(queue, keys, blocked) <==> IsMissing(messages, seed, blocked, t) {
      DefinedOrMissing(messages, seed, keys, blocked, t);
      if t in MissingOf(queue, keys, blocked) {
        var item, f :|
          item in queue && f in item.msg.fields && !IsPrimitive(f.fieldType.fieldType) && FullTypeName(f) == t
          && t !in keys && t !in blocked;
        assert RefersTo(item.msg, t) && item.msg in messages && FullName(item.msg) in blocked;
      }
      if IsMissing(messages, seed, blocked, t) {
        var m :| m in messages && FullName(m) in blocked && RefersTo(m, t);
        var q :| q in queue && FullName(q.msg) == FullName(m) && q.msg in messages;
        SameMessage(messages, seed, m, q.msg);
        var f :| f in m.fields && !IsPrimitive(f.fieldType.fieldType) && FullTypeName(f) == t;
      }
    }
  }

  lemma DefinedOrMissing(messages: seq<ParsedMessage>, seed: set<string>, keys: set<string>, blocked: seq<string>,
                         t: string)
    requires seed <= keys && forall m <- messages :: FullName(m) in keys || FullName(m) in blocked
    requires forall name <- blocked :: exists m <- messages :: FullName(m) == name
    requires forall k <- keys :: k in seed || exists i: nat | i < |messages| :: FullName(messages[i]) == k
    ensures Undefined(messages, seed, t) <==> t !in keys && t !in blocked
  {
    hide FullName;
  }

  lemma SameMessage(messages: seq<ParsedMessage>, seed: set<string>, m: ParsedMessage, m': ParsedMessage)
    requires DistinctNames(messages, seed) && m in messages && m' in messages && FullName(m) == FullName(m')
    ensures m == m'
  {
    hide FullName, NamedAfterPrimitive;
  }

  /******* which inputs resolve *******/

  // Message `i` refers through at most `n` levels of messages down to the seed.
  ghost predicate DepthWithin(messages: seq<ParsedMessage>, seed: set<string>, i: nat, n: nat)
    requires i < |messages|
    decreases n
  {
    forall f <- messages[i].fields ::
      IsPrimitive(f.fieldType.fieldType) || FullTypeName(f) in seed ||
      exists j: nat | j < |messages| && FullName(messages[j]) == FullTypeName(f) ::
        n > 0 && DepthWithin(messages, seed, j, n - 1)
  }

  // A message of depth `n` gets its turn by round `n`, so depth 2048 never meets the limit.
  lemma {:induction false} DepthBoundsRound(messages: seq<ParsedMessage>, seed: set<string>, i: nat, n: nat)
    requires i < |messages| && DepthWithin(messages, seed, i, n)
    ensures ResolvedBy(messages, seed, i, n)
    decreases n
  {
    hide IsPrimitive, FullTypeName, FullName;
    forall f <- messages[i].fields | !IsPrimitive(f.fieldType.fieldType) && FullTypeName(f) !in seed
      ensures exists j: nat | j < |messages| && FullName(messages[j]) == FullTypeName(f) ::
        if j < i then ResolvedBy(messages, seed, j, n) else n > 0 && ResolvedBy(messages, seed, j, n - 1)
    {
      var j: nat :| j < |messages| && FullName(messages[j]) == FullTypeName(f)
        && n > 0 && DepthWithin(messages, seed, j, n - 1);
      DepthBoundsRound(messages, seed, j, n - 1);
      ResolvedByMonotone(messages, seed, j, n - 1);
    }
  }

  lemma {:induction false} PendingCounters(messages: seq<ParsedMessage>, lo: nat, hi: nat, keys: set<string>, s: nat)
    requires hi <= |messages|
    ensures forall k | 0 <= k < |Pending(messages, lo, hi, keys, s)| ::
              Pending(messages, lo, hi, keys, s)[k].seenCount == s
    decreases hi - lo
  {
    hide FullName;
    if lo < hi { PendingCounters(messages, lo + 1, hi, keys, s); }
  }

  // The queued message has at least as many levels of messages below it as its counter says.
  ghost predicate DeepAsCounted(messages: seq<ParsedMessage>, seed: set<string>, q: MessageMetadata) {
    exists i: nat | i < |messages| ::
      q.msg == messages[i] && (q.seenCount > 0 ==> !DepthWithin(messages, seed, i, q.seenCount - 1))
  }

  lemma PendingDepth(messages: seq<ParsedMessage>, seed: set<string>, keys: set<string>, lo: nat, hi: nat,
                     p: nat, s: nat, c: nat, k: nat)
    requires Progress(messages, seed, keys, p, s) && hi <= |messages| && k < |Pending(messages, lo, hi, keys, c)|
    requires (lo >= p && c == s) || (hi <= p && c == s + 1)
    ensures DeepAsCounted(messages, seed, Pending(messages, lo, hi, keys, c)[k])
  {
    hide FullName, ResolvedBy, DepthWithin, Pending;
    PendingCounters(messages, lo, hi, keys, c);
    PendingMembers(messages, lo, hi, keys, c);
    var q := Pending(messages, lo, hi, keys, c)[k];
    var i: nat :| lo <= i < hi && q.msg == messages[i] && FullName(messages[i]) !in keys;
    assert !Known(messages, seed, p, s, i);
    if c > 0 && DepthWithin(messages, seed, i, c - 1) {
      DepthBoundsRound(messages, seed, i, c - 1);
    }
  }

  // The counters in the queue never decrease and differ by at most one, and a message whose
  // counter is `c` has at least `c` levels of messages below it.
  lemma QueueCounters(messages: seq<ParsedMessage>, seed: set<string>, keys: set<string>,
                      queue: seq<MessageMetadata>, p: nat, s: nat)
    requires Progress(messages, seed, keys, p, s) && QueueShape(messages, queue, keys, p, s)
    ensures forall j, k | 0 <= j < k < |queue| :: queue[j].seenCount <= queue[k].seenCount <= queue[j].seenCount + 1
    ensures forall k | 0 <= k < |queue| :: DeepAsCounted(messages, seed, queue[k])
  {
    hide Pending, DeepAsCounted;
    var waiting, passed := Pending(messages, p, |messages|, keys, s), Pending(messages, 0, p, keys, s + 1);
    PendingCounters(messages, p, |messages|, keys, s);
    PendingCounters(messages, 0, p, keys, s + 1);
    assert queue == waiting + passed;
    assert forall k | 0 <= k < |queue| :: queue[k] == if k < |waiting| then waiting[k] else passed[k - |waiting|];
    assert forall k | 0 <= k < |queue| :: queue[k].seenCount == if k < |waiting| then s else s + 1;
    forall k | 0 <= k < |queue| ensures DeepAsCounted(messages, seed, queue[k]) {
      if k < |waiting| {
        assert queue[k] == waiting[k];
        PendingDepth(messages, seed, keys, p, |messages|, p, s, s, k);
      } else {
        assert queue[k] == passed[k - |waiting|];
        PendingDepth(messages, seed, keys, 0, p, p, s, s + 1, k - |waiting|);
      }
    }
  }

  lemma {:induction false} DepthMonotone(messages: seq<ParsedMessage>, seed: set<string>, i: nat, n: nat, m: nat)
    requires i < |messages| && n <= m && DepthWithin(messages, seed, i, n)
    ensures DepthWithin(messages, seed, i, m)
    decreases n
  {
    hide IsPrimitive, FullTypeName, FullName;
    forall f <- messages[i].fields | !IsPrimitive(f.fieldType.fieldType) && FullTypeName(f) !in seed
      ensures exists j: nat | j < |messages| && FullName(messages[j]) == FullTypeName(f) ::
        m > 0 && DepthWithin(messages, seed, j, m - 1)
    {
      var j: nat :| j < |messages| && FullName(messages[j]) == FullTypeName(f)
        && n > 0 && DepthWithin(messages, seed, j, n - 1);
      DepthMonotone(messages, seed, j, n - 1, m - 1);
    }
  }

  function DepthOfRound(n: nat, i: nat, size: nat): nat { n * size + i }

  lemma DepthOfRoundGrows(n: nat, i: nat, j: nat, size: nat)
    requires j < size
    ensures j < i ==> DepthOfRound(n, j, size) < DepthOfRound(n, i, size)
    ensures n > 0 ==> DepthOfRound(n - 1, j, size) < DepthOfRound(n, i, size)
  {
    if n > 0 { assert n * size == (n - 1) * size + size; }
  }

  // Conversely a message that gets its turn in round `n` has a finite depth: each round
  // adds at most one level per message.
  lemma {:induction false} RoundBoundsDepth(messages: seq<ParsedMessage>, seed: set<string>, i: nat, n: nat)
    requires i < |messages| && ResolvedBy(messages, seed, i, n)
    ensures DepthWithin(messages, seed, i, DepthOfRound(n, i, |messages|))
    decreases n, i
  {
    hide IsPrimitive, FullTypeName, FullName, DepthOfRound;
    var bound := DepthOfRound(n, i, |messages|);
    forall f <- messages[i].fields | !IsPrimitive(f.fieldType.fieldType) && FullTypeName(f) !in seed
      ensures exists j: nat | j < |messages| && FullName(messages[j]) == FullTypeName(f) ::
        bound > 0 && DepthWithin(messages, seed, j, bound - 1)
    {
      var j: nat :| j < |messages| && FullName(messages[j]) == FullTypeName(f)
        && if j < i then ResolvedBy(messages, seed, j, n) else n > 0 && ResolvedBy(messages, seed, j, n - 1);
      DepthOfRoundGrows(n, i, j, |messages|);
      var m := if j < i then n else n - 1;
      RoundBoundsDepth(messages, seed, j, m);
      DepthMonotone(messages, seed, j, DepthOfRound(m, j, |messages|), bound - 1);
    }
  }

  // Messages that wait for each other in a circle, or for a type that nobody defines, are
  // never resolved: `stuck` is a set in which everyone waits for a member or for nothing.
  ghost predicate Stuck(messages: seq<ParsedMessage>, seed: set<string>, stuck: set<nat>) {
    forall i <- stuck :: i < |messages| && exists f <- messages[i].fields ::
      !IsPrimitive(f.fieldType.fieldType) && FullTypeName(f) !in seed
      && forall j: nat | j < |messages| && FullName(messages[j]) == FullTypeName(f) :: j in stuck
  }

  lemma {:induction false} StuckIsNeverResolved(messages: seq<ParsedMessage>, seed: set<string>, stuck: set<nat>,
                                                i: nat, n: nat)
    requires Stuck(messages, seed, stuck) && i in stuck
    ensures i < |messages| && !ResolvedBy(messages, seed, i, n)
    decreases n, i
  {
    hide IsPrimitive, FullTypeName, FullName;
    var f :| f in messages[i].fields && !IsPrimitive(f.fieldType.fieldType) && FullTypeName(f) !in seed
      && forall j: nat | j < |messages| && FullName(messages[j]) == FullTypeName(f) :: j in stuck;
    forall j: nat | j < |messages| && FullName(messages[j]) == FullTypeName(f)
      ensures !if j < i then ResolvedBy(messages, seed, j, n) else n > 0 && ResolvedBy(messages, seed, j, n - 1)
    {
      if j < i {
        StuckIsNeverResolved(messages, seed, stuck, j, n);
      } else if n > 0 {
        StuckIsNeverResolved(messages, seed, stuck, j, n - 1);
      }
    }
  }

  ghost predicate SomeStuck(messages: seq<ParsedMessage>, seed: set<string>) {
    exists stuck: set<nat> :: stuck != {} && Stuck(messages, seed, stuck)
  }

  lemma RoundsDecide(messages: seq<ParsedMessage>, seed: set<string>)
    ensures AllShallow(messages, seed) ==> AllInTime(messages, seed)
    ensures AllInTime(messages, seed) ==> !SomeStuck(messages, seed)
  {
    hide DepthWithin, ResolvedBy, Stuck;
    forall i: nat | i < |messages| && DepthWithin(messages, seed, i, MAX_PARSE_ITER_LIMIT)
      ensures ResolvedBy(messages, seed, i, MAX_PARSE_ITER_LIMIT)
    {
      DepthBoundsRound(messages, seed, i, MAX_PARSE_ITER_LIMIT);
    }
    if SomeStuck(messages, seed) {
      var stuck: set<nat> :| stuck != {} && Stuck(messages, seed, stuck);
      var i :| i in stuck;
      StuckIsNeverResolved(messages, seed, stuck, i, MAX_PARSE_ITER_LIMIT);
    }
  }

  ghost predicate NeverResolved(messages: seq<ParsedMessage>, seed: set<string>, i: nat)
    requires i < |messages|
  {
    forall n: nat :: !ResolvedBy(messages, seed, i, n)
  }

  // A message with this name is resolved in round `n` and in the round after it.
  ghost predicate ProvidedBy(messages: seq<ParsedMessage>, seed: set<string>, key: string, n: nat) {
    exists j: nat | j < |messages| && FullName(messages[j]) == key ::
      ResolvedBy(messages, seed, j, n) && ResolvedBy(messages, seed, j, n + 1)
  }

  lemma ProvidedLater(messages: seq<ParsedMessage>, seed: set<string>, key: string, n: nat, m: nat)
    requires ProvidedBy(messages, seed, key, n) && n <= m
    ensures ProvidedBy(messages, seed, key, m)
  {
    hide FullName;
    var j: nat :| j < |messages| && FullName(messages[j]) == key
      && ResolvedBy(messages, seed, j, n) && ResolvedBy(messages, seed, j, n + 1);
    hide ResolvedBy;
    ResolvedByLater(messages, seed, j, n, m);
    ResolvedByLater(messages, seed, j, n, m + 1);
  }

  predicate Waits(f: FieldInfo, seed: set<string>) {
    !IsPrimitive(f.fieldType.fieldType) && FullTypeName(f) !in seed
  }

  lemma {:induction false} CommonRound(messages: seq<ParsedMessage>, seed: set<string>, fields: seq<FieldInfo>)
    returns (n: nat)
    requires forall f <- fields | Waits(f, seed) ::
      exists j: nat | j < |messages| && FullName(messages[j]) == FullTypeName(f) :: !NeverResolved(messages, seed, j)
    ensures forall f <- fields | Waits(f, seed) :: ProvidedBy(messages, seed, FullTypeName(f), n)
  {
    hide FullTypeName, FullName, Waits, ResolvedBy;
    n := 0;
    if fields != [] {
      var rest := CommonRound(messages, seed, fields[1..]);
      n := rest;
      var f := fields[0];
      if Waits(f, seed) {
        var j: nat :| j < |messages| && FullName(messages[j]) == FullTypeName(f) && !NeverResolved(messages, seed, j);
        var m: nat :| ResolvedBy(messages, seed, j, m);
        n := if m < rest then rest else m;
        ResolvedByLater(messages, seed, j, m, n);
        ResolvedByLater(messages, seed, j, m, n + 1);
      }
      forall g <- fields[1..] | Waits(g, seed) ensures ProvidedBy(messages, seed, FullTypeName(g), n) {
        ProvidedLater(messages, seed, FullTypeName(g), rest, n);
      }
    }
  }

  // The messages that are never resolved are such a set, so there is no other reason.
  lemma UnresolvedAreStuck(messages: seq<ParsedMessage>, seed: set<string>)
    ensures Stuck(messages, seed, set i: nat | i < |messages| && NeverResolved(messages, seed, i))
  {
    hide IsPrimitive, FullTypeName, FullName;
    var stuck := set i: nat | i < |messages| && NeverResolved(messages, seed, i);
    forall i <- stuck
      ensures exists f <- messages[i].fields :: (Waits(f, seed)
        && forall j: nat | j < |messages| && FullName(messages[j]) == FullTypeName(f) :: j in stuck)
    {
      if forall f <- messages[i].fields | Waits(f, seed) ::
        exists j: nat | j < |messages| && FullName(messages[j]) == FullTypeName(f) :: !NeverResolved(messages, seed, j)
      {
        var n := CommonRound(messages, seed, messages[i].fields);
        assert ResolvedBy(messages, seed, i, n + 1) by { RoundAfter(messages, seed, i, n); }
      }
    }
  }

  lemma RoundAfter(messages: seq<ParsedMessage>, seed: set<string>, i: nat, n: nat)
    requires i < |messages|
    requires forall f <- messages[i].fields | Waits(f, seed) :: ProvidedBy(messages, seed, FullTypeName(f), n)
    ensures ResolvedBy(messages, seed, i, n + 1)
  {
    hide IsPrimitive, FullTypeName, FullName;
    forall f <- messages[i].fields | Waits(f, seed)
      ensures exists j: nat | j < |messages| && FullName(messages[j]) == FullTypeName(f) ::
        if j < i then ResolvedBy(messages, seed, j, n + 1) else ResolvedBy(messages, seed, j, n)
    {
      assert ProvidedBy(messages, seed, FullTypeName(f), n);
    }
  }

  /******* the limit and the naming conditions are needed *******/

  function Link(k: nat, i: nat): ParsedMessage {
    var next := FieldInfo(FieldType(Some("chain"), "chain", Repeat('a', i + 2), NotArray, None), "next");
    ParsedMessage(Repeat('a', i + 1), "chain", if i < k then [next] else [], [], Some(Ros1), "", "msg")
  }

  // `k + 1` messages, each of which refers to the one after it.
  function Chain(k: nat): seq<ParsedMessage> { seq(k + 1, i requires 0 <= i => Link(k, i)) }

  lemma PrimitivesHaveNoA(t: string)
    requires IsPrimitive(t)
    ensures t != [] && t[0] != 'a' && t[|t| - 1] != 'a'
  {
  }

  lemma ChainNames(k: nat, i: nat, j: nat)
    requires i <= k && j <= k
    ensures FullName(Chain(k)[i]) == FullName(Chain(k)[j]) ==> i == j
    ensures !NamedAfterPrimitive(FullName(Chain(k)[i]))
    ensures i < k ==> Waits(Chain(k)[i].fields[0], {})
    ensures i < k ==> (FullTypeName(Chain(k)[i].fields[0]) == FullName(Chain(k)[j]) <==> j == i + 1)
  {
    hide IsPrimitive;
    var name := FullName(Chain(k)[i]);
    assert |name| == 7 + i && |FullName(Chain(k)[j])| == 7 + j;
    assert name[|name| - 1] == 'a';
    forall prefix, t | IsPrimitive(t) ensures name != prefix + "/" + t {
      PrimitivesHaveNoA(t);
      var named := prefix + "/" + t;
      assert named[|named| - 1] == t[|t| - 1];
    }
    if i < k {
      var f := Chain(k)[i].fields[0];
      if IsPrimitive(f.fieldType.fieldType) {
        PrimitivesHaveNoA(f.fieldType.fieldType);
      }
      assert |FullTypeName(f)| == 8 + i;
      if j == i + 1 { assert Repeat('a', i + 2) == Repeat('a', j + 1); }
    }
  }

  // In this order message `i` is resolved in round `k - i` and no earlier, although its depth
  // is only `k - i`: a chain of 2050 messages is acyclic and complete but meets the limit.
  lemma {:induction false} ChainRound(k: nat, i: nat, n: nat)
    requires i <= k
    ensures ResolvedBy(Chain(k), {}, i, n) <==> k - i <= n
    ensures DepthWithin(Chain(k), {}, i, n) <==> k - i <= n
    decreases n
  {
    hide IsPrimitive, FullTypeName, FullName;
    if i < k {
      var f := Chain(k)[i].fields[0];
      forall j: nat | j <= k
        ensures FullName(Chain(k)[j]) == FullTypeName(f) <==> j == i + 1
      {
        ChainNames(k, i, j);
      }
      ChainNames(k, i, i);
      if n > 0 { ChainRound(k, i + 1, n - 1); }
      assert forall g <- Chain(k)[i].fields :: g == f;
    }
  }

  lemma ChainIsPlain(k: nat)
    ensures DistinctNames(Chain(k), {}) && AllPlain(Chain(k), map[]) && forall m <- Chain(k) :: PackagesKnown(m)
  {
    assert IsPrimitive("wstring");
    hide IsPrimitive, FullName, FullTypeName, NamedAfterPrimitive;
    forall i, j | 0 <= i < j < |Chain(k)| ensures FullName(Chain(k)[i]) != FullName(Chain(k)[j]) {
      ChainNames(k, i, j);
    }
    forall m <- Chain(k) ensures !NamedAfterPrimitive(FullName(m)) && PlainFields(m) && PackagesKnown(m) {
      var i :| 0 <= i < |Chain(k)| && Chain(k)[i] == m;
      ChainNames(k, i, i);
      assert forall f <- m.fields :: f == m.fields[0] && Waits(f, {});
    }
  }

  // So the resolver refuses such a chain, though every message of it is plain, has another name
  // and reaches down to the seed in finitely many levels.
  method ResolveChain(md5: string -> string, k: nat) returns (r: Result<Graph, ResolveError>)
    ensures r.Ok? <==> k <= 2048
    ensures r.Err? ==> r.error.LimitReached? && r.error.unresolvedTypes == {}
    ensures forall i: nat | i <= k :: DepthWithin(Chain(k), {}, i, k)
  {
    hide IsPrimitive, FullName, FullTypeName, NamedAfterPrimitive, ResolvedBy, DepthWithin, Consistent, PlainLibrary,
         PackagesKnown, PlainFields, Acyclic, OutOfReach;
    ChainIsPlain(k);
    EmptyGraphIsConsistent(md5);
    var seed: Graph := map[];
    assert seed.Keys == {};
    forall i: nat | i <= k
      ensures DepthWithin(Chain(k), {}, i, k)
      ensures ResolvedBy(Chain(k), {}, i, MAX_PARSE_ITER_LIMIT) <==> k - i <= MAX_PARSE_ITER_LIMIT
    {
      ChainRound(k, i, k);
      ChainRound(k, i, MAX_PARSE_ITER_LIMIT);
    }
    assert |Chain(k)| == k + 1;
    r := ResolveMessages(md5, Chain(k), seed);
    assert r.Ok? ==> ResolvedBy(Chain(k), {}, 0, MAX_PARSE_ITER_LIMIT);
    if r.Err? {
      forall t ensures !IsMissing(Chain(k), {}, r.error.blockedMessages, t) { ChainIsComplete(k, t); }
    }
  }

  lemma ChainIsComplete(k: nat, t: string)
    ensures Undefined(Chain(k), {}, t) ==> forall m <- Chain(k) :: !RefersTo(m, t)
  {
    hide IsPrimitive, FullName, FullTypeName, NamedAfterPrimitive;
    forall m <- Chain(k) | RefersTo(m, t) ensures !Undefined(Chain(k), {}, t) {
      var i :| 0 <= i < |Chain(k)| && Chain(k)[i] == m;
      ChainNames(k, i, if i < k then i + 1 else i);
      assert Chain(k)[if i < k then i + 1 else i] in Chain(k);
    }
  }

  // Why the names have to be distinct: a second message of a name is filed over the first, and
  // that closes a cycle if and only if a chain of references leads from it to its own name. The
  // next message that refers to the name would send the recursions around the cycle for ever.
  lemma DuplicateNameClosesCycle(lib: Library, p: ParsedMessage)
    requires Acyclic(lib) && Closed(lib) && NamesAreTypes(lib.Keys) && FullName(p) in lib
    ensures !Acyclic(lib[FullName(p) := p]) <==> Reaches(p, lib, FullName(p))
  {
    hide Acyclic, Closed, NamedAfterPrimitive, FullName, IsIntrinsic;
    assert lib.Keys + {FullName(p)} == lib.Keys;
    InsertIsAcyclicIff(lib, FullName(p), p);
    if Mentions(VersionOf(p), p.fields, FullName(p)) {
      var path := [FullName(p)];
      assert IsPath(VersionOf(p), p.fields, lib, path) && path[|path| - 1] == FullName(p);
    }
  }

  // A library and a message for which it does.
  lemma DuplicateNameExample()
    ensures var a := ParsedMessage("A", "p", [], [], Some(Ros1), "", "msg");
            var b := a.(name := "B", fields := [FieldInfo(FieldType(Some("p"), "p", "A", NotArray, None), "x")]);
            var a' := a.(fields := [FieldInfo(FieldType(Some("p"), "p", "B", NotArray, None), "y")]);
            var lib: Library := map["p/A" := a, "p/B" := b];
            && FullName(a') == FullName(a) && Acyclic(lib) && Closed(lib) && Ready(a'.fields, lib.Keys)
            && !Acyclic(lib[FullName(a') := a'])
  {
    var a := ParsedMessage("A", "p", [], [], Some(Ros1), "", "msg");
    var b := a.(name := "B", fields := [FieldInfo(FieldType(Some("p"), "p", "A", NotArray, None), "x")]);
    var a' := a.(fields := [FieldInfo(FieldType(Some("p"), "p", "B", NotArray, None), "y")]);
    var lib: Library := map["p/A" := a, "p/B" := b];
    assert FullTypeName(b.fields[0]) == "p/A" && FullTypeName(a'.fields[0]) == "p/B";
    assert "p/A" != "p/B" by { assert "p/A"[2] != "p/B"[2]; }
    assert Ranks(lib, map["p/A" := 0, "p/B" := 1]);
    var lib' := lib[FullName(a') := a'];
    forall rank: map<string, nat> ensures !Ranks(lib', rank) {
      if lib'.Keys <= rank.Keys {
        assert Below(lib', rank, lib'["p/A"].fields, rank["p/A"]) ==> rank["p/B"] < rank["p/A"];
        assert Below(lib', rank, lib'["p/B"].fields, rank["p/B"]) ==> rank["p/A"] < rank["p/B"];
      }
    }
  }
}
