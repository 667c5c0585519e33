# A verified model of roslibrust

This project models the parts of roslibrust in which several pieces of code have to agree, or in
which concurrent steps can interleave, and proves that they do what the library promises.

**Code generation and message hashes.** `Resolver` is the work list that orders parsed messages by
their dependencies, with its retry counters and its limit of 2048. `MessageGraph` holds the
recursions over the resolved graph (md5 sum, referenced types, expanded definition, fixed length);
none of them guards against cycles, so they are functions of acyclic graphs, and the resolver is
proved to produce such graphs. `MessageFiles` holds the loops that compute them. `MessageParser`
turns files into parsed messages; `ParsedLines` and `BuiltinTexts` say letter by letter what it
reads. `DefinitionMd5` computes an md5 sum a second time, from the expanded text. The central
theorem (`PrintedDefinition.PrintedTextHashesLikeStructure`) says for which messages the two sums
agree, and `Md5Conditions` shows what its conditions are there for. `Ros2Hashing` describes
messages for the type hash of ROS2, with a cache in every graph node; `Ros2Services` describes
services. MD5, SHA-256 with its JSON form, and the table of field type numbers are parameters.

**Networking.** `Ros1Publishers` and `Ros1Subscribers` are the life cycles of publications and
subscriptions in a ROS1 node; `RosbridgeCalls` and `RosbridgeSubscriptions` are the in-flight
calls and the subscriptions of a rosbridge client that loses and regains its connection;
`TransformWait` is the wait for a transform. Each is a state machine. A step is one access to the
state that tasks share, or a region of code whose lock keeps out every other step on what it
touches; a lock for reading alone does not merge steps. Each theorem is about every state of
every interleaving. The classes beside them carry out single steps on fields, as the code does:
`Valid` is the invariant that the runs keep, and each method is proved to keep it, to do exactly
what its step says, and to have the effect that a caller relies on. `Tcpros`, `TcprosHeaders` and
`TcprosFraming` are connection headers and message framing over a stream that delivers bytes in
arbitrary chunks.
`ZenohKeys` and `ZenohMonitor` are the discovery keys and the monitor that forgets silent peers.

## What the theorems assume

- Strings are sequences of Unicode characters, except on the wire, where they are UTF-8 bytes.
- The resolver is given messages with distinct names that differ from the built-in messages and
  are not called like a primitive type (`string.msg`). `Resolver.DuplicateNameClosesCycle` shows
  exactly when a second message of the same name closes a cycle. A field without package has an
  intrinsic type, which the parser guarantees (`MessageParser.ParsedPackagesAreKnown`) and
  without which the source panics.
- "Plain" messages (`Messages.PlainField`) give a package exactly for non-primitive types and use
  no wide strings in ROS1. For these the resolver's, the hasher's and the length check's notions
  of a primitive type coincide.
- "Canonical" messages (`HashAgreement.Canonical`, `CanonicalLines.CanonicalLine`) are ROS1
  messages whose field lines are a type and a name, whose array sizes are written the way they are
  printed, that avoid the type `char`, package-qualified primitives and names that contain their
  own type, whose constants have a base type, single blanks in the value and an equal sign with
  blanks on both sides or on none, and whose text does not contain the separator line.
- md5 sums are single words.

## Findings

- The two md5 implementations disagree on some canonical messages. If the last section of a
  printed definition belongs to an empty file that is a reference of a reference, the text ends
  in a header without a line end and reading it fails. The theorem states the exact condition, and
  `BareHeaderExample` is a concrete instance: `b/R` holds a `b/A`, which holds an `a/E`, and
  `a/E.msg` is empty; the sums of `b/A` agree, and the text of `b/R` cannot be read. A message
  without any field or constant fails as well.
- The limit of the resolver counts rounds, not depth, but depth bounds rounds: depth 2048 always
  resolves. A chain of 2050 messages in the wrong order is complete and acyclic and is refused
  (`Resolver.ChainRound`, `Resolver.ResolveChain`).
- An accept task that has taken a connection waits for the peer's header without a time limit and
  looks at nothing else, and it can panic if the peer resets the connection before it is answered.
  If the last publisher is dropped meanwhile, the publication stays in the map and its topic is
  refused: until the peer is answered, or for good after a panic or when the peer stays silent.
  In the model nothing else strands a topic (`Ros1Publishers.ForgottenIffDeaf`,
  `Ros1Publishers.TopicStaysRefused`, `Ros1Publishers.AnsweredPeerFreesTopic`).
- A comment with an equal sign behind a string field turns the field into a constant
  (`ParsedLines.FieldsAreRead`): the test for string constants looks for the sign in the whole
  line. `string name # a = b` declares a constant, `int32 name # a = b` a field.
- A rosbridge server can be left with a subscription that nobody wants, in exactly three ways;
  the last is a reconnection, which renews the entries of topics without subscribers, because
  entries are never removed (`RosbridgeSubscriptions.UnusedTopicIsAskedForIff`).
- A service call can enter the table after the clean-up that follows a lost connection. Only the
  second clearing, under the lock for writing, removes it (`RosbridgeCalls.SecondClearIsNeeded`).
- The comment on `clean_msg` says that package names of dependencies are removed. The code does
  not remove them, and neither does the model.
- `receive_body_with_capacity_hint` reserves less than the message needs when the hint is too
  small. Reading still completes, because a full buffer grows before each read.
- The fixed-length check does not count `wstring` as dynamic; the model follows the code.

## Model

| member | source | states |
|---|---|---|
| Resolver.ResolveMessages | roslibrust_codegen/src/lib.rs:739-822 | The work list always ends. Success means that exactly the given messages were added and that the graph is closed under references, acyclic, and holds for every entry what the recursions give on the finished graph. For plain messages it succeeds if and only if every message gets its turn by round 2048, so always if no dependency is deeper than 2048. Messages that wait for each other in a circle or for a missing type always give an error. An error at the limit names only messages that are out of reach, and exactly the types that these refer to and nobody defines; the other error names a message on which a recursion fails although its references are there, which never happens to plain messages |
| Resolver.ReadyIffResolvedBy | roslibrust_codegen/src/lib.rs:753-764 | A message is found ready at its turn exactly when each type it refers to comes from the seed, earlier in the round, or from a round before |
| Resolver.QueueCounters | roslibrust_codegen/src/lib.rs:753-777 | The counters along the queue never decrease and differ by at most one, and a message with counter c has at least c levels of messages below it |
| Resolver.Report | roslibrust_codegen/src/lib.rs:779-821 | When a counter exceeds the limit, the messages left in the queue are exactly the unresolved ones; none of them could have been resolved within the limit, and all others are resolved within it or in the round after it |
| Resolver.MissingTypes | roslibrust_codegen/src/lib.rs:784-814 | The reported types are exactly those that a message of the report refers to and that neither the seed nor any message defines |
| Resolver.DepthBoundsRound | roslibrust_codegen/src/lib.rs:743-779 | A message whose references reach down to the seed in n levels is resolved by round n, so depth 2048 never meets the limit |
| Resolver.RoundBoundsDepth | roslibrust_codegen/src/lib.rs:753-777 | A message that is resolved in some round has a finite depth, at most one level per message and round |
| Resolver.StuckIsNeverResolved | roslibrust_codegen/src/lib.rs:755-777 | Messages that wait for each other in a circle or for a missing type are resolved in no round |
| Resolver.UnresolvedAreStuck | roslibrust_codegen/src/lib.rs:755-777 | A circle or a missing type is the only reason for which a message is never resolved |
| Resolver.ChainRound | roslibrust_codegen/src/lib.rs:743-782 | In the worst order a chain of messages needs one round per link, so the limit refuses an acyclic chain that is long enough |
| Resolver.ResolveChain | roslibrust_codegen/src/lib.rs:779-821 | A chain of plain messages with distinct names, none of which refers to an undefined type, is resolved if and only if it has at most 2048 links; a longer one is refused without naming a missing type |
| Resolver.DuplicateNameClosesCycle | roslibrust_codegen/src/lib.rs:766-771 | For every closed acyclic graph, overwriting an entry with a message of the same name makes the graph cyclic if and only if a chain of references leads from the message to its own name |
| GraphProperties.InsertIsAcyclicIff | roslibrust_codegen/src/lib.rs:766-771 | For every closed acyclic graph and every name, new or taken, the graph stays acyclic if and only if the message filed there does not refer to that name, neither itself nor through the entries of the graph |
| Resolver.DuplicateNameExample | roslibrust_codegen/src/lib.rs:766-771 | A library and a message of a taken name that close a cycle |
| Libraries.InsertKeepsAcyclic | roslibrust_codegen/src/lib.rs:755-771 | Inserting a message whose references are all present keeps the graph closed and acyclic: insertion order is a rank that decreases along references |
| MessageFiles.ComputeMd5Sum | roslibrust_codegen/src/lib.rs:154-166 | The recursive computation ends on every acyclic graph and hashes exactly the content whose agreement with the printed text is proved in `PrintedDefinition`; a missing type at any depth gives no sum |
| MessageFiles.ComputeMd5Content | roslibrust_codegen/src/lib.rs:168-197 | The two loops append the constants in order, then for each field in order its own line or the sum of its type, and stop at the first field whose type has no sum |
| MessageFiles.GetUniqueFieldTypes | roslibrust_codegen/src/lib.rs:200-217 | The loop collects the set that `ReferencedTypesAreReachable` shows to be the reachable types, or fails when one is missing |
| MessageFiles.ComputeFullDefinition | roslibrust_codegen/src/lib.rs:222-245 | The loop prints the source and one section for each referenced type in the order of the names, and takes off the last line end |
| StringOrder.LessIffSmaller | roslibrust_codegen/src/lib.rs:222-245 | The order of the names is that of their first different character; a proper beginning of a name comes before it |
| MessageFiles.DetermineIfFixedLength | roslibrust_codegen/src/lib.rs:248-273 | The loop with its early exits decides what `FixedLengthIffNoDynamicField` characterises |
| MessageFiles.ResolveMessage | roslibrust_codegen/src/lib.rs:98-120 | A message file holds what the three computations give, and there is none if one of them fails |
| GraphProperties.InsertKeepsConsistent | roslibrust_codegen/src/lib.rs:766-771 | Every entry still holds what the recursions compute after a message is added |
| GraphProperties.ResolveStable | roslibrust_codegen/src/lib.rs:98-120 | The md5 sum, definition and length flag of a message do not change when the graph gains fresh entries |
| GraphProperties.PlainMessageResolves | roslibrust_codegen/src/lib.rs:98-120 | On a closed graph of plain messages no recursion ever misses an entry |
| GraphProperties.ReferencedTypesAreReachable | roslibrust_codegen/src/lib.rs:200-217 | The referenced types are exactly the types at the end of some chain of field references |
| GraphProperties.NoCycle | roslibrust_codegen/src/lib.rs:168-217 | No chain of references leads from an entry back to itself, so the unguarded recursions end |
| GraphProperties.FixedLengthIffNoDynamicField | roslibrust_codegen/src/lib.rs:248-273 | The length is fixed if and only if neither the message nor any reachable message has a field whose array is bounded or unbounded, or whose type is a string |
| Builtins.BuiltinsAreConsistent | roslibrust_codegen/src/ros2_builtin_interfaces.rs:72-124 | The three built-in messages form a graph that the resolver can start from |
| BuiltinTexts.SecondsAreRead | roslibrust_codegen/src/ros2_builtin_interfaces.rs:41-70 | Any text whose lines, apart from comments and empty ones, are those of the time and duration texts parses to the built-in message |
| BuiltinTexts.EventIsRead | roslibrust_codegen/src/ros2_builtin_interfaces.rs:15-37 | The same for the service event, with its four constants and four fields |
| MessageParser.ParseRosMessageFile | roslibrust_codegen/src/parse/msg.rs:65-101 | The loop over the lines splits them into fields and constants, each in the order of the file, or reports the error of the first bad line; the rows of `ParsedLines` say what a line declares |
| ParsedLines.ArraysAreRead | roslibrust_codegen/src/parse/mod.rs:238-282 | For every element type and every number of 64 bits, `[]`, `[n]` and `[<=n]` behind the type are read as an unbounded array, an array of length n and an array of at most n elements; nothing else about the type changes |
| ParsedLines.ShownTypeIsRead | roslibrust_codegen/src/parse/mod.rs:238-282 | Printing a type and parsing it gives its array back |
| ParsedLines.NumbersAreRead | roslibrust_codegen/src/parse/mod.rs:261-265 | A size may have a plus sign, and one that exceeds 64 bits is refused |
| ParsedLines.LoneBracketIsRefused | roslibrust_codegen/src/parse/mod.rs:278-280 | A type with one bracket but not the other is an error |
| ParsedLines.BoundedStringIsRead | roslibrust_codegen/src/parse/mod.rs:222-233 | A bounded string is a string that keeps its bound, whatever the number |
| ParsedLines.NamesAreRead | roslibrust_codegen/src/parse/mod.rs:175-217 | A name without package is intrinsic and has none, is the header of `std_msgs`, or belongs to the package of the file; a name with a package keeps it |
| ParsedLines.IntrinsicNames | roslibrust_codegen/src/parse/mod.rs:61-68 | The intrinsic types are the integers of four widths with and without sign, the floats of two widths and six other names, and in ROS2 wide strings |
| ParsedLines.FieldsAreRead | roslibrust_codegen/src/parse/mod.rs:77-173 | A field line declares its field; so it does with a comment behind it if and only if the field is not a string or the comment has no equal sign |
| ParsedLines.DefaultIsCut | roslibrust_codegen/src/parse/mod.rs:127-140 | What follows the name of a field, such as a default value, is no part of the name |
| ParsedLines.ConstantsAreRead | roslibrust_codegen/src/parse/mod.rs:100-173 | A constant line declares its constant, whatever the blanks around the equal sign; the comment sign belongs to the value of a string and starts a comment after any other value |
| ParsedLines.BusyLinesDecide | roslibrust_codegen/src/parse/msg.rs:74-79 | Empty lines and lines with only a comment do not matter |
| MessageParser.ParsedPackagesAreKnown | roslibrust_codegen/src/parse/mod.rs:238-282 | Every field of a parsed message that has no package has an intrinsic type, so the hasher's demand for a package never fails |
| DefinitionMd5.CleanMsg | roslibrust_common/src/md5sum.rs:134-167 | The two loops of the cleaner compute the cleaned text whose properties are the next rows |
| Cleaning.LinesOfClean | roslibrust_common/src/md5sum.rs:134-167 | The lines of a cleaned text are the cleaned constants in their order, then the cleaned fields in their order; each is single-spaced and has no comment and no blanks around an equal sign |
| Cleaning.CleanIdempotent | roslibrust_common/src/md5sum.rs:134-167 | Cleaning a cleaned text changes nothing |
| Cleaning.CleanOfTrimmed | roslibrust_common/src/md5sum.rs:134-167 | Whitespace around the text, and whether its last line is ended, do not matter to cleaning |
| DefinitionMd5.HashWithCache | roslibrust_common/src/md5sum.rs:63-126 | The recursion with its cache returns the hash of the recursion without one, every entry it leaves in the cache is the hash of its type, and no entry is lost or changed |
| DefinitionMd5.HashLineWithCache | roslibrust_common/src/md5sum.rs:79-115 | The same for one line, whether its type is base, cached or hashed now |
| DefinitionMd5.FromMessageDefinition | roslibrust_common/src/md5sum.rs:9-58 | Cutting the text into sections and hashing the root gives the cache-free hash, or the error of the first bad section, for every text whose root does not reach a section that refers to itself |
| Md5Conditions.HeaderNeedsItsBlank | roslibrust_common/src/md5sum.rs:28-50 | A section starts with `MSG: `; without the blank it is refused as it stands |
| Md5Conditions.LastSectionCounts | roslibrust_common/src/md5sum.rs:15-50 | Of several sections of one type the last one counts |
| Md5Conditions.BaseTypesAreIntrinsic | roslibrust_common/src/md5sum.rs:68-74 | The base types of the text hasher are the intrinsic types of ROS1 without `char` |
| Md5Conditions.CharIsNoBaseType | roslibrust_common/src/md5sum.rs:79-114 | The text hasher takes `char` for a message of the package, though the parser counts it as intrinsic |
| Md5Conditions.TypeInNameIsReplaced | roslibrust_common/src/md5sum.rs:104-115 | The sum of a type replaces the type wherever it occurs in the line, in the name of the field as well |
| CanonicalLines.LineAgrees | roslibrust_codegen/src/parse/mod.rs:77-173 | The parser and the cleaner read a canonical line in the same way: as blank, as the same constant, or as a declaration of the same field |
| HashAgreement.TypeAgrees | roslibrust_codegen/src/parse/mod.rs:238-282 | A canonical type parses to its base and array form, and an intrinsic type is printed back as it was written |
| HashAgreement.FieldLineAgrees | roslibrust_common/src/md5sum.rs:79-114 | On a field line the text hasher looks up exactly the type that the structure hasher looks up, or keeps exactly the line that it prints |
| HashAgreement.HashAgrees | roslibrust_codegen/src/lib.rs:154-197 | On the cleaned sources of a closed set of canonical messages, the text recursion gives the md5 sum of the structure |
| HashAgreement.TranscribedIsAcyclic | roslibrust_common/src/md5sum.rs:79-114 | The sections of an acyclic graph do not refer to themselves, so the text recursion ends |
| PrintedDefinition.DefinitionParts | roslibrust_codegen/src/lib.rs:222-245 | A definition prints the source of the message and a section for exactly the types it refers to, repeated as often as they are nested |
| PrintedDefinition.NestedParts | roslibrust_codegen/src/lib.rs:241-245 | Trimming a nested definition turns a blank last section into its bare header and changes nothing else |
| PrintedDefinition.SplitAtSeparator | roslibrust_common/src/md5sum.rs:15-17 | Text printed around a separator line is cut at that line, whatever precedes it |
| PrintedDefinition.ReadDefinition | roslibrust_common/src/md5sum.rs:15-50 | Reading a printed definition gives the cleaned source of every referenced type, except when the text ends in a bare header |
| PrintedDefinition.PrintedTextHashesLikeStructure | roslibrust_common/src/md5sum.rs:9-58 | For every canonical entry of a consistent graph, hashing the printed definition gives the md5 sum of the structure if and only if the message declares something and the text does not end in a bare header; otherwise it fails with the stated error |
| BareHeaderExample.CanonicalTextMayFailToHash | roslibrust_common/src/md5sum.rs:46-48 | In a concrete graph of three canonical messages the printed definition of one hashes like its structure and that of another cannot be hashed for want of a body |
| BareHeaderExample.HashesCanBeWords | roslibrust_codegen/src/lib.rs:154-166 | The assumption that md5 sums are single words can be met |
| Ros2Hashing.ConvertToTypeDescription | roslibrust_codegen/src/ros2_hashing.rs:267-369 | Whatever valid caches the nodes hold, the result is the description computed without caches; the caches stay valid and filled ones do not change |
| Ros2Hashing.SubDescription | roslibrust_codegen/src/ros2_hashing.rs:329-347 | A remembered description and a computed one are the same |
| Ros2Hashing.DescribeStable | roslibrust_codegen/src/ros2_hashing.rs:82-89 | A description does not change when the graph gains fresh keys |
| Ros2Hashing.CachesStayValid | roslibrust_codegen/src/ros2_hashing.rs:338-347 | What the nodes remember stays right in a graph with more nodes |
| Ros2Services.DescribeService | roslibrust_codegen/src/ros2_hashing.rs:91-253 | A service is described on a copy of the graph with three fresh entries exactly as without caches. The description is named after the service and has exactly the fields `request_message`, `response_message` and `event_message`, with the nested names of the folder `srv`; with plain names, the referenced list has the descriptions of the request, the response and the event with their own fields, and if the service lies in `srv`, each nested name is the name of a listed description |
| Ros2Services.ServiceListsParts | roslibrust_codegen/src/ros2_hashing.rs:110-247 | The list has the description of the request with all its fields, that of the response, and that of the event: an info, at most one request and at most one response |
| Ros2Services.PartsMatchNames | roslibrust_codegen/src/ros2_hashing.rs:159-201 | Each nested name of the service is the name of one of these descriptions if they lie in the folder `srv` |
| Ros2Services.ServiceLibraryAcyclic | roslibrust_codegen/src/ros2_hashing.rs:203-247 | The copy with the event, request and response entries is closed and acyclic |
| Ros2Services.CopyGraph | roslibrust_codegen/src/ros2_hashing.rs:203 | The copy has new nodes that remember the same |
| Ros2Hashing.HashedGraph.Resolve | roslibrust_codegen/src/lib.rs:766-771 | In any order of hashing and adding, the description taken when a message is added is its description on the grown graph as well, and all caches stay valid |
| Ros2Hashing.HashedGraph.DescribeMessage | roslibrust_codegen/src/ros2_hashing.rs:82-89 | Hashing a message at any time gives its cache-free description and keeps all caches valid |
| Ros2References.ReferencesAreReachableTypes | roslibrust_codegen/src/ros2_hashing.rs:274-360 | The referenced list is strictly sorted by name and consists of exactly the descriptions of the types that the message reaches |
| Ros2References.OwnListsFields | roslibrust_codegen/src/ros2_hashing.rs:276-327 | A description lists every field in order with its number, its nested type, and an array size and a string bound that are right exactly when 32 bits hold them; an empty message gets the placeholder `structure_needs_at_least_one_member` with the number 3 |
| Ros2References.NestedNameMatches | roslibrust_codegen/src/ros2_hashing.rs:290-307 | The nested name of a field is the name of the referenced type if and only if that type lies in the folder that the naming rule assumes: `srv` for names that end in `_Request`, `_Response` or `_Event` inside services, `msg` otherwise |
| Ros2References.PlainNamesAreDistinct | roslibrust_codegen/src/parse/msg.rs:40-51 | Names without slashes give different entries different ROS2 names |
| Ros1Publishers.Node.RegisterPublisher | roslibrust_ros1/src/node/actor.rs:422-486 | A taken topic is shared if and only if the type is the filed one and the publication has a live publisher; a free one is filed if and only if the socket can be bound, and registered if and only if the master answers too. Every other case has its own error. A success gives exactly one more publisher of the publication filed under the topic |
| Ros1Publishers.Node.UnregisterPublisher | roslibrust_ros1/src/node/actor.rs:488-504 | The cleanup always finds the publication it was started for, removes it and nothing else whatever the master answers, and fails only if the master does |
| Ros1Publishers.StepKeepsInvariant | roslibrust_ros1/src/publisher.rs:357-366 | Every step, with the arrival and the answer of a peer and the panic of an accept task, keeps the tie between live publishers, accept tasks, pending cleanups and the map |
| Ros1Publishers.CleanupRemovesItsOwn | roslibrust_ros1/src/node/actor.rs:55-73 | In every run, a cleanup task removes exactly the publication whose publishers all died, never a newer one of the topic, and nothing else |
| Ros1Publishers.OneCleanupPerTopic | roslibrust_ros1/src/node/actor.rs:55-73 | At any time at most one cleanup is pending for a topic |
| Ros1Publishers.LivePublisherIsFiled | roslibrust_ros1/src/publisher.rs:272-279 | The topic of a live publisher is in the map with that publisher's own publication, which all live publishers of the topic share; it can take a connection if and only if its accept task has neither panicked nor is busy with a peer |
| Ros1Publishers.LivePublicationIsShared | roslibrust_ros1/src/node/actor.rs:432-464 | In every run, a registration of the topic of a live publisher gives its publication one more publisher if it asks for the filed type, and changes nothing otherwise |
| Ros1Publishers.DeadStaysDead | roslibrust_ros1/src/node/actor.rs:445-464 | A publication whose publishers all died never gets a publisher again |
| Ros1Publishers.ForgottenIffDeaf | roslibrust_ros1/src/publisher.rs:357-404 | The end of a publication without publishers cannot be noticed, nor is its cleanup pending, if and only if its accept task has panicked or is busy with a peer |
| Ros1Publishers.QuietNodeHasNoDeadPublication | roslibrust_ros1/src/publisher.rs:357-366 | When no notice can be given and no cleanup is pending, every publication has a live publisher, unless its accept task has panicked or is busy with a peer |
| Ros1Publishers.RefusedUntilCleanedUp | roslibrust_ros1/src/node/actor.rs:445-456 | A registration is refused as already shut down exactly while the end of the old publication can be noticed or its cleanup is pending, or when its last publisher is gone and its accept task has panicked or is busy with a peer |
| Ros1Publishers.TopicStaysRefused | roslibrust_ros1/src/publisher.rs:404-453 | Once the last publisher is gone while the accept task has panicked or is busy, the publication stays in the map and no registration of its topic succeeds, in every later state until that peer is answered, and in every later state after a panic |
| Ros1Publishers.AnsweredPeerFreesTopic | roslibrust_ros1/src/publisher.rs:357-404 | Once the peer is answered, the notice can be given, the cleanup can run, and then the topic is free |
| Ros1Publishers.TopicCanBeStranded | roslibrust_ros1/src/publisher.rs:450-453 | A run of four steps, with a peer that breaks the connection off, after which nothing can free the topic |
| Ros1Publishers.SilentPeerStrandsTopic | roslibrust_ros1/src/publisher.rs:404 | A run of three steps, with a peer that connects and stays silent, after which the end cannot be noticed |
| Ros1Subscribers.Node.RegisterSubscriber | roslibrust_ros1/src/node/actor.rs:390-420 | Subscribing shares the subscription of the topic, or files a new one after the master has answered; the new subscriber is one of the subscription in the map |
| Ros1Subscribers.Node.DropReceiver | roslibrust_ros1/src/subscriber.rs:111-122 | After the first half of a drop, the subscription in the map counts one subscriber less, none exactly when this was the last one, and no other subscription counts differently; the topic has its cleanup still to come |
| Ros1Subscribers.Node.TryUnregisterSubscriber | roslibrust_ros1/src/node/actor.rs:101-119 | After the second half of a drop the cleanup of the topic can run, and the invariant holds |
| Ros1Subscribers.Node.UnregisterSubscriber | roslibrust_ros1/src/node/actor.rs:510-529 | The cleanup, which looks at receivers only, removes the subscription exactly when no live subscriber of the topic is left |
| Ros1Subscribers.StepKeepsInvariant | roslibrust_ros1/src/subscriber.rs:198-208 | Every step keeps receivers counted, live subscribers filed and unused subscriptions remembered by a pending task |
| Ros1Subscribers.LiveSubscriberIsFiled | roslibrust_ros1/src/node/actor.rs:398-418 | A live subscriber's subscription is the one in the map |
| Ros1Subscribers.SubscribedIffLive | roslibrust_ros1/src/subscriber.rs:107-130 | When no drop is half done and no cleanup is pending for a topic, it has a subscription if and only if it has a live subscriber |
| Ros1Subscribers.CleanupRemovesIffUnused | roslibrust_ros1/src/node/actor.rs:510-519 | A cleanup removes the subscription exactly when nobody is subscribed, and touches no other topic |
| Ros1Subscribers.ReleaseMustComeFirst | roslibrust_ros1/src/subscriber.rs:107-122 | With the two halves of a drop in the other order, a subscription can stay behind with nobody subscribed and nothing pending |
| RosbridgeCalls.Client.BeginCall | roslibrust_rosbridge/src/client.rs:346 | A call starts if and only if the flag is not set, and is in no table yet |
| RosbridgeCalls.Client.CheckAgain | roslibrust_rosbridge/src/client.rs:352-354 | Under the lock for reading the flag is looked at again; a call that finds it set ends, gives the lock back and never was in the table |
| RosbridgeCalls.Client.TrackCall | roslibrust_rosbridge/src/client.rs:356-359 | A call that passed the second look enters the table under a new id, for the current connection, which cannot be replaced before the request is sent |
| RosbridgeCalls.Client.SendRequest | roslibrust_rosbridge/src/client.rs:360-371 | A request is sent on the connection its entry was made for; one that is not sent leaves the table again |
| RosbridgeCalls.Client.HandleResponse | roslibrust_rosbridge/src/client.rs:664-681 | A response takes its call out of the table; the call had none before, the response came on the connection of its request, and a call that waits can return it at once. No other call notices, and a response with an unknown id, or the same one again, changes nothing |
| RosbridgeCalls.Client.StopTracking | roslibrust_rosbridge/src/client.rs:377-386 | A call that timed out leaves the table alone, and whatever response comes for it later changes nothing |
| RosbridgeCalls.Client.DropPendingCalls | roslibrust_rosbridge/src/client.rs:832-836 | Right after the flag is set the table is emptied, and every waiting call can finish without the reconnection |
| RosbridgeCalls.Client.BeginReconnect | roslibrust_rosbridge/src/client.rs:780-783 | When the lock for writing is held, the table is empty and every waiting call can finish |
| RosbridgeCalls.Client.ReplaceConnection | roslibrust_rosbridge/src/client.rs:785-788 | When the connection is replaced, no call of the old one is in the table |
| RosbridgeCalls.StepKeepsInvariant | roslibrust_rosbridge/src/client.rs:341-401 | Every step of callers, responses, timeouts, cancellations and the spin task keeps the invariant below, with the second look at the flag and the entry in the table as separate steps |
| RosbridgeCalls.NoWaiterOfAnEarlierConnection | roslibrust_rosbridge/src/client.rs:780-788 | In every state of every run, each call in the table belongs to the current connection; a waiter of an earlier one is not in it and can finish at once |
| RosbridgeCalls.SecondClearIsNeeded | roslibrust_rosbridge/src/client.rs:781-783 | Without the second clearing, exactly the calls that are in the table when the lock is taken would stay there for a connection that is gone, and those of them that wait could not finish |
| RosbridgeCalls.RaceRefillsTable | roslibrust_rosbridge/src/client.rs:834-837 | A call that looked at the flag before it was set and is entered after the first clearing is in the table then |
| RosbridgeCalls.OutcomeIsFinal | roslibrust_rosbridge/src/client.rs:377-401 | A call is resolved at most once |
| RosbridgeCalls.OutcomeHasItsCause | roslibrust_rosbridge/src/client.rs:346-401 | Every outcome has its own cause earlier in the run: a response that was there when the call woke, a send that failed, a wait that was given up while no response was there, a clearing of the table that took the entry, a flag that was seen at the second look, or the cancellation of the caller |
| RosbridgeCalls.EndedCallsLeaveTheTable | roslibrust_rosbridge/src/client.rs:366-386 | A call that has ended is no longer in the table, unless its caller was cancelled |
| RosbridgeCalls.AbandonedEntryStays | roslibrust_rosbridge/src/client.rs:356-386 | The entry of a cancelled call goes exactly with its response or with the next clearing |
| RosbridgeCalls.FirstClearFreesWaiters | roslibrust_rosbridge/src/client.rs:832-836 | In every run, the table is empty after the first clearing and every waiting call can finish |
| RosbridgeCalls.ResolvedByItsOwnResponse | roslibrust_rosbridge/src/client.rs:664-681 | A call that returns a response got it from exactly one response message, which carried its id and arrived while the call was in the table |
| RosbridgeCalls.DeliveredOnItsConnection | roslibrust_rosbridge/src/client.rs:832-844 | A response that a waiting call can pick up arrived on the connection of its request |
| RosbridgeSubscriptions.Client.BeginSubscribe | roslibrust_rosbridge/src/client.rs:241-251 | A subscription starts if and only if the flag is not set |
| RosbridgeSubscriptions.Client.FinishSubscribe | roslibrust_rosbridge/src/client.rs:137-197 | A subscriber enters the table only after its message was sent, which is then the last one for its topic; a failure leaves the table as it was, and the entry is free again in both cases |
| RosbridgeSubscriptions.Client.BeginUnsubscribe | roslibrust_rosbridge/src/client.rs:541-556 | A dropped subscriber is always found and leaves the table, and only the last one of its topic goes on to unsubscribe |
| RosbridgeSubscriptions.Client.FinishUnsubscribe | roslibrust_rosbridge/src/client.rs:556-566 | A message that goes out is `unsubscribe` and is then the last one of the topic, which has no subscribers; one that does not go out changes no message; the entry is free again in both cases |
| RosbridgeSubscriptions.Client.RestoreSubscriptions | roslibrust_rosbridge/src/client.rs:800-813 | After reconnecting, every topic of the table is subscribed to again, or the attempt fails at the topic that could not be sent |
| RosbridgeSubscriptions.StepKeepsInvariant | roslibrust_rosbridge/src/client.rs:121-198 | Every step keeps the table, the locks and the last messages in agreement |
| RosbridgeSubscriptions.LiveTopicIsSubscribed | roslibrust_rosbridge/src/client.rs:533-569 | Whenever the client is not marked disconnected and a topic has a live subscriber, the last message for it on the current connection was "subscribe", through any subscribes, drops, failures and reconnections |
| RosbridgeSubscriptions.DroppedSubscriberIsFound | roslibrust_rosbridge/src/client.rs:543-556 | In every run, the unsubscribe task finds its subscriber in the table, and goes on to unsubscribe if and only if no other one of the topic is registered |
| RosbridgeSubscriptions.UnusedTopicIsAskedForIff | roslibrust_rosbridge/src/client.rs:556-566 | On an established connection, the last message of a topic that nobody is registered for, and that nobody is about to unsubscribe from, is `subscribe` if and only if it was left behind and not settled since: by a subscription that failed although its message went out, by an `unsubscribe` that did not go out, or by a reconnection that renewed an empty entry |
| Bytes.LittleEndianRoundTrip | roslibrust_ros1/src/tcpros.rs:179-182 | A length read back from its four bytes is the length modulo 2^32 |
| Bytes.LeastByteFirst | roslibrust_ros1/src/tcpros.rs:179-182 | The four bytes of a length, written out, the least one first |
| Bytes.Utf8IsEncoded | roslibrust_ros1/src/tcpros.rs:51-54 | Every accepted field text is the encoding of a sequence of Unicode scalar values |
| Bytes.EncodedIsUtf8 | roslibrust_ros1/src/tcpros.rs:51-54 | Every such encoding is accepted |
| Tcpros.FromBytes | roslibrust_ros1/src/tcpros.rs:33-122 | The cursor loop computes the header whose properties are the next rows, or the error of the first bad field |
| Tcpros.ToBytes | roslibrust_ros1/src/tcpros.rs:127-185 | Appending the fields and patching the length gives the fields in order, each with its length, with the length of all of them in front |
| TcprosHeaders.HeaderRoundTrip | roslibrust_ros1/src/tcpros.rs:33-185 | Printing and parsing gives the header back, with `tcp_nodelay` false in the form for anything but publishers, for all headers whose length fits 32 bits |
| TcprosHeaders.FieldIsStored | roslibrust_ros1/src/tcpros.rs:55-88 | A field with a known name is matched by its own branch only and sets its own slot only |
| TcprosHeaders.TextNames | roslibrust_ros1/src/tcpros.rs:59-81 | Each text field, by the letters of its name, sets its own entry of the header |
| TcprosHeaders.FlagNames | roslibrust_ros1/src/tcpros.rs:63-88 | Each flag, by the letters of its name, is false only as `0` |
| TcprosHeaders.WrittenFlags | roslibrust_ros1/src/tcpros.rs:136-176 | Flags are written as `1` and `0` |
| TcprosHeaders.AbsentFieldIsUnset | roslibrust_ros1/src/tcpros.rs:36-44 | A field that is not there leaves its entry empty or not set |
| TcprosHeaders.ForeignBytesAreRefused | roslibrust_ros1/src/tcpros.rs:51-54 | After any good fields, a field that is not UTF-8 is refused as invalid data |
| TcprosHeaders.CutFieldIsRefused | roslibrust_ros1/src/tcpros.rs:47-50 | After any good fields, a field that is cut short anywhere ends the input too early |
| TcprosHeaders.IgnoredFieldIsIgnored | roslibrust_ros1/src/tcpros.rs:55-103 | Inserting a field that fills no slot between any fields and any bytes does not change the parse, whether that is a header or an error |
| TcprosHeaders.UnassignedNameIsIgnored | roslibrust_ros1/src/tcpros.rs:89-103 | A field whose name is none of the nine assigned names fills no slot |
| TcprosHeaders.IgnoredNamesAreUnassigned | roslibrust_ros1/src/tcpros.rs:89-99 | The names that the parser recognises and ignores are such names |
| TcprosHeaders.FieldOrderDoesNotMatter | roslibrust_ros1/src/tcpros.rs:47-104 | Fields that fill different slots can come in any order |
| TcprosFraming.TcpStream.ReadExact | roslibrust_ros1/src/tcpros.rs:334-341 | However the bytes are chunked, exactly the wanted ones are taken, or the end is reported |
| TcprosFraming.ReceiveBodyWithCapacityHint | roslibrust_ros1/src/tcpros.rs:364-399 | For any chunking and any hint, exactly the next message is taken from the stream, or the unexpected end is reported |
| TcprosFraming.ReceiveHeader | roslibrust_ros1/src/tcpros.rs:330-349 | Exactly the header is taken from the stream, and parsed |
| TcprosFraming.FrameMessage | roslibrust_ros1/src/publisher.rs:70-83 | Patching the size over four zero bytes gives the body with its length in front |
| TcprosFraming.ReadMessages | roslibrust_ros1/src/subscriber.rs:381-416 | The reader's loop, with its growing hint, returns the complete messages of the stream in order |
| TcprosFraming.FramesOfBodies | roslibrust_ros1/src/tcpros.rs:364-399 | The complete messages of a stream of framed messages are those messages, whatever incomplete rest follows |
| TcprosFraming.Receive | roslibrust_ros1/src/tcpros.rs:330-399 | A header and messages printed by one side are what the other side reads |
| ZenohKeys.KeyRoundTrip | roslibrust_zenoh/src/lib.rs:428-456 | A key gives back the class, name, type and md5 sum it was made from if and only if the md5 sum has no slash and the name has one leading slash and no trailing one |
| ZenohKeys.ParseOfKey | roslibrust_zenoh/src/lib.rs:437-452 | What a key gives back for any name and md5 sum: the class, the type, the md5 sum up to its first slash, and the trimmed name; if the md5 sum has slashes, what follows its second slash and the namespace part come in front of the name |
| ZenohKeys.HexRoundTrip | roslibrust_zenoh/src/lib.rs:454-456 | Decoding the hexadecimal form of a type name gives its bytes back, and the form has no slash |
| ZenohKeys.WhatIsHex | roslibrust_zenoh/src/lib.rs:454-456 | A text is decoded if and only if it has an even number of characters and all are hexadecimal digits |
| ZenohKeys.HexDigitsAreWritten | roslibrust_zenoh/src/lib.rs:432-433 | The digits that are written, and those that are read in either case |
| ZenohKeys.KeyFormat | roslibrust_zenoh/src/lib.rs:428-434 | The key of a name without slashes around it, with its literal parts |
| ZenohKeys.WhatIsAKey | roslibrust_zenoh/src/lib.rs:437-452 | A text of at least seven parts is a key if and only if the first is the root, the third names a class and the fourth is hexadecimal UTF-8; it then says the parts, and the rest is the name. A text of six parts is none |
| ZenohKeys.ValidNameRoundTrip | roslibrust_common/src/topic_name.rs:103-148 | Every valid global name survives being made into a key |
| ZenohMonitor.DiscoveryMonitor.HandleSample | roslibrust_zenoh/src/lib.rs:176-181 | After an announcement its key is known if and only if it is a discovery key, as seen now and with what the key says; all other keys stay as they were, and both tables keep the same keys |
| ZenohMonitor.DiscoveryMonitor.HandleTick | roslibrust_zenoh/src/lib.rs:183-199 | The loop over the collected keys forgets exactly the keys that are overdue, in both tables, and changes nothing else |
| ZenohMonitor.KnownExactlyWhenKeptAlive | roslibrust_zenoh/src/lib.rs:164-203 | After any events both tables have the same keys, and a key is in them if and only if it can be read, was announced, and no tick came more than three seconds after its last announcement |
| ZenohMonitor.RefreshedKeyStays | roslibrust_zenoh/src/lib.rs:183-199 | A key that was announced at most 3000 milliseconds before every tick since its first announcement is known |
| ZenohMonitor.SilentKeyIsGone | roslibrust_zenoh/src/lib.rs:183-199 | A silent key is gone after a tick more than 3000 milliseconds after its last announcement |
| ZenohMonitor.ListTypes | roslibrust_zenoh/src/lib.rs:386-426 | Listing succeeds if and only if no name is known with two types, and then gives each name its type; otherwise it names an existing conflict |
| ZenohMonitor.InsertDiscoveredType | roslibrust_zenoh/src/lib.rs:458-474 | A name and its type are entered if and only if the name does not get two types by that; the table then holds this pair and those it held, and otherwise the error names the filed type and the other one |
| TransformWait.TransformManager.AddTransforms | roslibrust_transforms/src/lib.rs:292-301 | The transforms of a message enter the registry in order, before the notification, which is owed from then on |
| TransformWait.TransformManager.SendNotification | roslibrust_transforms/src/lib.rs:302-304 | Once the notification is sent, every blocked waiter can read it |
| TransformWait.TransformManager.TryGetTransform | roslibrust_transforms/src/lib.rs:445-474 | One look at the registry: the answer exactly if the lookup gives one, and otherwise another wait, or the timeout if the deadline has passed |
| TransformWait.BlockedWaiterMissesNothing | roslibrust_transforms/src/lib.rs:440-482 | A blocked waiter with nothing to read, while nobody owes a notification, would not find its transform in the registry as it is now |
| TransformWait.ChangeWakesWaiter | roslibrust_transforms/src/lib.rs:511-518 | If the registry changed since the last failed lookup of a blocked waiter, it has a notification to read or the adder has not sent it yet |
| TransformWait.NotificationReachesWaiter | roslibrust_transforms/src/lib.rs:476-482 | A notification sent while a waiter is blocked can be read by it, however far it lags behind |
| TransformWait.TimeoutAfterFailedLookup | roslibrust_transforms/src/lib.rs:452-475 | A timeout is reported only at or after the deadline and only after a lookup that failed |
| TransformWait.LastLookDecides | roslibrust_transforms/src/lib.rs:464-475 | A waiter that its deadline wakes looks once more, at or after the deadline, before it has an outcome, and that look decides the outcome |
| TransformWait.DeadlineIsKept | roslibrust_transforms/src/lib.rs:452-460 | A waiter whose lookup failed goes to sleep exactly if its deadline lies ahead; otherwise its wait ends there |
| TransformWait.ReadingTakesOne | roslibrust_transforms/src/lib.rs:476-482 | A waiter that reads takes one notification, or skips to the oldest of the sixteen that are kept, and looks again |
| TransformWait.FoundByLookup | roslibrust_transforms/src/lib.rs:445-449 | In every run, a transform that is reported was given by a lookup of this waiter at some step, on the registry of that step and for the query of the wait, and has been reported ever since |
| TransformWait.FoundStays | roslibrust_transforms/src/lib.rs:445-449 | Conversely a lookup that gives a transform ends the wait with it in every later state |
| TransformWait.SubscribeMustComeFirst | roslibrust_transforms/src/lib.rs:440-450 | With the receiver created after the first lookup, a waiter could stay blocked although its transform is there |

## Left out

- Code generation: Rust and C++ output, default values of ROS2 fields, action files, package files and the search for message files.
- ServiceFile: the md5 sum and the sorting of resolved services are not modelled; the ROS2 description of a service is.
- ResolveMessage: the ROS2 hash that the source computes in the same function is modelled apart, in `Ros2Hashing.HashedGraph`.
- ResolveMessages: requires distinct names that differ from the seed and are not those of primitive types; `DuplicateNameClosesCycle` says what else can happen. Log messages and the order of the reported types are not modelled.
- ParseRosMessageFile: default values of ROS2 fields are not kept, because neither md5 sums nor type hashes use them; a closing bracket before an opening one makes the source panic; here it is an error.
- FromMessageDefinition: on a definition whose root reaches a section that refers to itself the source does not end, unless a bad line comes first; such input is excluded. A header line without a type name makes the source panic; here it is an error.
- DescribeService: requires that the three added types are new, because with a name that is taken the caches of other nodes would describe the old type, and that `service_msgs/ServiceEventInfo` is present, as it is in every resolved graph; a description that fails makes the source panic and is `None` here.
- BuiltinsAreConsistent: the parsed forms of the three built-in messages are written out; `BuiltinTexts` derives them from the lines of their texts, without the wording of the comments.
- ReadMessages: the loop ends with the stream; its ends by cancellation and by a closed channel, which only cut the list of messages short, are not modelled.
- Field type numbers, the JSON form, SHA-256 and MD5 are parameters.
- RegisterPublisher: the sockets, the accepted connections and latched messages of a publication are not modelled, except that an accept task can panic at any time; a node that has been dropped and a missing runtime, where the cleanup is skipped, are not modelled.
- RegisterSubscriber: the connections to publishers and their retries are not modelled; a subscriber that is dropped outside a runtime, or after its node, starts no cleanup, which is not modelled; what the master knows is not modelled.
- RosbridgeCalls: the disconnect flag is read and written in one order for all tasks; emptying the table is one step; the fairness of the locks is not modelled, so nothing is said about when a task gets a lock.
- RosbridgeSubscriptions: publishers and service servers of a client are not modelled.
- ReceiveBodyWithCapacityHint: read errors other than the end of the stream are not modelled.
- HandleSample: the two tables are updated in one step, while the source waits for a lock in between; the beacons that announce keys are not modelled.
- AddTransforms: the registry is the sequence of added transforms and a lookup is any function of it; that a registry forgets old transforms, and the interpolation, are not modelled. The channel cannot close while a waiter holds the manager.
- Service servers of a ROS1 node, the mock backend, the transport of websockets, HTTP and XML-RPC, and name resolution.
