// The ROS2 description of a service (`calculate_ros2_srv_hash` in
// roslibrust_codegen/src/ros2_hashing.rs): a message made up of the request, the response and an
// event, which are added to a copy of the graph for the occasion.
module Ros2Services {
  import opened Wrappers
  import opened Messages
  import opened Libraries
  import opened StringOrder
  import opened GraphProperties
  import opened Ros2Hashing
  import opened Ros2References

  /******* the three parts of a service *******/

  datatype ParsedService = ParsedService(
    name: string,
    package: string,
    requestType: ParsedMessage,
    responseType: ParsedMessage,
    directory: string)

  function ServiceName(s: ParsedService): string { s.package + "/" + s.name }

  function ServiceField(name: string, package: string, typeName: string, arrayInfo: ArrayType): FieldInfo {
    FieldInfo(FieldType(Some(package), package, typeName, arrayInfo, None), name)
  }

  function ServiceMessage(s: ParsedService, name: string, fields: seq<FieldInfo>): ParsedMessage {
    ParsedMessage(name, s.package, fields, [], Some(Ros2), "", s.directory)
  }

  // The third type that ROS2 adds to every service.
  function EventMessage(s: ParsedService): ParsedMessage {
    ServiceMessage(s, s.name + "_Event", [
      ServiceField("info", "service_msgs", "ServiceEventInfo", NotArray),
      ServiceField("request", s.package, s.name + "_Request", Bounded(1)),
      ServiceField("response", s.package, s.name + "_Response", Bounded(1))])
  }

  function TotalMessage(s: ParsedService): ParsedMessage {
    ServiceMessage(s, s.name, [
      ServiceField("request_message", s.package, s.name + "_Request", NotArray),
      ServiceField("response_message", s.package, s.name + "_Response", NotArray),
      ServiceField("event_message", s.package, s.name + "_Event", NotArray)])
  }

  function RequestMessage(s: ParsedService): ParsedMessage { s.requestType.(name := s.name + "_Request") }

  function ResponseMessage(s: ParsedService): ParsedMessage { s.responseType.(name := s.name + "_Response") }

  function ServiceLibrary(s: ParsedService, lib: Library): Library {
    lib[ServiceName(s) + "_Event" := EventMessage(s)]
       [ServiceName(s) + "_Request" := RequestMessage(s)]
       [ServiceName(s) + "_Response" := ResponseMessage(s)]
  }

  const EVENT_INFO: string := "service_msgs/ServiceEventInfo"

  // The three added types are new, and what the service refers to is there.
  predicate ServiceFits(s: ParsedService, lib: Library) {
    && ServiceName(s) + "_Event" !in lib && ServiceName(s) + "_Request" !in lib && ServiceName(s) + "_Response" !in lib
    && s.requestType.package == s.package && s.responseType.package == s.package
    && Ready(s.requestType.fields, lib.Keys) && Ready(s.responseType.fields, lib.Keys) && EVENT_INFO in lib
  }

  lemma PrimitiveHasNoUnderscore(t: string)
    requires IsPrimitive(t)
    ensures '_' !in t
  {
  }

  lemma SuffixWithinName(name: string, suffix: string, prefix: string, t: string)
    requires suffix != "" && suffix[0] == '_' && '/' !in suffix && name + suffix == prefix + "/" + t
    ensures '_' in t
  {
    var s := name + suffix;
    assert forall i | |name| <= i < |s| :: s[i] == suffix[i - |name|] && s[i] != '/';
    assert s[|prefix|] == '/';
    assert t[|name| - |prefix| - 1] == s[|name|];
  }

  lemma SuffixIsNotPrimitive(name: string, suffix: string)
    requires suffix != "" && suffix[0] == '_' && '/' !in suffix
    ensures !NamedAfterPrimitive(name + suffix)
  {
    hide IsPrimitive;
    if NamedAfterPrimitive(name + suffix) {
      var prefix, t :| IsPrimitive(t) && name + suffix == prefix + "/" + t;
      PrimitiveHasNoUnderscore(t);
      SuffixWithinName(name, suffix, prefix, t);
    }
  }

  lemma NameWithSuffix(package: string, name: string, suffix: string)
    ensures package + "/" + (name + suffix) == package + "/" + name + suffix
  {
  }

  lemma SuffixesDiffer(name: string)
    ensures name + "_Event" != name + "_Request" && name + "_Event" != name + "_Response"
    ensures name + "_Request" != name + "_Response"
  {
    assert |"_Event"| == 6 && |"_Request"| == 8 && |"_Response"| == 9;
  }

  lemma ServiceFieldName(name: string, package: string, typeName: string, arrayInfo: ArrayType)
    ensures FullTypeName(ServiceField(name, package, typeName, arrayInfo)) == package + "/" + typeName
  {
  }

  lemma EventReferences(s: ParsedService, keys: set<string>)
    requires EVENT_INFO in keys && ServiceName(s) + "_Request" in keys && ServiceName(s) + "_Response" in keys
    ensures Ready(EventMessage(s).fields, keys)
  {
    hide ServiceField, FullTypeName, IsPrimitive;
    NameWithSuffix(s.package, s.name, "_Request");
    NameWithSuffix(s.package, s.name, "_Response");
    assert EVENT_INFO == "service_msgs" + "/" + "ServiceEventInfo";
    ServiceFieldName("info", "service_msgs", "ServiceEventInfo", NotArray);
    ServiceFieldName("request", s.package, s.name + "_Request", Bounded(1));
    ServiceFieldName("response", s.package, s.name + "_Response", Bounded(1));
  }

  lemma ServiceLibraryAcyclic(s: ParsedService, lib: Library)
    requires Acyclic(lib) && Closed(lib) && ServiceFits(s, lib)
    ensures Acyclic(ServiceLibrary(s, lib)) && Closed(ServiceLibrary(s, lib))
    ensures Extends(lib, ServiceLibrary(s, lib))
  {
    hide Acyclic, Closed, NamedAfterPrimitive, ServiceName, FullTypeName, IsPrimitive, EventMessage;
    var name := ServiceName(s);
    SuffixesDiffer(name);
    SuffixIsNotPrimitive(name, "_Event");
    SuffixIsNotPrimitive(name, "_Request");
    SuffixIsNotPrimitive(name, "_Response");
    var lib1 := lib[name + "_Request" := RequestMessage(s)];
    InsertKeepsAcyclic(lib, name + "_Request", RequestMessage(s));
    var lib2 := lib1[name + "_Response" := ResponseMessage(s)];
    InsertKeepsAcyclic(lib1, name + "_Response", ResponseMessage(s));
    EventReferences(s, lib2.Keys);
    InsertKeepsAcyclic(lib2, name + "_Event", EventMessage(s));
    assert lib2[name + "_Event" := EventMessage(s)] == ServiceLibrary(s, lib);
  }

  // A deep copy: new nodes that remember the same.
  method CopyGraph(graph: NodeGraph) returns (copy: NodeGraph)
    ensures copy.Keys == graph.Keys
    ensures forall k <- graph.Keys ::
              fresh(copy[k]) && copy[k].parsed == graph[k].parsed && copy[k].cache == graph[k].cache
  {
    copy := map[];
    var keys := graph.Keys;
    while keys != {}
      invariant keys <= graph.Keys && copy.Keys == graph.Keys - keys
      invariant forall k <- copy.Keys ::
                  fresh(copy[k]) && copy[k].parsed == graph[k].parsed && copy[k].cache == graph[k].cache
      decreases |keys|
    {
      var k :| k in keys;
      var node := new GraphNode(graph[k].parsed, graph[k].cache);
      copy := copy[k := node];
      keys := keys - {k};
    }
  }

  lemma ServiceNodes(s: ParsedService, graph: NodeGraph, plain: NodeGraph, copy: NodeGraph)
    requires plain.Keys == graph.Keys && forall k <- graph.Keys :: plain[k].parsed == graph[k].parsed
    requires ServiceFits(s, ParsedOf(graph))
    requires copy.Keys
             == plain.Keys + {ServiceName(s) + "_Event", ServiceName(s) + "_Request", ServiceName(s) + "_Response"}
    requires forall k <- plain.Keys :: copy[k] == plain[k]
    requires copy[ServiceName(s) + "_Event"].parsed == EventMessage(s)
    requires copy[ServiceName(s) + "_Request"].parsed == RequestMessage(s)
    requires copy[ServiceName(s) + "_Response"].parsed == ResponseMessage(s)
    ensures ParsedOf(copy) == ServiceLibrary(s, ParsedOf(graph))
  {
    hide EventMessage, RequestMessage, ResponseMessage, ServiceName, Ready;
    SuffixesDiffer(ServiceName(s));
    assert ParsedOf(copy).Keys == ServiceLibrary(s, ParsedOf(graph)).Keys;
  }

  // The copy of the graph that a service is described on.
  method ServiceGraph(typeId: TypeIds, s: ParsedService, graph: NodeGraph) returns (copy: NodeGraph)
    requires Acyclic(ParsedOf(graph)) && Closed(ParsedOf(graph)) && CachesValid(typeId, graph)
    requires ServiceFits(s, ParsedOf(graph))
    ensures ParsedOf(copy) == ServiceLibrary(s, ParsedOf(graph)) && Acyclic(ParsedOf(copy))
    ensures CachesValid(typeId, copy)
    ensures forall k <- copy.Keys :: fresh(copy[k])
  {
    hide Acyclic, Closed, CachesValid, EventMessage, RequestMessage, ResponseMessage, ServiceName, Ready;
    ServiceLibraryAcyclic(s, ParsedOf(graph));
    var name := ServiceName(s);
    SuffixesDiffer(name);
    var plain := CopyGraph(graph);
    var event := new GraphNode(EventMessage(s), None);
    var request := new GraphNode(RequestMessage(s), None);
    var response := new GraphNode(ResponseMessage(s), None);
    copy := plain[name + "_Event" := event][name + "_Request" := request][name + "_Response" := response];
    ServiceNodes(s, graph, plain, copy);
    assert forall k <- graph.Keys :: k in copy && copy[k] == plain[k];
    hide ServiceLibrary, ServiceFits, ParsedOf;
    CachesStayValid(typeId, graph, copy);
  }

  /******* what the description of a service says *******/

  predicate FieldIs(typeId: TypeIds, f: Ros2Field, name: string, package: string, typeName: string, a: ArrayType,
                    capacity: nat, nestedTypeName: string)
  {
    && f.name == name && f.capacity == capacity && f.stringCapacity == 0 && f.nestedTypeName == nestedTypeName
    && typeId(FieldType(Some(package), package, typeName, a, None)) == Some(f.typeId)
  }

  // The service itself: its three parts, named as types of the folder "srv".
  predicate IsServiceDescription(typeId: TypeIds, s: ParsedService, d: TypeDescription) {
    && d.typeName == s.package + "/" + s.directory + "/" + s.name
    && |d.fields| == 3
    && FieldIs(typeId, d.fields[0], "request_message", s.package, s.name + "_Request", NotArray, 0,
               s.package + "/srv/" + s.name + "_Request")
    && FieldIs(typeId, d.fields[1], "response_message", s.package, s.name + "_Response", NotArray, 0,
               s.package + "/srv/" + s.name + "_Response")
    && FieldIs(typeId, d.fields[2], "event_message", s.package, s.name + "_Event", NotArray, 0,
               s.package + "/srv/" + s.name + "_Event")
  }

  // The event: what happened, and at most one request and one response.
  predicate IsEventDescription(typeId: TypeIds, s: ParsedService, d: TypeDescription) {
    && d.typeName == s.package + "/" + s.directory + "/" + s.name + "_Event"
    && |d.fields| == 3
    && FieldIs(typeId, d.fields[0], "info", "service_msgs", "ServiceEventInfo", NotArray, 0,
               "service_msgs/msg/ServiceEventInfo")
    && FieldIs(typeId, d.fields[1], "request", s.package, s.name + "_Request", Bounded(1), 1,
               s.package + "/srv/" + s.name + "_Request")
    && FieldIs(typeId, d.fields[2], "response", s.package, s.name + "_Response", Bounded(1), 1,
               s.package + "/srv/" + s.name + "_Response")
  }

  // One half of the service: the fields of its section under the name of the half.
  ghost predicate IsHalfDescription(typeId: TypeIds, half: ParsedMessage, name: string, d: TypeDescription) {
    d.typeName == half.package + "/" + half.directory + "/" + name && ListsFields(typeId, half.fields, d.fields)
  }

  lemma ServiceFieldIs(typeId: TypeIds, s: ParsedService, name: string, suffix: string, a: ArrayType)
    requires suffix in ["_Request", "_Response", "_Event"]
    ensures var f := ServiceField(name, s.package, s.name + suffix, a);
            && NestedTypeName(f, true) == s.package + "/srv/" + s.name + suffix
            && FullTypeName(f) == ServiceName(s) + suffix && !IsPrimitive(f.fieldType.fieldType)
  {
    var typeName := s.name + suffix;
    assert typeName[|typeName| - |suffix|..] == suffix;
    assert '_' in typeName by { assert typeName[|s.name|] == suffix[0]; }
    if IsPrimitive(typeName) { PrimitiveHasNoUnderscore(typeName); }
    assert s.package + "/srv/" + s.name + suffix == s.package + "/srv/" + typeName;
    NameWithSuffix(s.package, s.name, suffix);
  }

  lemma EventInfoIsNoPrimitive()
    ensures !IsPrimitive("ServiceEventInfo")
  {
  }

  lemma EventInfoHasNoSuffix()
    ensures !HasServiceSuffix("ServiceEventInfo")
  {
    var t := "ServiceEventInfo";
    assert |t| == 16 && t[15] == 'o';
    assert |"_Request"| == 8 && "_Request"[7] == 't';
    assert |"_Response"| == 9 && "_Response"[8] == 'e';
    assert |"_Event"| == 6 && "_Event"[5] == 't';
    assert t[8..][7] == 'o' && t[7..][8] == 'o' && t[10..][5] == 'o';
  }

  lemma EventInfoIs()
    ensures var f := ServiceField("info", "service_msgs", "ServiceEventInfo", NotArray);
            && NestedTypeName(f, true) == "service_msgs/msg/ServiceEventInfo" && FullTypeName(f) == EVENT_INFO
            && !IsPrimitive(f.fieldType.fieldType)
  {
    hide IsPrimitive, HasServiceSuffix;
    EventInfoIsNoPrimitive();
    EventInfoHasNoSuffix();
    EventInfoNames();
  }

  lemma EventInfoNames()
    ensures "service_msgs" + "/msg/" + "ServiceEventInfo" == "service_msgs/msg/ServiceEventInfo"
    ensures "service_msgs" + "/" + "ServiceEventInfo" == EVENT_INFO
  {
  }

  lemma {:induction false} DescribedInOrder(typeId: TypeIds, fields: seq<FieldInfo>)
    requires DescribeFields(typeId, fields, true).Some?
    ensures var r := DescribeFields(typeId, fields, true).value;
            |r| == |fields| && forall i | 0 <= i < |fields| :: DescribeField(typeId, fields[i], true) == Some(r[i])
  {
    hide DescribeField;
    if fields != [] { DescribedInOrder(typeId, fields[1..]); }
  }

  lemma OwnService(typeId: TypeIds, s: ParsedService)
    requires Own(typeId, TotalMessage(s), true).Some?
    ensures IsServiceDescription(typeId, s, Own(typeId, TotalMessage(s), true).value)
  {
    hide NestedTypeName, DescribeFields;
    DescribedInOrder(typeId, TotalMessage(s).fields);
    ServiceFieldIs(typeId, s, "request_message", "_Request", NotArray);
    ServiceFieldIs(typeId, s, "response_message", "_Response", NotArray);
    ServiceFieldIs(typeId, s, "event_message", "_Event", NotArray);
  }

  lemma OwnEvent(typeId: TypeIds, s: ParsedService)
    requires Own(typeId, EventMessage(s), true).Some?
    ensures IsEventDescription(typeId, s, Own(typeId, EventMessage(s), true).value)
  {
    hide NestedTypeName, DescribeFields;
    DescribedInOrder(typeId, EventMessage(s).fields);
    EventInfoIs();
    ServiceFieldIs(typeId, s, "request", "_Request", Bounded(1));
    ServiceFieldIs(typeId, s, "response", "_Response", Bounded(1));
    assert s.package + "/" + s.directory + "/" + (s.name + "_Event")
        == s.package + "/" + s.directory + "/" + s.name + "_Event";
  }

  /******* what the description of a service refers to *******/

  lemma {:induction false} CollectedTypes(typeId: TypeIds, fields: seq<FieldInfo>, lib: Library, before: ReferencedMap)
    requires Acyclic(lib) && Collect(typeId, fields, lib, before).Some? && Faithful(typeId, before, lib)
    ensures var m := Collect(typeId, fields, lib, before).value;
            && Faithful(typeId, m, lib) && before.Keys <= m.Keys
            && forall f <- fields | !IsPrimitive(f.fieldType.fieldType) ::
                 FullTypeName(f) in lib && Ros2FullName(lib[FullTypeName(f)]) in m
    decreases Level(fields, lib), |fields|
  {
    hide Acyclic, IsPrimitive, FullTypeName, Own, Faithful, Ros2FullName;
    if fields != [] {
      var key := FullTypeName(fields[0]);
      if IsPrimitive(fields[0].fieldType.fieldType) {
        CollectedTypes(typeId, fields[1..], lib, before);
      } else {
        LevelOfEntry(key, lib);
        NothingIsFaithful(typeId, lib);
        CollectedTypes(typeId, lib[key].fields, lib, map[]);
        var below := Collect(typeId, lib[key].fields, lib, map[]).value;
        var own := Own(typeId, lib[key], true).value;
        OwnName(typeId, lib[key]);
        MergeFaithful(typeId, key, before, below, lib);
        CollectedTypes(typeId, fields[1..], lib, before + below + map[own.typeName := own]);
      }
    }
  }

  // The description of the type of every field is listed.
  lemma FieldTypeIsListed(typeId: TypeIds, p: ParsedMessage, lib: Library, f: FieldInfo)
    requires Acyclic(lib) && DistinctRos2Names(lib) && Describe(typeId, p, lib, true).Some?
    requires f in p.fields && !IsPrimitive(f.fieldType.fieldType)
    ensures FullTypeName(f) in lib && Own(typeId, lib[FullTypeName(f)], true).Some?
    ensures Own(typeId, lib[FullTypeName(f)], true).value in Describe(typeId, p, lib, true).value.referenced
  {
    hide Acyclic, IsPrimitive, FullTypeName, Own, Ros2FullName, Collect, Sorted;
    NothingIsFaithful(typeId, lib);
    CollectedTypes(typeId, p.fields, lib, map[]);
    var m := Collect(typeId, p.fields, lib, map[]).value;
    var name := Ros2FullName(lib[FullTypeName(f)]);
    assert name in m;
    var k :| k in lib && Ros2FullName(lib[k]) == name && Own(typeId, lib[k], true) == Some(m[name]);
    assert k == FullTypeName(f);
    hide Faithful;
    ValueIsListed(m, name);
  }

  lemma ValueIsListed(m: ReferencedMap, name: string)
    requires name in m
    ensures m[name] in IntoValues(m)
  {
    hide ValuesInOrder;
    var i :| 0 <= i < |Sorted(m.Keys)| && Sorted(m.Keys)[i] == name;
    assert IntoValues(m)[i] == m[name];
  }

  // Entries are filed under their names, which have no slashes.
  ghost predicate PlainlyNamed(lib: Library) {
    forall k <- lib.Keys ::
      var p := lib[k];
      FullName(p) == k && PlainName(p.package) && PlainName(p.directory) && PlainName(p.name)
  }

  predicate PlainService(s: ParsedService) {
    && PlainName(s.package) && PlainName(s.directory) && PlainName(s.name)
    && PlainName(s.requestType.directory) && PlainName(s.responseType.directory)
  }

  lemma ServiceNamesAreDistinct(s: ParsedService, lib: Library)
    requires ServiceFits(s, lib) && PlainlyNamed(lib) && PlainService(s)
    ensures DistinctRos2Names(ServiceLibrary(s, lib))
  {
    hide Ready;
    SuffixesDiffer(ServiceName(s));
    NameWithSuffix(s.package, s.name, "_Event");
    NameWithSuffix(s.package, s.name, "_Request");
    NameWithSuffix(s.package, s.name, "_Response");
    PlainNamesAreDistinct(ServiceLibrary(s, lib));
  }

  // The request, the response and the event of the service are listed with their own names and
  // fields.
  ghost predicate ListsParts(typeId: TypeIds, s: ParsedService, referenced: seq<TypeDescription>) {
    && (exists d <- referenced :: IsHalfDescription(typeId, s.requestType, s.name + "_Request", d))
    && (exists d <- referenced :: IsHalfDescription(typeId, s.responseType, s.name + "_Response", d))
    && (exists d <- referenced :: IsEventDescription(typeId, s, d))
  }

  lemma ServiceListsParts(typeId: TypeIds, s: ParsedService, lib: Library)
    requires ServiceFits(s, lib) && PlainlyNamed(lib) && PlainService(s) && Acyclic(ServiceLibrary(s, lib))
    requires Describe(typeId, TotalMessage(s), ServiceLibrary(s, lib), true).Some?
    ensures ListsParts(typeId, s, Describe(typeId, TotalMessage(s), ServiceLibrary(s, lib), true).value.referenced)
  {
    hide Acyclic, Describe, DistinctRos2Names, ServiceFits, PlainlyNamed, IsEventDescription, NestedTypeName;
    hide Own, ListsFields, IsPrimitive, FullTypeName;
    var all := ServiceLibrary(s, lib);
    var fields := TotalMessage(s).fields;
    ServiceNamesAreDistinct(s, lib);
    SuffixesDiffer(ServiceName(s));
    ServiceFieldIs(typeId, s, "request_message", "_Request", NotArray);
    ServiceFieldIs(typeId, s, "response_message", "_Response", NotArray);
    ServiceFieldIs(typeId, s, "event_message", "_Event", NotArray);
    FieldTypeIsListed(typeId, TotalMessage(s), all, fields[0]);
    FieldTypeIsListed(typeId, TotalMessage(s), all, fields[1]);
    FieldTypeIsListed(typeId, TotalMessage(s), all, fields[2]);
    OwnHalf(typeId, RequestMessage(s));
    OwnHalf(typeId, ResponseMessage(s));
    OwnEvent(typeId, s);
  }

  // Every nested type of the service is the name of a listed description.
  ghost predicate NamesAreListed(d: TypeDescriptionMsg) {
    forall f <- d.typeDescription.fields :: exists t <- d.referenced :: t.typeName == f.nestedTypeName
  }

  // The parts lie in the folder that their names say.
  predicate InServiceFolder(s: ParsedService) {
    s.directory == "srv" && s.requestType.directory == "srv" && s.responseType.directory == "srv"
    && s.requestType.package == s.package && s.responseType.package == s.package
  }

  lemma PartsMatchNames(typeId: TypeIds, s: ParsedService, d: TypeDescriptionMsg)
    requires IsServiceDescription(typeId, s, d.typeDescription) && ListsParts(typeId, s, d.referenced)
    requires InServiceFolder(s)
    ensures NamesAreListed(d)
  {
    hide IsServiceDescription, IsHalfDescription, IsEventDescription;
    ServiceNames(typeId, s, d.typeDescription);
    HalfIsNamed(typeId, s, s.requestType, "_Request", d.referenced);
    HalfIsNamed(typeId, s, s.responseType, "_Response", d.referenced);
    EventIsNamed(typeId, s, d.referenced);
    hide ListsParts;
    var fields := d.typeDescription.fields;
    assert forall f <- fields :: f == fields[0] || f == fields[1] || f == fields[2];
  }

  ghost predicate IsNamed(s: ParsedService, suffix: string, referenced: seq<TypeDescription>) {
    exists t <- referenced :: t.typeName == s.package + "/srv/" + s.name + suffix
  }

  lemma HalfIsNamed(typeId: TypeIds, s: ParsedService, half: ParsedMessage, suffix: string,
                    referenced: seq<TypeDescription>)
    requires exists d <- referenced :: IsHalfDescription(typeId, half, s.name + suffix, d)
    requires half.package == s.package && half.directory == "srv"
    ensures IsNamed(s, suffix, referenced)
  {
    hide ListsFields;
    var d :| d in referenced && IsHalfDescription(typeId, half, s.name + suffix, d);
    FolderOf(s.package, s.name, suffix);
  }

  lemma EventIsNamed(typeId: TypeIds, s: ParsedService, referenced: seq<TypeDescription>)
    requires (exists d <- referenced :: IsEventDescription(typeId, s, d)) && s.directory == "srv"
    ensures IsNamed(s, "_Event", referenced)
  {
    hide FieldIs;
    var d :| d in referenced && IsEventDescription(typeId, s, d);
    FolderOf(s.package, s.name, "_Event");
  }

  lemma ServiceNames(typeId: TypeIds, s: ParsedService, d: TypeDescription)
    requires IsServiceDescription(typeId, s, d)
    ensures |d.fields| == 3
    ensures d.fields[0].nestedTypeName == s.package + "/srv/" + s.name + "_Request"
    ensures d.fields[1].nestedTypeName == s.package + "/srv/" + s.name + "_Response"
    ensures d.fields[2].nestedTypeName == s.package + "/srv/" + s.name + "_Event"
  {
  }

  lemma FolderOf(package: string, name: string, suffix: string)
    ensures package + "/srv/" + name + suffix == package + "/" + "srv" + "/" + (name + suffix)
    ensures package + "/srv/" + name + suffix == package + "/" + "srv" + "/" + name + suffix
  {
    assert "/srv/" == "/" + "srv" + "/";
  }

  lemma OwnHalf(typeId: TypeIds, half: ParsedMessage)
    requires Own(typeId, half, true).Some?
    ensures IsHalfDescription(typeId, half, half.name, Own(typeId, half, true).value)
  {
    OwnListsFields(typeId, half, true);
    OwnName(typeId, half);
  }

  // The description of a service is computed on a copy of the graph with three more types,
  // so it is right whatever the nodes remember, and it leaves the nodes alone.
  method DescribeService(typeId: TypeIds, s: ParsedService, graph: NodeGraph) returns (r: Option<TypeDescriptionMsg>)
    requires Acyclic(ParsedOf(graph)) && Closed(ParsedOf(graph)) && CachesValid(typeId, graph)
    requires ServiceFits(s, ParsedOf(graph))
    ensures Acyclic(ServiceLibrary(s, ParsedOf(graph)))
    ensures r == Describe(typeId, TotalMessage(s), ServiceLibrary(s, ParsedOf(graph)), true)
    ensures r.Some? ==> IsServiceDescription(typeId, s, r.value.typeDescription)
    ensures r.Some? && PlainlyNamed(ParsedOf(graph)) && PlainService(s) ==> ListsParts(typeId, s, r.value.referenced)
    ensures r.Some? && PlainlyNamed(ParsedOf(graph)) && PlainService(s) && InServiceFolder(s) ==>
              NamesAreListed(r.value)
  {
    hide Acyclic, Closed, CachesValid, ServiceLibrary, TotalMessage, ServiceFits, PlainlyNamed, PlainService, Own;
    hide IsServiceDescription, ListsParts, NamesAreListed, Collect, IntoValues;
    ghost var lib := ParsedOf(graph);
    var copy := ServiceGraph(typeId, s, graph);
    r := ConvertToTypeDescription(typeId, TotalMessage(s), copy, true);
    if r.Some? {
      OwnService(typeId, s);
      if PlainlyNamed(lib) && PlainService(s) {
        ServiceListsParts(typeId, s, lib);
        if InServiceFolder(s) { PartsMatchNames(typeId, s, r.value); }
      }
    }
  }
}
