// The three messages that every resolution starts from
// (roslibrust_codegen/src/ros2_builtin_interfaces.rs). Their texts are parameters.
module Builtins {
  import opened Wrappers
  import opened Messages
  import opened Libraries
  import opened MessageGraph
  import opened GraphProperties

  function Primitive(package: string, typeName: string, name: string, arrayInfo: ArrayType): FieldInfo {
    FieldInfo(FieldType(None, package, typeName, arrayInfo, None), name)
  }

  function Builtin(package: string, name: string, fields: seq<FieldInfo>, constants: seq<ConstantInfo>, source: string)
    : ParsedMessage
  {
    ParsedMessage(name, package, fields, constants, Some(Ros2), source, "msg")
  }

  // Seconds and nanoseconds: the fields of both time types.
  const SECONDS: seq<FieldInfo> := [
    Primitive("builtin_interfaces", "int32", "sec", NotArray),
    Primitive("builtin_interfaces", "uint32", "nanosec", NotArray)]

  const EVENT_FIELDS: seq<FieldInfo> := [
    Primitive("service_msgs", "uint8", "event_type", NotArray),
    FieldInfo(FieldType(Some("builtin_interfaces"), "service_msgs", "Time", NotArray, None), "stamp"),
    Primitive("service_msgs", "char", "client_gid", FixedLength(16)),
    Primitive("service_msgs", "int64", "sequence_number", NotArray)]

  const EVENT_CONSTANTS: seq<ConstantInfo> := [
    ConstantInfo("uint8", "REQUEST_SENT", "0"),
    ConstantInfo("uint8", "REQUEST_RECEIVED", "1"),
    ConstantInfo("uint8", "RESPONSE_SENT", "2"),
    ConstantInfo("uint8", "RESPONSE_RECEIVED", "3")]

  function Time(source: string): ParsedMessage { Builtin("builtin_interfaces", "Time", SECONDS, [], source) }

  function Duration(source: string): ParsedMessage { Builtin("builtin_interfaces", "Duration", SECONDS, [], source) }

  function ServiceEventInfo(source: string): ParsedMessage {
    Builtin("service_msgs", "ServiceEventInfo", EVENT_FIELDS, EVENT_CONSTANTS, source)
  }

  const NAMES: set<string> :=
    {"builtin_interfaces/Time", "builtin_interfaces/Duration", "service_msgs/ServiceEventInfo"}

  lemma EndsInName(prefix: string, t: string, package: string, name: string)
    requires prefix + "/" + t == package + "/" + name && '/' !in name && '/' !in t
    ensures t == name
  {
    var s := prefix + "/" + t;
    assert s[|prefix|] == '/' && s[|package|] == '/';
    assert forall i | 0 <= i < |name| :: s[|package| + 1 + i] == name[i];
    assert forall i | 0 <= i < |t| :: s[|prefix| + 1 + i] == t[i];
    assert |prefix| == |package|;
    assert t == s[|prefix| + 1..] && name == s[|package| + 1..];
  }

  lemma PrimitiveHasNoSlash(t: string)
    requires IsPrimitive(t)
    ensures '/' !in t
  {
  }

  lemma NotNamedAfterPrimitive(package: string, name: string)
    requires '/' !in name && !IsPrimitive(name)
    ensures !NamedAfterPrimitive(package + "/" + name)
  {
    hide IsPrimitive;
    if NamedAfterPrimitive(package + "/" + name) {
      var prefix, t :| IsPrimitive(t) && package + "/" + name == prefix + "/" + t;
      PrimitiveHasNoSlash(t);
      EndsInName(prefix, t, package, name);
    }
  }

  // A message that can be added under its name to a graph that has what it refers to.
  ghost predicate Addable(p: ParsedMessage, name: string) {
    FullName(p) == name && !NamedAfterPrimitive(name) && PlainFields(p)
  }

  lemma SecondsArePlain(keys: set<string>)
    ensures (forall f <- SECONDS :: PlainField(Ros2, f)) && Ready(SECONDS, keys)
  {
  }

  lemma EventFieldsArePlain(keys: set<string>)
    requires "builtin_interfaces/Time" in keys
    ensures (forall f <- EVENT_FIELDS :: PlainField(Ros2, f)) && Ready(EVENT_FIELDS, keys)
  {
    assert FullTypeName(EVENT_FIELDS[1]) == "builtin_interfaces/Time";
  }

  lemma BuiltinIsAddable(package: string, name: string, fields: seq<FieldInfo>, constants: seq<ConstantInfo>,
                         source: string, fullName: string)
    requires '/' !in name && !IsPrimitive(name) && fullName == package + "/" + name
    requires forall f <- fields :: PlainField(Ros2, f)
    ensures Addable(Builtin(package, name, fields, constants, source), fullName)
  {
    hide PlainField, IsPrimitive, NamedAfterPrimitive;
    NotNamedAfterPrimitive(package, name);
  }

  lemma MessageNames()
    ensures !IsPrimitive("Time") && !IsPrimitive("Duration") && !IsPrimitive("ServiceEventInfo")
    ensures '/' !in "Time" && '/' !in "Duration" && '/' !in "ServiceEventInfo"
  {
  }

  lemma FullNames()
    ensures "builtin_interfaces/Time" == "builtin_interfaces" + "/" + "Time"
    ensures "builtin_interfaces/Duration" == "builtin_interfaces" + "/" + "Duration"
    ensures "service_msgs/ServiceEventInfo" == "service_msgs" + "/" + "ServiceEventInfo"
  {
  }

  lemma BuiltinsAreAddable(time: string, duration: string, event: string)
    ensures Addable(Time(time), "builtin_interfaces/Time")
    ensures Addable(Duration(duration), "builtin_interfaces/Duration")
    ensures Addable(ServiceEventInfo(event), "service_msgs/ServiceEventInfo")
  {
    hide PlainField, IsPrimitive, Addable, Builtin;
    MessageNames();
    FullNames();
    SecondsArePlain({});
    EventFieldsArePlain({"builtin_interfaces/Time"});
    BuiltinIsAddable("builtin_interfaces", "Time", SECONDS, [], time, "builtin_interfaces/Time");
    BuiltinIsAddable("builtin_interfaces", "Duration", SECONDS, [], duration, "builtin_interfaces/Duration");
    BuiltinIsAddable("service_msgs", "ServiceEventInfo", EVENT_FIELDS, EVENT_CONSTANTS, event,
                     "service_msgs/ServiceEventInfo");
  }

  lemma AddBuiltin(md5: string -> string, g: Graph, p: ParsedMessage, name: string) returns (g': Graph)
    requires Consistent(md5, g) && PlainLibrary(LibraryOf(g)) && Addable(p, name) && Ready(p.fields, g.Keys)
    requires name !in g
    ensures Consistent(md5, g') && PlainLibrary(LibraryOf(g'))
    ensures g'.Keys == g.Keys + {name} && g'[name].parsed == p
    ensures forall k <- g.Keys :: g'[k].parsed == g[k].parsed
  {
    hide Consistent, PlainLibrary, NamedAfterPrimitive, Ready;
    g' := AddPlainMessage(md5, g, p);
  }

  // The starting graph is consistent, so whatever the resolver adds to it stays so.
  lemma BuiltinsAreConsistent(md5: string -> string, time: string, duration: string, event: string)
    returns (seed: Graph)
    ensures Consistent(md5, seed) && PlainLibrary(LibraryOf(seed)) && seed.Keys == NAMES
    ensures seed["builtin_interfaces/Time"].parsed == Time(time)
    ensures seed["builtin_interfaces/Duration"].parsed == Duration(duration)
    ensures seed["service_msgs/ServiceEventInfo"].parsed == ServiceEventInfo(event)
  {
    hide Consistent, PlainLibrary, Addable, Ready;
    EmptyGraphIsConsistent(md5);
    BuiltinsAreAddable(time, duration, event);
    seed := map[];
    SecondsArePlain(seed.Keys);
    seed := AddBuiltin(md5, seed, Time(time), "builtin_interfaces/Time");
    SecondsArePlain(seed.Keys);
    EventFieldsArePlain(seed.Keys + {"builtin_interfaces/Duration"});
    seed := AddBuiltin(md5, seed, Duration(duration), "builtin_interfaces/Duration");
    seed := AddBuiltin(md5, seed, ServiceEventInfo(event), "service_msgs/ServiceEventInfo");
  }
}
