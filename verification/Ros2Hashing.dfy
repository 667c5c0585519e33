// ROS2 type descriptions (roslibrust_codegen/src/ros2_hashing.rs): the tree of types that a
// message refers to, flattened into a list, from which the type hash is computed. Every node
// of the message graph remembers its own description. The numbers that stand for field types
// are the parameter `typeId`; serialisation and SHA-256 are functions of the description.
module Ros2Hashing {
  import opened Wrappers
  import opened Messages
  import opened Libraries
  import opened StringOrder
  import opened GraphProperties

  datatype Ros2Field = Ros2Field(
    name: string,
    typeId: nat,
    capacity: nat,
    stringCapacity: nat,
    nestedTypeName: string)

  datatype TypeDescription = TypeDescription(typeName: string, fields: seq<Ros2Field>)

  datatype TypeDescriptionMsg = TypeDescriptionMsg(typeDescription: TypeDescription, referenced: seq<TypeDescription>)

  type TypeIds = FieldType -> Option<nat>

  type ReferencedMap = map<string, TypeDescription>

  /******* naming *******/

  function Ros2FullName(p: ParsedMessage): string { p.package + "/" + p.directory + "/" + p.name }

  function Ros2FullTypeName(f: FieldInfo): string {
    (if f.fieldType.packageName.Some? then f.fieldType.packageName.value else f.fieldType.sourcePackage)
    + "/msg/" + f.fieldType.fieldType
  }

  predicate EndsWith(s: string, suffix: string) { |suffix| <= |s| && s[|s| - |suffix|..] == suffix }

  predicate HasServiceSuffix(t: string) {
    EndsWith(t, "_Request") || EndsWith(t, "_Response") || EndsWith(t, "_Event")
  }

  function NestedTypeName(f: FieldInfo, serviceNaming: bool): string {
    if IsPrimitive(f.fieldType.fieldType) then ""
    else if serviceNaming && HasServiceSuffix(f.fieldType.fieldType) then
      f.fieldType.sourcePackage + "/srv/" + f.fieldType.fieldType
    else Ros2FullTypeName(f)
  }

  /******* the description without a cache *******/

  // `as u32`
  function AsU32(n: nat): nat { n % 0x1_0000_0000 }

  function Capacity(a: ArrayType): nat {
    match a
    case Bounded(n) => AsU32(n)
    case FixedLength(n) => AsU32(n)
    case Unbounded => 0
    case NotArray => 0
  }

  const EMPTY_MESSAGE_FIELD: Ros2Field := Ros2Field("structure_needs_at_least_one_member", 3, 0, 0, "")

  function DescribeField(typeId: TypeIds, f: FieldInfo, serviceNaming: bool): Option<Ros2Field> {
    match typeId(f.fieldType)
    case None => None
    case Some(id) =>
      var stringCapacity := if f.fieldType.stringCapacity.Some? then f.fieldType.stringCapacity.value else 0;
      Some(Ros2Field(f.fieldName, id, Capacity(f.fieldType.arrayInfo), AsU32(stringCapacity),
                     NestedTypeName(f, serviceNaming)))
  }

  function DescribeFields(typeId: TypeIds, fields: seq<FieldInfo>, serviceNaming: bool): Option<seq<Ros2Field>> {
    if fields == [] then Some([])
    else
      match (DescribeField(typeId, fields[0], serviceNaming), DescribeFields(typeId, fields[1..], serviceNaming))
      case (Some(f), Some(rest)) => Some([f] + rest)
      case _ => None
  }

  // The message itself, without the types that it refers to.
  function Own(typeId: TypeIds, p: ParsedMessage, serviceNaming: bool): Option<TypeDescription> {
    if p.fields == [] then Some(TypeDescription(Ros2FullName(p), [EMPTY_MESSAGE_FIELD]))
    else
      match DescribeFields(typeId, p.fields, serviceNaming)
      case None => None
      case Some(fields) => Some(TypeDescription(Ros2FullName(p), fields))
  }

  // The types that the fields refer to, added to those collected before: the references of a
  // referenced type first, then the type itself. A later type replaces an earlier one of the
  // same name.
  function Collect(typeId: TypeIds, fields: seq<FieldInfo>, lib: Library, before: ReferencedMap): Option<ReferencedMap>
    requires Acyclic(lib)
    decreases Level(fields, lib), |fields|
  {
    if fields == [] then Some(before)
    else
      var f := fields[0];
      var key := FullTypeName(f);
      if typeId(f.fieldType).None? then None
      else if IsPrimitive(f.fieldType.fieldType) then Collect(typeId, fields[1..], lib, before)
      else if key !in lib then None
      else
        LevelOfEntry(key, lib);
        match (Collect(typeId, lib[key].fields, lib, map[]), Own(typeId, lib[key], true))
        case (Some(below), Some(own)) =>
          Collect(typeId, fields[1..], lib, before + below + map[own.typeName := own])
        case _ => None
  }

  // `into_values` of a B-tree map: the values in the order of their keys.
  function ValuesInOrder(m: ReferencedMap, keys: seq<string>): (values: seq<TypeDescription>)
    requires forall k <- keys :: k in m
    ensures |values| == |keys| && forall i | 0 <= i < |keys| :: values[i] == m[keys[i]]
  {
    if keys == [] then [] else [m[keys[0]]] + ValuesInOrder(m, keys[1..])
  }

  function IntoValues(m: ReferencedMap): seq<TypeDescription> { ValuesInOrder(m, Sorted(m.Keys)) }

  function Describe(typeId: TypeIds, p: ParsedMessage, lib: Library, serviceNaming: bool): Option<TypeDescriptionMsg>
    requires Acyclic(lib)
  {
    match (Own(typeId, p, serviceNaming), Collect(typeId, p.fields, lib, map[]))
    case (Some(own), Some(m)) => Some(TypeDescriptionMsg(own, IntoValues(m)))
    case _ => None
  }

  /******* the description with caches in the nodes *******/

  class GraphNode {
    const parsed: ParsedMessage
    var cache: Option<TypeDescriptionMsg>

    constructor (parsed: ParsedMessage, cache: Option<TypeDescriptionMsg>)
      ensures this.parsed == parsed && this.cache == cache
    {
      this.parsed := parsed;
      this.cache := cache;
    }
  }

  type NodeGraph = map<string, GraphNode>

  function ParsedOf(graph: NodeGraph): Library { map k | k in graph :: graph[k].parsed }

  // What a node remembers is the description of its message, named as part of other types.
  ghost predicate CachesValid(typeId: TypeIds, graph: NodeGraph)
    requires Acyclic(ParsedOf(graph))
    reads graph.Values
  {
    forall k <- graph.Keys | graph[k].cache.Some? ::
      Describe(typeId, graph[k].parsed, ParsedOf(graph), true) == graph[k].cache
  }

  // The values of the referenced list are filed under their own names.
  ghost predicate NamedByKey(m: ReferencedMap) { forall k <- m.Keys :: m[k].typeName == k }

  lemma {:induction false} CollectNamed(typeId: TypeIds, fields: seq<FieldInfo>, lib: Library, before: ReferencedMap)
    requires Acyclic(lib) && Collect(typeId, fields, lib, before).Some? && NamedByKey(before)
    ensures NamedByKey(Collect(typeId, fields, lib, before).value)
    decreases Level(fields, lib), |fields|
  {
    hide Acyclic, IsPrimitive, FullTypeName, Own;
    if fields != [] {
      var key := FullTypeName(fields[0]);
      if IsPrimitive(fields[0].fieldType.fieldType) {
        CollectNamed(typeId, fields[1..], lib, before);
      } else {
        LevelOfEntry(key, lib);
        CollectNamed(typeId, lib[key].fields, lib, map[]);
        var below := Collect(typeId, lib[key].fields, lib, map[]).value;
        var own := Own(typeId, lib[key], true).value;
        CollectNamed(typeId, fields[1..], lib, before + below + map[own.typeName := own]);
      }
    }
  }

  // Inserting the listed values one by one gives back the map they were taken from.
  function InsertAll(m: ReferencedMap, values: seq<TypeDescription>): ReferencedMap
    decreases |values|
  {
    if values == [] then m else InsertAll(m[values[0].typeName := values[0]], values[1..])
  }

  lemma {:induction false} InsertAllValues(before: ReferencedMap, m: ReferencedMap, keys: seq<string>)
    requires NamedByKey(m) && forall k <- keys :: k in m
    ensures var r := InsertAll(before, ValuesInOrder(m, keys));
            && (forall k :: k in r <==> k in before || k in keys)
            && (forall k <- r.Keys :: r[k] == if k in keys then m[k] else before[k])
    decreases |keys|
  {
    if keys != [] {
      assert ValuesInOrder(m, keys)[1..] == ValuesInOrder(m, keys[1..]);
      InsertAllValues(before[keys[0] := m[keys[0]]], m, keys[1..]);
      assert forall k :: k in keys <==> k == keys[0] || k in keys[1..];
    }
  }

  lemma InsertListed(before: ReferencedMap, m: ReferencedMap)
    requires NamedByKey(m)
    ensures InsertAll(before, IntoValues(m)) == before + m
  {
    hide Sorted, NamedByKey, InsertAll, ValuesInOrder;
    InsertAllValues(before, m, Sorted(m.Keys));
    Merged(before, m, InsertAll(before, IntoValues(m)));
  }

  lemma Merged(before: ReferencedMap, m: ReferencedMap, r: ReferencedMap)
    requires forall k :: k in r <==> k in before || k in m
    requires forall k <- r.Keys :: r[k] == if k in m then m[k] else before[k]
    ensures r == before + m
  {
    assert r.Keys == (before + m).Keys;
  }

  function AppendFields(before: seq<Ros2Field>, rest: Option<seq<Ros2Field>>): Option<seq<Ros2Field>> {
    match rest
    case None => None
    case Some(fields) => Some(before + fields)
  }

  lemma DescribeFieldsStep(typeId: TypeIds, fields: seq<FieldInfo>, i: nat, before: seq<Ros2Field>, serviceNaming: bool)
    requires i < |fields|
    ensures match DescribeField(typeId, fields[i], serviceNaming)
            case None => AppendFields(before, DescribeFields(typeId, fields[i..], serviceNaming)) == None
            case Some(f) => AppendFields(before, DescribeFields(typeId, fields[i..], serviceNaming))
                            == AppendFields(before + [f], DescribeFields(typeId, fields[i + 1..], serviceNaming))
  {
    hide DescribeField;
    assert fields[i..][1..] == fields[i + 1..];
    if DescribeField(typeId, fields[i], serviceNaming).Some?
       && DescribeFields(typeId, fields[i + 1..], serviceNaming).Some?
    {
      var f := DescribeField(typeId, fields[i], serviceNaming).value;
      var rest := DescribeFields(typeId, fields[i + 1..], serviceNaming).value;
      assert before + ([f] + rest) == before + [f] + rest;
    }
  }

  // The loop so far: `fields` and `referenced` hold what the fields before `i` contribute.
  ghost predicate Converted(typeId: TypeIds, p: ParsedMessage, lib: Library, serviceNaming: bool,
                            i: nat, fields: seq<Ros2Field>, referenced: ReferencedMap)
    requires Acyclic(lib) && i <= |p.fields|
  {
    && DescribeFields(typeId, p.fields, serviceNaming)
       == AppendFields(if p.fields == [] then [] else fields, DescribeFields(typeId, p.fields[i..], serviceNaming))
    && Collect(typeId, p.fields, lib, map[]) == Collect(typeId, p.fields[i..], lib, referenced)
  }

  lemma ConvertedStart(typeId: TypeIds, p: ParsedMessage, lib: Library, serviceNaming: bool, fields: seq<Ros2Field>)
    requires Acyclic(lib) && (p.fields != [] ==> fields == [])
    ensures Converted(typeId, p, lib, serviceNaming, 0, fields, map[])
  {
    hide Acyclic;
    assert p.fields[0..] == p.fields;
    var all := DescribeFields(typeId, p.fields, serviceNaming);
    if all.Some? { assert [] + all.value == all.value; }
  }

  lemma ConvertedStep(typeId: TypeIds, p: ParsedMessage, lib: Library, serviceNaming: bool,
                      i: nat, fields: seq<Ros2Field>, referenced: ReferencedMap)
    requires Acyclic(lib) && i < |p.fields| && Converted(typeId, p, lib, serviceNaming, i, fields, referenced)
    ensures var f := p.fields[i];
            var key := FullTypeName(f);
            if typeId(f.fieldType).None? then Describe(typeId, p, lib, serviceNaming) == None
            else
              var fields' := fields + [DescribeField(typeId, f, serviceNaming).value];
              if IsPrimitive(f.fieldType.fieldType) then
                Converted(typeId, p, lib, serviceNaming, i + 1, fields', referenced)
              else if key !in lib || Describe(typeId, lib[key], lib, true).None? then
                Describe(typeId, p, lib, serviceNaming) == None
              else
                var sub := Describe(typeId, lib[key], lib, true).value;
                Converted(typeId, p, lib, serviceNaming, i + 1, fields',
                          InsertAll(referenced, sub.referenced)[sub.typeDescription.typeName := sub.typeDescription])
  {
    hide Acyclic, IsPrimitive, FullTypeName, Own, DescribeFields, NestedTypeName, IntoValues;
    DescribeFieldsStep(typeId, p.fields, i, fields, serviceNaming);
    var f := p.fields[i];
    var key := FullTypeName(f);
    assert p.fields[i..][1..] == p.fields[i + 1..];
    if typeId(f.fieldType).None? {
      NoDescription(typeId, p, lib, serviceNaming);
    } else if !IsPrimitive(f.fieldType.fieldType) && key in lib {
      LevelOfEntry(key, lib);
      if Describe(typeId, lib[key], lib, true).Some? {
        var below := Collect(typeId, lib[key].fields, lib, map[]).value;
        CollectNamed(typeId, lib[key].fields, lib, map[]);
        InsertListed(referenced, below);
        var own := Own(typeId, lib[key], true).value;
        assert (referenced + below)[own.typeName := own] == referenced + below + map[own.typeName := own];
      }
    }
  }

  lemma NoDescription(typeId: TypeIds, p: ParsedMessage, lib: Library, serviceNaming: bool)
    requires Acyclic(lib) && p.fields != [] && DescribeFields(typeId, p.fields, serviceNaming) == None
    ensures Describe(typeId, p, lib, serviceNaming) == None
  {
  }

  lemma ConvertedEnd(typeId: TypeIds, p: ParsedMessage, lib: Library, serviceNaming: bool,
                     fields: seq<Ros2Field>, referenced: ReferencedMap)
    requires Acyclic(lib) && Converted(typeId, p, lib, serviceNaming, |p.fields|, fields, referenced)
    requires p.fields == [] ==> fields == [EMPTY_MESSAGE_FIELD]
    ensures Describe(typeId, p, lib, serviceNaming)
            == Some(TypeDescriptionMsg(TypeDescription(Ros2FullName(p), fields), IntoValues(referenced)))
  {
    hide Acyclic, IntoValues;
    assert p.fields[|p.fields|..] == [];
    assert fields + [] == fields;
  }

  // Whatever the nodes remember, the result is the description without caches, and what the
  // nodes remember afterwards is right; nothing that was remembered is changed.
  method ConvertToTypeDescription(typeId: TypeIds, parsed: ParsedMessage, graph: NodeGraph, serviceNaming: bool)
    returns (r: Option<TypeDescriptionMsg>)
    requires Acyclic(ParsedOf(graph)) && CachesValid(typeId, graph)
    modifies graph.Values
    ensures r == Describe(typeId, parsed, ParsedOf(graph), serviceNaming)
    ensures CachesValid(typeId, graph)
    ensures forall k <- graph.Keys | old(graph[k].cache).Some? :: graph[k].cache == old(graph[k].cache)
    decreases Level(parsed.fields, ParsedOf(graph)), 0
  {
    hide Acyclic, Describe, Converted, FullTypeName, IsPrimitive, NestedTypeName, Level, IntoValues;
    ghost var lib := ParsedOf(graph);
    var fields: seq<Ros2Field> := [];
    var referenced: ReferencedMap := map[];
    if parsed.fields == [] {
      fields := fields + [EMPTY_MESSAGE_FIELD];
    }
    ConvertedStart(typeId, parsed, lib, serviceNaming, fields);
    for i := 0 to |parsed.fields|
      invariant CachesValid(typeId, graph)
      invariant forall k <- graph.Keys | old(graph[k].cache).Some? :: graph[k].cache == old(graph[k].cache)
      invariant Converted(typeId, parsed, lib, serviceNaming, i, fields, referenced)
      invariant parsed.fields == [] ==> fields == [EMPTY_MESSAGE_FIELD]
    {
      var f := parsed.fields[i];
      ConvertedStep(typeId, parsed, lib, serviceNaming, i, fields, referenced);
      var id := typeId(f.fieldType);
      if id.None? {
        return None;
      }
      var stringCapacity := if f.fieldType.stringCapacity.Some? then f.fieldType.stringCapacity.value else 0;
      fields := fields + [Ros2Field(f.fieldName, id.value, Capacity(f.fieldType.arrayInfo), AsU32(stringCapacity),
                                    NestedTypeName(f, serviceNaming))];
      if !IsPrimitive(f.fieldType.fieldType) {
        var key := FullTypeName(f);
        if key !in graph {
          return None;
        }
        var node := graph[key];
        LevelAbove(f, parsed.fields, lib);
        var sub := SubDescription(typeId, key, graph);
        if sub.None? {
          return None;
        }
        ghost var before := referenced;
        var values := sub.value.referenced;
        assert values[0..] == values;
        for j := 0 to |values|
          invariant InsertAll(before, values) == InsertAll(referenced, values[j..])
        {
          assert values[j..][1..] == values[j + 1..];
          referenced := referenced[values[j].typeName := values[j]];
        }
        referenced := referenced[sub.value.typeDescription.typeName := sub.value.typeDescription];
      }
    }
    ConvertedEnd(typeId, parsed, lib, serviceNaming, fields, referenced);
    r := Some(TypeDescriptionMsg(TypeDescription(Ros2FullName(parsed), fields), IntoValues(referenced)));
  }

  // The description of an entry: remembered, or computed now and remembered.
  method SubDescription(typeId: TypeIds, key: string, graph: NodeGraph) returns (r: Option<TypeDescriptionMsg>)
    requires Acyclic(ParsedOf(graph)) && CachesValid(typeId, graph) && key in graph
    modifies graph.Values
    ensures r == Describe(typeId, graph[key].parsed, ParsedOf(graph), true)
    ensures CachesValid(typeId, graph)
    ensures forall k <- graph.Keys | old(graph[k].cache).Some? :: graph[k].cache == old(graph[k].cache)
    decreases Rank(key, ParsedOf(graph)), 1
  {
    hide Acyclic, Describe;
    var node := graph[key];
    if node.cache.Some? {
      r := node.cache;
    } else {
      LevelOfEntry(key, ParsedOf(graph));
      r := ConvertToTypeDescription(typeId, node.parsed, graph, true);
      if r.Some? {
        node.cache := r;
      }
    }
  }

  /******* a growing graph *******/

  lemma {:induction false} CollectStable(typeId: TypeIds, fields: seq<FieldInfo>, lib: Library, lib': Library,
                                         before: ReferencedMap)
    requires Acyclic(lib) && Acyclic(lib') && Extends(lib, lib') && Collect(typeId, fields, lib, before).Some?
    ensures Collect(typeId, fields, lib', before) == Collect(typeId, fields, lib, before)
    decreases Level(fields, lib), |fields|
  {
    hide Acyclic, IsPrimitive, FullTypeName, Own;
    if fields != [] {
      var key := FullTypeName(fields[0]);
      if IsPrimitive(fields[0].fieldType.fieldType) {
        CollectStable(typeId, fields[1..], lib, lib', before);
      } else {
        LevelOfEntry(key, lib);
        CollectStable(typeId, lib[key].fields, lib, lib', map[]);
        var below := Collect(typeId, lib[key].fields, lib, map[]).value;
        var own := Own(typeId, lib[key], true).value;
        CollectStable(typeId, fields[1..], lib, lib', before + below + map[own.typeName := own]);
      }
    }
  }

  // A description, once there is one, does not change when the graph gains fresh keys.
  lemma DescribeStable(typeId: TypeIds, p: ParsedMessage, lib: Library, lib': Library, serviceNaming: bool)
    requires Acyclic(lib) && Acyclic(lib') && Extends(lib, lib') && Describe(typeId, p, lib, serviceNaming).Some?
    ensures Describe(typeId, p, lib', serviceNaming) == Describe(typeId, p, lib, serviceNaming)
  {
    hide Acyclic, Own, IntoValues;
    CollectStable(typeId, p.fields, lib, lib', map[]);
  }

  // What the nodes remember stays right when nodes are added that remember nothing.
  lemma CachesStayValid(typeId: TypeIds, graph: NodeGraph, graph': NodeGraph)
    requires Acyclic(ParsedOf(graph)) && Acyclic(ParsedOf(graph')) && CachesValid(typeId, graph)
    requires forall k <- graph.Keys ::
               k in graph' && graph'[k].parsed == graph[k].parsed && graph'[k].cache == graph[k].cache
    requires forall k <- graph'.Keys | k !in graph :: graph'[k].cache == None
    ensures CachesValid(typeId, graph')
  {
    hide Acyclic, Describe;
    assert Extends(ParsedOf(graph), ParsedOf(graph'));
    forall k <- graph'.Keys | graph'[k].cache.Some?
      ensures Describe(typeId, graph'[k].parsed, ParsedOf(graph'), true) == graph'[k].cache
    {
      DescribeStable(typeId, graph[k].parsed, ParsedOf(graph), ParsedOf(graph'), true);
    }
  }

  /******* hashing while the graph grows *******/

  class HashedGraph {
    const typeId: TypeIds
    var nodes: NodeGraph

    ghost predicate Valid()
      reads this, nodes.Values
    {
      Acyclic(ParsedOf(nodes)) && Closed(ParsedOf(nodes)) && CachesValid(typeId, nodes)
    }

    constructor (typeId: TypeIds)
      ensures Valid() && nodes == map[] && this.typeId == typeId
    {
      this.typeId := typeId;
      nodes := map[];
      new;
      assert Ranks(ParsedOf(nodes), map[]);
    }

    // The description of a message on its own.
    method DescribeMessage(p: ParsedMessage) returns (r: Option<TypeDescriptionMsg>)
      requires Valid()
      modifies nodes.Values
      ensures Valid() && nodes == old(nodes)
      ensures r == Describe(typeId, p, ParsedOf(nodes), false)
    {
      hide Acyclic, Closed, Describe, CachesValid;
      r := ConvertToTypeDescription(typeId, p, nodes, false);
    }

    // Resolving a message: it is described on the graph of its dependencies and added to it.
    method Resolve(p: ParsedMessage) returns (r: Option<TypeDescriptionMsg>)
      requires Valid() && FullName(p) !in nodes && !NamedAfterPrimitive(FullName(p))
      requires Ready(p.fields, nodes.Keys)
      modifies this`nodes, nodes.Values
      ensures Valid()
      ensures r == old(Describe(typeId, p, ParsedOf(nodes), false))
      ensures ParsedOf(nodes) == if r.None? then old(ParsedOf(nodes)) else old(ParsedOf(nodes))[FullName(p) := p]
      ensures r.Some? ==> r == Describe(typeId, p, ParsedOf(nodes), false)
    {
      hide Acyclic, Closed, Describe, CachesValid;
      ghost var lib := ParsedOf(nodes);
      r := ConvertToTypeDescription(typeId, p, nodes, false);
      if r.Some? {
        var node := new GraphNode(p, None);
        var nodes' := nodes[FullName(p) := node];
        assert lib.Keys == nodes.Keys;
        InsertKeepsAcyclic(lib, FullName(p), p);
        assert ParsedOf(nodes') == lib[FullName(p) := p];
        CachesStayValid(typeId, nodes, nodes');
        assert Extends(lib, ParsedOf(nodes'));
        DescribeStable(typeId, p, lib, ParsedOf(nodes'), false);
        nodes := nodes';
      }
    }
  }
}
