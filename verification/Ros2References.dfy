// What a ROS2 type description lists: exactly the types that can be reached through fields,
// each once, in the order of their names.
module Ros2References {
  import opened Wrappers
  import opened Messages
  import opened Libraries
  import opened StringOrder
  import opened GraphProperties
  import opened MessageGraph
  import opened Ros2Hashing
  import opened TextProperties

  // Different entries have different ROS2 names.
  ghost predicate DistinctRos2Names(lib: Library) {
    forall k, k' | k in lib && k' in lib && Ros2FullName(lib[k]) == Ros2FullName(lib[k']) :: k == k'
  }

  // Every value is the own description of the entry that it is named after.
  ghost predicate Faithful(typeId: TypeIds, m: ReferencedMap, lib: Library) {
    forall name <- m.Keys :: exists k <- lib.Keys ::
      Ros2FullName(lib[k]) == name && Own(typeId, lib[k], true) == Some(m[name])
  }

  lemma OwnName(typeId: TypeIds, p: ParsedMessage)
    requires Own(typeId, p, true).Some?
    ensures Own(typeId, p, true).value.typeName == Ros2FullName(p)
  {
  }

  lemma MergeFaithful(typeId: TypeIds, key: string, before: ReferencedMap, below: ReferencedMap, lib: Library)
    requires Faithful(typeId, before, lib) && Faithful(typeId, below, lib)
    requires key in lib && Own(typeId, lib[key], true).Some?
    ensures var own := Own(typeId, lib[key], true).value;
            Faithful(typeId, before + below + map[own.typeName := own], lib)
  {
    hide Own, Ros2FullName;
    OwnName(typeId, lib[key]);
  }

  ghost function NamesOf(keys: set<string>, lib: Library): set<string>
    requires keys <= lib.Keys
  {
    set k | k in keys :: Ros2FullName(lib[k])
  }

  lemma NamesOfUnion(a: set<string>, b: set<string>, key: string, lib: Library)
    requires a <= lib.Keys && b <= lib.Keys
    ensures NamesOf({}, lib) == {}
    ensures key in lib ==> NamesOf({key} + a + b, lib) == {Ros2FullName(lib[key])} + NamesOf(a, lib) + NamesOf(b, lib)
  {
    hide Ros2FullName;
  }

  lemma {:induction false} CollectMeaning(typeId: TypeIds, version: RosVersion, fields: seq<FieldInfo>, lib: Library,
                                          before: ReferencedMap)
    requires Acyclic(lib) && PlainLibrary(lib) && forall f <- fields :: PlainField(version, f)
    requires Collect(typeId, fields, lib, before).Some? && Faithful(typeId, before, lib)
    ensures UniqueTypes(version, fields, lib).Some?
    ensures var m := Collect(typeId, fields, lib, before).value;
            && Faithful(typeId, m, lib)
            && m.Keys == before.Keys + NamesOf(UniqueTypes(version, fields, lib).value, lib)
    decreases Level(fields, lib), |fields|
  {
    hide Acyclic, FullTypeName, Own, Faithful, Ros2FullName, NamesOf;
    NamesOfUnion({}, {}, "", lib);
    if fields != [] {
      assert PlainField(version, fields[0]);
      var key := FullTypeName(fields[0]);
      if IsPrimitive(fields[0].fieldType.fieldType) {
        CollectMeaning(typeId, version, fields[1..], lib, before);
      } else {
        LevelOfEntry(key, lib);
        NothingIsFaithful(typeId, lib);
        CollectMeaning(typeId, VersionOf(lib[key]), lib[key].fields, lib, map[]);
        var below := Collect(typeId, lib[key].fields, lib, map[]).value;
        var own := Own(typeId, lib[key], true).value;
        OwnName(typeId, lib[key]);
        MergeFaithful(typeId, key, before, below, lib);
        var more := before + below + map[own.typeName := own];
        assert more.Keys == before.Keys + below.Keys + {Ros2FullName(lib[key])};
        CollectMeaning(typeId, version, fields[1..], lib, more);
        NamesOfUnion(UniqueTypes(VersionOf(lib[key]), lib[key].fields, lib).value,
                     UniqueTypes(version, fields[1..], lib).value, key, lib);
      }
    }
  }

  lemma NothingIsFaithful(typeId: TypeIds, lib: Library)
    ensures Faithful(typeId, map[], lib)
  {
  }

  // The list of references of a description is strictly sorted by name, so no name occurs
  // twice, and lists exactly the own descriptions of the types that the message reaches.
  lemma ReferencesAreReachableTypes(typeId: TypeIds, p: ParsedMessage, lib: Library, serviceNaming: bool)
    requires Acyclic(lib) && PlainLibrary(lib) && PlainFields(p) && DistinctRos2Names(lib)
    requires Describe(typeId, p, lib, serviceNaming).Some?
    ensures var refs := Describe(typeId, p, lib, serviceNaming).value.referenced;
            && (forall i, j | 0 <= i < j < |refs| :: Less(refs[i].typeName, refs[j].typeName))
            && (forall t :: t in refs
                            <==> exists k :: k in lib && Reaches(p, lib, k) && Own(typeId, lib[k], true) == Some(t))
  {
    hide Acyclic, Own, Ros2FullName, Reaches, PlainField, Collect, UniqueTypes;
    NothingIsFaithful(typeId, lib);
    CollectMeaning(typeId, VersionOf(p), p.fields, lib, map[]);
    CollectNamed(typeId, p.fields, lib, map[]);
    ReferencedTypesAreReachable(p, lib);
    var m := Collect(typeId, p.fields, lib, map[]).value;
    ListedInOrder(m);
    var refs := IntoValues(m);
    hide IntoValues, Faithful, NamesOf, NamedByKey, DistinctRos2Names;
    forall t ensures t in refs <==> exists k :: k in lib && Reaches(p, lib, k) && Own(typeId, lib[k], true) == Some(t) {
      ListedIffReached(typeId, p, lib, m, t);
    }
  }

  lemma ListedInOrder(m: ReferencedMap)
    requires NamedByKey(m)
    ensures forall i, j | 0 <= i < j < |IntoValues(m)| :: Less(IntoValues(m)[i].typeName, IntoValues(m)[j].typeName)
  {
    hide Less, ValuesInOrder;
    assert forall i | 0 <= i < |IntoValues(m)| :: IntoValues(m)[i].typeName == Sorted(m.Keys)[i];
  }

  lemma ListedIffReached(typeId: TypeIds, p: ParsedMessage, lib: Library, m: ReferencedMap, t: TypeDescription)
    requires Acyclic(lib) && UniqueTypes(VersionOf(p), p.fields, lib).Some? && DistinctRos2Names(lib)
    requires Faithful(typeId, m, lib) && NamedByKey(m)
    requires m.Keys == NamesOf(UniqueTypes(VersionOf(p), p.fields, lib).value, lib)
    requires forall key :: key in UniqueTypes(VersionOf(p), p.fields, lib).value <==> Reaches(p, lib, key)
    ensures t in IntoValues(m) <==> exists k :: k in lib && Reaches(p, lib, k) && Own(typeId, lib[k], true) == Some(t)
  {
    hide Acyclic, Own, Ros2FullName, Reaches, UniqueTypes;
    if t in IntoValues(m) {
      var i :| 0 <= i < |IntoValues(m)| && IntoValues(m)[i] == t;
      var name := Sorted(m.Keys)[i];
      assert name in m && m[name] == t;
      var k :| k in lib && Ros2FullName(lib[k]) == name && Own(typeId, lib[k], true) == Some(t);
    }
    if exists k :: k in lib && Reaches(p, lib, k) && Own(typeId, lib[k], true) == Some(t) {
      var k :| k in lib && Reaches(p, lib, k) && Own(typeId, lib[k], true) == Some(t);
      var name := Ros2FullName(lib[k]);
      assert name in m;
      var i :| 0 <= i < |Sorted(m.Keys)| && Sorted(m.Keys)[i] == name;
      assert IntoValues(m)[i] == t;
    }
  }

  /******* the fields of a description *******/

  function ArraySize(a: ArrayType): nat {
    match a
    case Bounded(n) => n
    case FixedLength(n) => n
    case _ => 0
  }

  function StringSize(t: FieldType): nat { if t.stringCapacity.Some? then t.stringCapacity.value else 0 }

  // A described field has the name and the number of its field, names a type exactly when the
  // field is not primitive, and has the size of its array and the bound of its string exactly
  // when 32 bits hold them.
  ghost predicate Describes(typeId: TypeIds, f: FieldInfo, r: Ros2Field) {
    && r.name == f.fieldName && typeId(f.fieldType) == Some(r.typeId)
    && (r.nestedTypeName == "" <==> IsPrimitive(f.fieldType.fieldType))
    && (r.capacity == ArraySize(f.fieldType.arrayInfo) <==> ArraySize(f.fieldType.arrayInfo) < 0x1_0000_0000)
    && (r.stringCapacity == StringSize(f.fieldType) <==> StringSize(f.fieldType) < 0x1_0000_0000)
  }

  lemma {:induction false} FieldsInOrder(typeId: TypeIds, fields: seq<FieldInfo>, serviceNaming: bool)
    requires DescribeFields(typeId, fields, serviceNaming).Some?
    ensures var r := DescribeFields(typeId, fields, serviceNaming).value;
            |r| == |fields| && forall i | 0 <= i < |fields| :: Describes(typeId, fields[i], r[i])
  {
    if fields != [] {
      FieldsInOrder(typeId, fields[1..], serviceNaming);
      hide IsPrimitive, HasServiceSuffix;
      assert Describes(typeId, fields[0], DescribeField(typeId, fields[0], serviceNaming).value);
    }
  }

  // All fields in order; ROS2 has no messages without fields, and a placeholder, a number of
  // the type `uint8`, stands for them.
  ghost predicate ListsFields(typeId: TypeIds, fields: seq<FieldInfo>, r: seq<Ros2Field>) {
    if fields == [] then r == [Ros2Field("structure_needs_at_least_one_member", 3, 0, 0, "")]
    else |r| == |fields| && forall i | 0 <= i < |r| :: Describes(typeId, fields[i], r[i])
  }

  // A description lists the fields of the message in order, and is never without fields.
  lemma OwnListsFields(typeId: TypeIds, p: ParsedMessage, serviceNaming: bool)
    requires Own(typeId, p, serviceNaming).Some?
    ensures ListsFields(typeId, p.fields, Own(typeId, p, serviceNaming).value.fields)
  {
    hide Describes;
    if p.fields != [] { FieldsInOrder(typeId, p.fields, serviceNaming); }
  }

  /******* do nested type names match? *******/

  predicate PlainName(s: string) { '/' !in s }

  // The first part of a name with slashes determines where it is cut.
  lemma SameCut(a: string, b: string, c: string, d: string)
    requires PlainName(a) && PlainName(c) && a + "/" + b == c + "/" + d
    ensures a == c && b == d
  {
    var s, t := a + "/" + b, c + "/" + d;
    assert s == a + ("/" + b) && t == c + ("/" + d);
    IndexOfAppend(a, "/" + b, '/');
    IndexOfAppend(c, "/" + d, '/');
    assert |a| == |c|;
    assert a == s[..|a|] && c == t[..|c|] && b == s[|a| + 1..] && d == t[|c| + 1..];
  }

  // Names without slashes make the entries of a library distinct for ROS2 as well.
  lemma PlainNamesAreDistinct(lib: Library)
    requires forall k <- lib.Keys :: FullName(lib[k]) == k
    requires forall k <- lib.Keys :: PlainName(lib[k].package) && PlainName(lib[k].directory) && PlainName(lib[k].name)
    ensures DistinctRos2Names(lib)
  {
    forall k, k' | k in lib && k' in lib && Ros2FullName(lib[k]) == Ros2FullName(lib[k']) ensures k == k' {
      var p, q := lib[k], lib[k'];
      assert Ros2FullName(p) == p.package + "/" + (p.directory + "/" + p.name);
      assert Ros2FullName(q) == q.package + "/" + (q.directory + "/" + q.name);
      SameCut(p.package, p.directory + "/" + p.name, q.package, q.directory + "/" + q.name);
      SameCut(p.directory, p.name, q.directory, q.name);
    }
  }

  // A name that belongs to a part of a service.
  ghost predicate EndsInPart(typeName: string) {
    exists name :: typeName == name + "_Request" || typeName == name + "_Response" || typeName == name + "_Event"
  }

  lemma SuffixIsPart(typeName: string)
    ensures HasServiceSuffix(typeName) <==> EndsInPart(typeName)
  {
    if EndsWith(typeName, "_Request") { assert typeName == typeName[..|typeName| - 8] + "_Request"; }
    if EndsWith(typeName, "_Response") { assert typeName == typeName[..|typeName| - 9] + "_Response"; }
    if EndsWith(typeName, "_Event") { assert typeName == typeName[..|typeName| - 6] + "_Event"; }
  }

  // The name that a field gives for its type is the name of the type's description exactly
  // when the type's file is in the folder that the field's name says: "srv" for the three
  // parts of a service, provided that the service is in the same package, "msg" otherwise.
  lemma NestedNameMatches(f: FieldInfo, lib: Library, serviceNaming: bool)
    requires FullTypeName(f) in lib && FullName(lib[FullTypeName(f)]) == FullTypeName(f)
    requires !IsPrimitive(f.fieldType.fieldType) && f.fieldType.packageName.Some?
    requires PlainName(f.fieldType.packageName.value) && PlainName(f.fieldType.fieldType)
    requires PlainName(f.fieldType.sourcePackage)
    requires var p := lib[FullTypeName(f)]; PlainName(p.package) && PlainName(p.directory) && PlainName(p.name)
    ensures var p := lib[FullTypeName(f)];
            NestedTypeName(f, serviceNaming) == Ros2FullName(p)
            <==> if serviceNaming && EndsInPart(f.fieldType.fieldType)
                 then p.directory == "srv" && f.fieldType.sourcePackage == p.package
                 else p.directory == "msg"
  {
    hide IsPrimitive, HasServiceSuffix, EndsInPart;
    SuffixIsPart(f.fieldType.fieldType);
    var p := lib[FullTypeName(f)];
    var package, name, source := f.fieldType.packageName.value, f.fieldType.fieldType, f.fieldType.sourcePackage;
    SameCut(package, name, p.package, p.name);
    assert Ros2FullName(p) == p.package + "/" + (p.directory + "/" + p.name);
    assert PlainName("msg") && PlainName("srv");
    if serviceNaming && HasServiceSuffix(name) {
      assert NestedTypeName(f, serviceNaming) == source + "/" + ("srv" + "/" + name);
      if NestedTypeName(f, serviceNaming) == Ros2FullName(p) {
        SameCut(source, "srv" + "/" + name, p.package, p.directory + "/" + p.name);
        SameCut("srv", name, p.directory, p.name);
      }
    } else {
      assert NestedTypeName(f, serviceNaming) == package + "/" + ("msg" + "/" + name);
      if NestedTypeName(f, serviceNaming) == Ros2FullName(p) {
        SameCut(package, "msg" + "/" + name, p.package, p.directory + "/" + p.name);
        SameCut("msg", name, p.directory, p.name);
      }
    }
  }
}
