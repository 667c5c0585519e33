// Properties of the recursions over a message graph: they do not change when the graph
// gains fresh entries, they never miss an entry of a closed graph, and what they compute
// is described by the paths of field references.
module GraphProperties {
  import opened Wrappers
  import opened Messages
  import opened Libraries
  import opened StringOrder
  import opened Text
  import opened MessageGraph

  ghost predicate Extends(lib: Library, lib': Library) {
    forall k <- lib.Keys :: k in lib' && lib'[k] == lib[k]
  }

  /******* growing the library changes nothing that was computed before *******/

  lemma {:induction false} FieldLinesStable(md5: string -> string, version: RosVersion, fields: seq<FieldInfo>,
                                            lib: Library, lib': Library)
    requires Acyclic(lib) && Acyclic(lib') && Extends(lib, lib')
    requires FieldLines(md5, version, fields, lib).Some?
    ensures FieldLines(md5, version, fields, lib') == FieldLines(md5, version, fields, lib)
    decreases Level(fields, lib), |fields|
  {
    hide Acyclic, IsIntrinsic, FullTypeName;
    if fields != [] {
      var key := FullTypeName(fields[0]);
      if !IsIntrinsic(version, fields[0].fieldType.fieldType) {
        LevelOfEntry(key, lib);
        FieldLinesStable(md5, VersionOf(lib[key]), lib[key].fields, lib, lib');
      }
      FieldLinesStable(md5, version, fields[1..], lib, lib');
    }
  }

  lemma {:induction false} UniqueTypesStable(version: RosVersion, fields: seq<FieldInfo>, lib: Library, lib': Library)
    requires Acyclic(lib) && Acyclic(lib') && Extends(lib, lib')
    requires UniqueTypes(version, fields, lib).Some?
    ensures UniqueTypes(version, fields, lib') == UniqueTypes(version, fields, lib)
    decreases Level(fields, lib), |fields|
  {
    hide Acyclic, IsIntrinsic, FullTypeName;
    if fields != [] {
      if !IsIntrinsic(version, fields[0].fieldType.fieldType) {
        var key := FullTypeName(fields[0]);
        LevelOfEntry(key, lib);
        UniqueTypesStable(VersionOf(lib[key]), lib[key].fields, lib, lib');
      }
      UniqueTypesStable(version, fields[1..], lib, lib');
    }
  }

  lemma {:induction false} FixedLengthStable(fields: seq<FieldInfo>, lib: Library, lib': Library)
    requires Acyclic(lib) && Acyclic(lib') && Extends(lib, lib')
    requires FixedLengthFields(fields, lib).Some?
    ensures FixedLengthFields(fields, lib') == FixedLengthFields(fields, lib)
    decreases Level(fields, lib), |fields|
  {
    hide Acyclic;
    if fields != [] && !IsDynamicArray(fields[0].fieldType.arrayInfo) {
      var key := FullTypeName(fields[0]);
      if fields[0].fieldType.packageName.None? {
        if fields[0].fieldType.fieldType != "string" {
          FixedLengthStable(fields[1..], lib, lib');
        }
      } else {
        LevelOfEntry(key, lib);
        FixedLengthStable(lib[key].fields, lib, lib');
        if FixedLengthFields(lib[key].fields, lib) == Some(true) {
          FixedLengthStable(fields[1..], lib, lib');
        }
      }
    }
  }

  ghost predicate GraphExtends(g: Graph, g': Graph) {
    forall k <- g.Keys :: k in g' && g'[k] == g[k]
  }

  lemma LibraryExtends(g: Graph, g': Graph)
    requires GraphExtends(g, g')
    ensures Extends(LibraryOf(g), LibraryOf(g'))
  {
  }

  lemma {:induction false} StoredSectionsStable(names: seq<string>, g: Graph, g': Graph)
    requires GraphExtends(g, g') && forall k <- names :: k in g
    ensures StoredSections(names, g') == StoredSections(names, g)
  {
    if names != [] { StoredSectionsStable(names[1..], g, g'); }
  }

  lemma DefinitionStable(p: ParsedMessage, g: Graph, g': Graph)
    requires Acyclic(LibraryOf(g)) && Acyclic(LibraryOf(g')) && GraphExtends(g, g')
    requires FullDefinition(p, g).Some?
    ensures FullDefinition(p, g') == FullDefinition(p, g)
  {
    hide Acyclic, UniqueTypes, Trim;
    LibraryExtends(g, g');
    UniqueTypesStable(VersionOf(p), p.fields, LibraryOf(g), LibraryOf(g'));
    StoredSectionsStable(Sorted(ReferencedTypes(p, LibraryOf(g)).value), g, g');
  }

  // A message that was resolved keeps its md5 sum, definition and length flag
  // however the graph grows.
  lemma ResolveStable(md5: string -> string, p: ParsedMessage, g: Graph, g': Graph)
    requires Acyclic(LibraryOf(g)) && Acyclic(LibraryOf(g')) && GraphExtends(g, g')
    requires Resolve(md5, p, g).Some?
    ensures Resolve(md5, p, g') == Resolve(md5, p, g)
  {
    hide Acyclic, FullDefinition, FieldLines, FixedLengthFields;
    LibraryExtends(g, g');
    FieldLinesStable(md5, VersionOf(p), p.fields, LibraryOf(g), LibraryOf(g'));
    FixedLengthStable(p.fields, LibraryOf(g), LibraryOf(g'));
    DefinitionStable(p, g, g');
  }

  /******* consistent graphs *******/

  // What a successful resolution leaves behind: every entry is filed under its own name,
  // refers only to entries of the graph, without cycles, and holds exactly what the
  // recursions compute on the graph as it is now.
  ghost predicate Consistent(md5: string -> string, g: Graph) {
    && Acyclic(LibraryOf(g)) && Closed(LibraryOf(g))
    && forall k <- g.Keys :: FullName(g[k].parsed) == k && Resolve(md5, g[k].parsed, g) == Some(g[k])
  }

  lemma ResolveKeepsMessage(md5: string -> string, p: ParsedMessage, g: Graph)
    requires Acyclic(LibraryOf(g)) && Resolve(md5, p, g).Some?
    ensures Resolve(md5, p, g).value.parsed == p
  {
  }

  lemma InsertKeepsConsistent(md5: string -> string, g: Graph, p: ParsedMessage)
    requires Consistent(md5, g)
    requires FullName(p) !in g && !NamedAfterPrimitive(FullName(p)) && Ready(p.fields, g.Keys)
    requires Resolve(md5, p, g).Some?
    ensures Consistent(md5, g[FullName(p) := Resolve(md5, p, g).value])
  {
    hide Acyclic, Resolve, Closed;
    var g' := g[FullName(p) := Resolve(md5, p, g).value];
    ResolveKeepsMessage(md5, p, g);
    assert LibraryOf(g).Keys == g.Keys;
    assert LibraryOf(g') == LibraryOf(g)[FullName(p) := p];
    InsertKeepsAcyclic(LibraryOf(g), FullName(p), p);
    forall k <- g'.Keys ensures FullName(g'[k].parsed) == k && Resolve(md5, g'[k].parsed, g') == Some(g'[k]) {
      ResolveStable(md5, g'[k].parsed, g, g');
    }
  }

  /******* a closed library of plain messages misses nothing *******/

  ghost predicate PlainLibrary(lib: Library) {
    forall k <- lib.Keys :: PlainFields(lib[k])
  }

  lemma {:induction false} NothingMissing(md5: string -> string, version: RosVersion, fields: seq<FieldInfo>,
                                          lib: Library)
    requires Acyclic(lib) && Closed(lib) && PlainLibrary(lib)
    requires Ready(fields, lib.Keys) && forall f <- fields :: PlainField(version, f)
    ensures FieldLines(md5, version, fields, lib).Some?
    ensures UniqueTypes(version, fields, lib).Some?
    ensures FixedLengthFields(fields, lib).Some?
    decreases Level(fields, lib), |fields|
  {
    hide Acyclic;
    if fields != [] {
      var key := FullTypeName(fields[0]);
      assert PlainField(version, fields[0]);
      if !IsPrimitive(fields[0].fieldType.fieldType) {
        LevelOfEntry(key, lib);
        NothingMissing(md5, VersionOf(lib[key]), lib[key].fields, lib);
      }
      NothingMissing(md5, version, fields[1..], lib);
    }
  }

  lemma PlainMessageResolves(md5: string -> string, p: ParsedMessage, g: Graph)
    requires Acyclic(LibraryOf(g)) && Closed(LibraryOf(g)) && PlainLibrary(LibraryOf(g))
    requires Ready(p.fields, g.Keys) && PlainFields(p)
    ensures Resolve(md5, p, g).Some?
  {
    assert LibraryOf(g).Keys == g.Keys;
    NothingMissing(md5, VersionOf(p), p.fields, LibraryOf(g));
  }

  // A plain message whose references are there can be added.
  lemma AddPlainMessage(md5: string -> string, g: Graph, p: ParsedMessage) returns (g': Graph)
    requires Consistent(md5, g) && PlainLibrary(LibraryOf(g)) && PlainFields(p) && Ready(p.fields, g.Keys)
    requires FullName(p) !in g && !NamedAfterPrimitive(FullName(p))
    ensures Consistent(md5, g') && PlainLibrary(LibraryOf(g'))
    ensures g'.Keys == g.Keys + {FullName(p)} && g'[FullName(p)].parsed == p
    ensures forall k <- g.Keys :: g'[k].parsed == g[k].parsed
  {
    hide Acyclic, Resolve, PlainFields, NamedAfterPrimitive, FullName, Ready;
    PlainMessageResolves(md5, p, g);
    ResolveKeepsMessage(md5, p, g);
    InsertKeepsConsistent(md5, g, p);
    g' := g[FullName(p) := Resolve(md5, p, g).value];
    assert LibraryOf(g') == LibraryOf(g)[FullName(p) := p];
  }

  lemma EmptyGraphIsConsistent(md5: string -> string)
    ensures Consistent(md5, map[]) && PlainLibrary(LibraryOf(map[]))
  {
    assert Ranks(LibraryOf(map[]), map[]);
  }

  /******* referenced types are the types reachable through fields *******/

  ghost predicate Mentions(version: RosVersion, fields: seq<FieldInfo>, key: string) {
    exists f <- fields :: !IsIntrinsic(version, f.fieldType.fieldType) && FullTypeName(f) == key
  }

  // A chain of field references that starts at a field of the message.
  ghost predicate IsPath(version: RosVersion, fields: seq<FieldInfo>, lib: Library, path: seq<string>)
    decreases |path|
  {
    && path != [] && path[0] in lib && Mentions(version, fields, path[0])
    && (|path| > 1 ==> IsPath(VersionOf(lib[path[0]]), lib[path[0]].fields, lib, path[1..]))
  }

  ghost predicate Reaches(p: ParsedMessage, lib: Library, key: string) {
    exists path :: IsPath(VersionOf(p), p.fields, lib, path) && path[|path| - 1] == key
  }

  lemma {:induction false} PathIntoUnique(version: RosVersion, fields: seq<FieldInfo>, lib: Library, path: seq<string>)
    requires Acyclic(lib) && UniqueTypes(version, fields, lib).Some? && IsPath(version, fields, lib, path)
    ensures path[|path| - 1] in UniqueTypes(version, fields, lib).value
    decreases Level(fields, lib), |fields|
  {
    hide Acyclic, IsIntrinsic, FullTypeName;
    var f :| f in fields && !IsIntrinsic(version, f.fieldType.fieldType) && FullTypeName(f) == path[0];
    if f == fields[0] {
      if |path| > 1 {
        LevelOfEntry(path[0], lib);
        PathIntoUnique(VersionOf(lib[path[0]]), lib[path[0]].fields, lib, path[1..]);
      }
    } else {
      assert f in fields[1..];
      PathIntoUnique(version, fields[1..], lib, path);
    }
  }

  // A path from the later fields, and a path through the type of a field, are paths.
  lemma LongerPath(version: RosVersion, fields: seq<FieldInfo>, lib: Library, tail: seq<string>)
    requires fields != []
    ensures IsPath(version, fields[1..], lib, tail) ==> IsPath(version, fields, lib, tail)
    ensures var first := FullTypeName(fields[0]);
            !IsIntrinsic(version, fields[0].fieldType.fieldType) && first in lib ==>
              && IsPath(version, fields, lib, [first])
              && (IsPath(VersionOf(lib[first]), lib[first].fields, lib, tail) ==>
                    IsPath(version, fields, lib, [first] + tail))
  {
    hide IsIntrinsic, FullTypeName;
    var first := FullTypeName(fields[0]);
    assert ([first] + tail)[1..] == tail;
    if IsPath(version, fields[1..], lib, tail) {
      var f :| f in fields[1..] && !IsIntrinsic(version, f.fieldType.fieldType) && FullTypeName(f) == tail[0];
      assert f in fields;
    }
  }

  lemma {:induction false} UniqueHasPath(version: RosVersion, fields: seq<FieldInfo>, lib: Library, key: string)
    returns (path: seq<string>)
    requires Acyclic(lib) && UniqueTypes(version, fields, lib).Some? && key in UniqueTypes(version, fields, lib).value
    ensures IsPath(version, fields, lib, path) && path[|path| - 1] == key
    decreases Level(fields, lib), |fields|
  {
    hide Acyclic, IsIntrinsic, FullTypeName, Mentions;
    var first := FullTypeName(fields[0]);
    if !IsIntrinsic(version, fields[0].fieldType.fieldType) {
      LevelOfEntry(first, lib);
      if key == first {
        LongerPath(version, fields, lib, []);
        return [first];
      }
      if key in UniqueTypes(VersionOf(lib[first]), lib[first].fields, lib).value {
        var tail := UniqueHasPath(VersionOf(lib[first]), lib[first].fields, lib, key);
        LongerPath(version, fields, lib, tail);
        return [first] + tail;
      }
    }
    path := UniqueHasPath(version, fields[1..], lib, key);
    LongerPath(version, fields, lib, path);
  }

  // The referenced types are exactly the types at the end of some chain of references.
  lemma ReferencedTypesAreReachable(p: ParsedMessage, lib: Library)
    requires Acyclic(lib) && ReferencedTypes(p, lib).Some?
    ensures forall key :: key in ReferencedTypes(p, lib).value <==> Reaches(p, lib, key)
  {
    hide Acyclic;
    forall key ensures key in ReferencedTypes(p, lib).value <==> Reaches(p, lib, key) {
      if key in ReferencedTypes(p, lib).value {
        var path := UniqueHasPath(VersionOf(p), p.fields, lib, key);
      }
      if Reaches(p, lib, key) {
        var path :| IsPath(VersionOf(p), p.fields, lib, path) && path[|path| - 1] == key;
        PathIntoUnique(VersionOf(p), p.fields, lib, path);
      }
    }
  }

  // No chain of references leads from an entry back to itself.
  lemma NoCycle(lib: Library, key: string)
    requires Acyclic(lib) && key in lib && ReferencedTypes(lib[key], lib).Some?
    ensures !Reaches(lib[key], lib, key)
  {
    hide Acyclic;
    LevelOfEntry(key, lib);
    ReferencedTypesAreReachable(lib[key], lib);
    if Reaches(lib[key], lib, key) {
      UniqueTypesBelow(VersionOf(lib[key]), lib[key].fields, lib, key);
    }
  }

  lemma {:induction false} UniqueTypesBelow(version: RosVersion, fields: seq<FieldInfo>, lib: Library, key: string)
    requires Acyclic(lib) && UniqueTypes(version, fields, lib).Some? && key in UniqueTypes(version, fields, lib).value
    ensures Rank(key, lib) < Level(fields, lib)
    decreases Level(fields, lib), |fields|
  {
    hide Acyclic, IsIntrinsic, FullTypeName;
    var first := FullTypeName(fields[0]);
    if !IsIntrinsic(version, fields[0].fieldType.fieldType) {
      LevelOfEntry(first, lib);
      if key == first {
        return;
      }
      if key in UniqueTypes(VersionOf(lib[first]), lib[first].fields, lib).value {
        UniqueTypesBelow(VersionOf(lib[first]), lib[first].fields, lib, key);
        return;
      }
    }
    UniqueTypesBelow(version, fields[1..], lib, key);
  }

  /******* when an entry closes a cycle *******/

  lemma {:induction false} PathDescends(version: RosVersion, fields: seq<FieldInfo>, lib: Library, path: seq<string>,
                                        key: string, p: ParsedMessage, rank: map<string, nat>, bound: nat)
    requires IsPath(version, fields, lib, path) && path[|path| - 1] == key
    requires Ranks(lib[key := p], rank) && Below(lib[key := p], rank, fields, bound)
    ensures rank[key] < bound
    decreases |path|
  {
    hide IsIntrinsic, FullTypeName;
    var f :| f in fields && FullTypeName(f) == path[0];
    assert rank[path[0]] < bound;
    if path[0] != key {
      assert Below(lib[key := p], rank, lib[path[0]].fields, rank[path[0]]);
      PathDescends(VersionOf(lib[path[0]]), lib[path[0]].fields, lib, path[1..], key, p, rank, rank[path[0]]);
    }
  }

  lemma {:induction false} PathExtends(version: RosVersion, fields: seq<FieldInfo>, lib: Library, path: seq<string>,
                                       key: string)
    requires IsPath(version, fields, lib, path) && key in lib
    requires path[|path| - 1] in lib
    requires var last := lib[path[|path| - 1]]; Mentions(VersionOf(last), last.fields, key)
    ensures IsPath(version, fields, lib, path + [key])
    decreases |path|
  {
    hide Mentions;
    var longer := path + [key];
    if |path| == 1 {
      assert longer[1..] == [key];
    } else {
      assert longer[1..] == path[1..] + [key];
      PathExtends(VersionOf(lib[path[0]]), lib[path[0]].fields, lib, path[1..], key);
    }
  }

  ghost predicate NamesAreTypes(keys: set<string>) { forall k <- keys :: !NamedAfterPrimitive(k) }

  lemma FieldMentions(version: RosVersion, fields: seq<FieldInfo>, f: FieldInfo)
    requires f in fields && !NamedAfterPrimitive(FullTypeName(f))
    ensures Mentions(version, fields, FullTypeName(f)) && !IsPrimitive(f.fieldType.fieldType)
  {
    TypeNamedAfterPrimitive(f);
  }

  // What an entry that a message reaches refers to, the message reaches as well.
  lemma ReachesFurther(p: ParsedMessage, lib: Library, k: string, f: FieldInfo)
    requires k in lib && Reaches(p, lib, k) && f in lib[k].fields && FullTypeName(f) in lib
    requires !NamedAfterPrimitive(FullTypeName(f))
    ensures Reaches(p, lib, FullTypeName(f))
  {
    hide IsIntrinsic, FullTypeName, NamedAfterPrimitive, Mentions;
    var path :| IsPath(VersionOf(p), p.fields, lib, path) && path[|path| - 1] == k;
    hide IsPath;
    FieldMentions(VersionOf(lib[k]), lib[k].fields, f);
    PathExtends(VersionOf(p), p.fields, lib, path, FullTypeName(f));
    var longer := path + [FullTypeName(f)];
    assert longer[|longer| - 1] == FullTypeName(f);
  }

  lemma ReachesOwnTypes(p: ParsedMessage, lib: Library, f: FieldInfo)
    requires f in p.fields && FullTypeName(f) in lib && !NamedAfterPrimitive(FullTypeName(f))
    ensures Reaches(p, lib, FullTypeName(f))
  {
    hide IsIntrinsic, FullTypeName, NamedAfterPrimitive;
    FieldMentions(VersionOf(p), p.fields, f);
    var path := [FullTypeName(f)];
    assert IsPath(VersionOf(p), p.fields, lib, path) && path[|path| - 1] == FullTypeName(f);
  }

  // What the message reaches comes first, then the message, then everything else.
  ghost function RankWith(lib: Library, key: string, p: ParsedMessage): map<string, nat>
    requires Acyclic(lib)
  {
    map k | k in lib.Keys + {key} ::
      if k == key then |lib| else if Reaches(p, lib, k) then SomeRank(lib)[k] else |lib| + 1 + SomeRank(lib)[k]
  }

  lemma RankWithOrders(lib: Library, key: string, p: ParsedMessage)
    requires Acyclic(lib) && Closed(lib) && NamesAreTypes(lib.Keys + {key})
    requires !Mentions(VersionOf(p), p.fields, key) && !Reaches(p, lib, key)
    ensures Orders(lib[key := p], RankWith(lib, key, p))
  {
    hide IsPrimitive, IsIntrinsic, FullTypeName, NamedAfterPrimitive, Acyclic, Mentions, Reaches;
    var lib' := lib[key := p];
    var rank := RankWith(lib, key, p);
    forall k <- lib'.Keys, f <- lib'[k].fields | FullTypeName(f) in lib' ensures rank[FullTypeName(f)] < rank[k] {
      var t := FullTypeName(f);
      if k == key {
        FieldMentions(VersionOf(p), p.fields, f);
        ReachesOwnTypes(p, lib, f);
      } else {
        FieldMentions(VersionOf(lib[k]), lib[k].fields, f);
        assert Ready(lib[k].fields, lib.Keys);
        assert Below(lib, SomeRank(lib), lib[k].fields, SomeRank(lib)[k]);
        if Reaches(p, lib, k) {
          ReachesFurther(p, lib, k, f);
        }
      }
    }
  }

  // Filing a message under a name, new or taken, keeps the library acyclic if and only if the
  // message does not refer to that name, neither itself nor through the entries that are there.
  lemma InsertIsAcyclicIff(lib: Library, key: string, p: ParsedMessage)
    requires Acyclic(lib) && Closed(lib) && NamesAreTypes(lib.Keys + {key})
    ensures Acyclic(lib[key := p]) <==> !Mentions(VersionOf(p), p.fields, key) && !Reaches(p, lib, key)
  {
    hide FullTypeName, NamedAfterPrimitive, IsIntrinsic;
    var lib' := lib[key := p];
    if !Mentions(VersionOf(p), p.fields, key) && !Reaches(p, lib, key) {
      RankWithOrders(lib, key, p);
      OrderIsEnough(lib', RankWith(lib, key, p));
    } else if Acyclic(lib') {
      var rank := SomeRank(lib');
      assert Below(lib', rank, p.fields, rank[key]);
      if Reaches(p, lib, key) {
        var path :| IsPath(VersionOf(p), p.fields, lib, path) && path[|path| - 1] == key;
        PathDescends(VersionOf(p), p.fields, lib, path, key, p, rank, rank[key]);
      }
      assert false;
    }
  }

  /******* fixed length *******/

  ghost predicate HasDynamicField(p: ParsedMessage) {
    exists f <- p.fields :: IsDynamicField(f)
  }

  predicate IsDynamicField(f: FieldInfo) {
    f.fieldType.arrayInfo.Bounded? || f.fieldType.arrayInfo.Unbounded? || f.fieldType.fieldType == "string"
  }

  ghost predicate DynamicBelow(version: RosVersion, fields: seq<FieldInfo>, lib: Library)
    requires Acyclic(lib) && UniqueTypes(version, fields, lib).Some?
  {
    (exists f <- fields :: IsDynamicField(f))
    || exists k <- UniqueTypes(version, fields, lib).value :: HasDynamicField(lib[k])
  }

  lemma {:induction false} FixedLengthMeaning(version: RosVersion, fields: seq<FieldInfo>, lib: Library)
    requires Acyclic(lib) && PlainLibrary(lib) && forall f <- fields :: PlainField(version, f)
    requires UniqueTypes(version, fields, lib).Some?
    requires FixedLengthFields(fields, lib).Some?
    ensures FixedLengthFields(fields, lib).value <==> !DynamicBelow(version, fields, lib)
    decreases Level(fields, lib), |fields|
  {
    hide Acyclic;
    if fields != [] {
      var t := fields[0].fieldType;
      var key := FullTypeName(fields[0]);
      assert PlainField(version, fields[0]);
      assert IsPrimitive("string");
      if !IsDynamicArray(t.arrayInfo) && t.fieldType != "string" {
        if t.packageName.None? {
          FixedLengthMeaning(version, fields[1..], lib);
        } else {
          LevelOfEntry(key, lib);
          FixedLengthMeaning(VersionOf(lib[key]), lib[key].fields, lib);
          if FixedLengthFields(lib[key].fields, lib).value {
            FixedLengthMeaning(version, fields[1..], lib);
          }
        }
      }
    }
  }

  // A message has a fixed length exactly when neither it nor any message reachable from it
  // has an unbounded array, a bounded array or a string.
  lemma FixedLengthIffNoDynamicField(p: ParsedMessage, lib: Library)
    requires Acyclic(lib) && Closed(lib) && PlainLibrary(lib) && PlainFields(p) && Ready(p.fields, lib.Keys)
    ensures IsFixedLength(p, lib).Some?
    ensures IsFixedLength(p, lib).value
            <==> !HasDynamicField(p) && forall k | k in lib && Reaches(p, lib, k) :: !HasDynamicField(lib[k])
  {
    hide Acyclic;
    NothingMissing(s => s, VersionOf(p), p.fields, lib);
    FixedLengthMeaning(VersionOf(p), p.fields, lib);
    ReferencedTypesAreReachable(p, lib);
  }
}
