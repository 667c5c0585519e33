// The loops with which code generation computes a message file
// (roslibrust_codegen/src/lib.rs). Each follows field types into the library by recursion.
module MessageFiles {
  import opened Wrappers
  import opened Messages
  import opened Libraries
  import opened StringOrder
  import opened Text
  import opened MessageGraph

  /******* md5 sum *******/

  function AppendLines(content: string, lines: Option<string>): Option<string> {
    match lines
    case None => None
    case Some(rest) => Some(content + rest)
  }

  // One more field line, or the failure to find the type of the field.
  lemma FieldLinesStep(md5: string -> string, version: RosVersion, fields: seq<FieldInfo>, i: nat, lib: Library,
                       content: string)
    requires Acyclic(lib) && i < |fields|
    ensures var f := fields[i];
            var key := FullTypeName(f);
            var whole := AppendLines(content, FieldLines(md5, version, fields[i..], lib));
            if IsIntrinsic(version, f.fieldType.fieldType) then
              whole == AppendLines(content + (ShowFieldType(f.fieldType) + " " + f.fieldName + "\n"),
                                   FieldLines(md5, version, fields[i + 1..], lib))
            else if key !in lib || Md5Sum(md5, lib[key], lib).None? then whole == None
            else
              whole == AppendLines(content + (Md5Sum(md5, lib[key], lib).value + " " + f.fieldName + "\n"),
                                   FieldLines(md5, version, fields[i + 1..], lib))
  {
    hide Acyclic, IsIntrinsic, FullTypeName, ShowFieldType, HashContent;
    assert fields[i..][1..] == fields[i + 1..];
    var rest := FieldLines(md5, version, fields[i + 1..], lib);
    if rest.Some? {
      forall line: string ensures content + (line + rest.value) == content + line + rest.value {}
    }
    if FullTypeName(fields[i]) in lib { LevelOfEntry(FullTypeName(fields[i]), lib); }
  }

  lemma LinesStartAndEnd(md5: string -> string, version: RosVersion, content: string, lib: Library)
    requires Acyclic(lib)
    ensures AppendLines(content, FieldLines(md5, version, [], lib)) == Some(content)
  {
    assert content + "" == content;
  }

  method ComputeMd5Content(md5: string -> string, p: ParsedMessage, lib: Library) returns (r: Option<string>)
    requires Acyclic(lib)
    ensures r == AppendLines(ConstantLines(p.constants), FieldLines(md5, VersionOf(p), p.fields, lib))
    decreases Level(p.fields, lib), 0
  {
    hide Acyclic, IsIntrinsic, FullTypeName, ShowFieldType, FieldLines, Level, Md5Sum;
    var content := "";
    assert p.constants[0..] == p.constants;
    assert content + ConstantLines(p.constants) == ConstantLines(p.constants);
    for i := 0 to |p.constants|
      invariant content + ConstantLines(p.constants[i..]) == ConstantLines(p.constants)
    {
      var c := p.constants[i];
      assert p.constants[i..][1..] == p.constants[i + 1..];
      content := content + (c.constantType + " " + c.constantName + "=" + c.constantValue + "\n");
    }
    assert content == ConstantLines(p.constants);
    assert p.fields[0..] == p.fields;
    for i := 0 to |p.fields|
      invariant AppendLines(ConstantLines(p.constants), FieldLines(md5, VersionOf(p), p.fields, lib))
                == AppendLines(content, FieldLines(md5, VersionOf(p), p.fields[i..], lib))
    {
      var f := p.fields[i];
      FieldLinesStep(md5, VersionOf(p), p.fields, i, lib, content);
      if IsIntrinsic(VersionOf(p), f.fieldType.fieldType) {
        content := content + (ShowFieldType(f.fieldType) + " " + f.fieldName + "\n");
      } else {
        var key := FullTypeName(f);
        if key !in lib {
          return None;
        }
        LevelAbove(f, p.fields, lib);
        var sum := ComputeMd5Sum(md5, lib[key], lib);
        if sum.None? {
          return None;
        }
        content := content + (sum.value + " " + f.fieldName + "\n");
      }
    }
    assert p.fields[|p.fields|..] == [];
    LinesStartAndEnd(md5, VersionOf(p), content, lib);
    r := Some(content);
  }

  method ComputeMd5Sum(md5: string -> string, p: ParsedMessage, lib: Library) returns (r: Option<string>)
    requires Acyclic(lib)
    ensures r == Md5Sum(md5, p, lib)
    decreases Level(p.fields, lib), 1
  {
    hide Acyclic, FieldLines, ConstantLines, TrimEnd, Level;
    var content := ComputeMd5Content(md5, p, lib);
    if content.None? {
      return None;
    }
    r := Some(md5(TrimEnd(content.value)));
  }

  /******* referenced types *******/

  function AddTypes(found: set<string>, types: Option<set<string>>): Option<set<string>> {
    match types
    case None => None
    case Some(rest) => Some(found + rest)
  }

  lemma UniqueTypesStep(version: RosVersion, fields: seq<FieldInfo>, i: nat, lib: Library, found: set<string>)
    requires Acyclic(lib) && i < |fields|
    ensures var f := fields[i];
            var key := FullTypeName(f);
            var whole := AddTypes(found, UniqueTypes(version, fields[i..], lib));
            if IsIntrinsic(version, f.fieldType.fieldType) then
              whole == AddTypes(found, UniqueTypes(version, fields[i + 1..], lib))
            else if key !in lib || ReferencedTypes(lib[key], lib).None? then whole == None
            else whole == AddTypes(found + {key} + ReferencedTypes(lib[key], lib).value,
                                   UniqueTypes(version, fields[i + 1..], lib))
  {
    hide Acyclic, IsIntrinsic, FullTypeName;
    assert fields[i..][1..] == fields[i + 1..];
    var key := FullTypeName(fields[i]);
    if key in lib {
      LevelOfEntry(key, lib);
      if ReferencedTypes(lib[key], lib).Some? && UniqueTypes(version, fields[i + 1..], lib).Some? {
        var sub, rest := ReferencedTypes(lib[key], lib).value, UniqueTypes(version, fields[i + 1..], lib).value;
        assert found + ({key} + sub + rest) == found + {key} + sub + rest;
      }
    }
  }

  method GetUniqueFieldTypes(p: ParsedMessage, lib: Library) returns (r: Option<set<string>>)
    requires Acyclic(lib)
    ensures r == ReferencedTypes(p, lib)
    decreases Level(p.fields, lib)
  {
    hide Acyclic, IsIntrinsic, FullTypeName, UniqueTypes, Level;
    var found: set<string> := {};
    assert p.fields[0..] == p.fields;
    assert AddTypes({}, ReferencedTypes(p, lib)) == ReferencedTypes(p, lib) by { NoTypes(ReferencedTypes(p, lib)); }
    for i := 0 to |p.fields|
      invariant ReferencedTypes(p, lib) == AddTypes(found, UniqueTypes(VersionOf(p), p.fields[i..], lib))
    {
      var f := p.fields[i];
      UniqueTypesStep(VersionOf(p), p.fields, i, lib, found);
      if IsIntrinsic(VersionOf(p), f.fieldType.fieldType) {
        continue;
      }
      var key := FullTypeName(f);
      if key !in lib {
        return None;
      }
      found := found + {key};
      LevelAbove(f, p.fields, lib);
      var sub := GetUniqueFieldTypes(lib[key], lib);
      if sub.None? {
        return None;
      }
      found := found + sub.value;
    }
    assert p.fields[|p.fields|..] == [];
    AllTypes(VersionOf(p), found, lib);
    r := Some(found);
  }

  lemma NoTypes(types: Option<set<string>>)
    ensures AddTypes({}, types) == types
  {
    if types.Some? { assert {} + types.value == types.value; }
  }

  lemma AllTypes(version: RosVersion, found: set<string>, lib: Library)
    requires Acyclic(lib)
    ensures AddTypes(found, UniqueTypes(version, [], lib)) == Some(found)
  {
    assert found + {} == found;
  }

  /******* expanded definition *******/

  // The sections are appended in the order of the type names, and the last line end is removed.
  method ComputeFullDefinition(p: ParsedMessage, g: Graph) returns (r: Option<string>)
    requires Acyclic(LibraryOf(g))
    ensures r == FullDefinition(p, g)
  {
    hide Acyclic, ReferencedTypes, Trim, Section;
    var types := GetUniqueFieldTypes(p, LibraryOf(g));
    if types.None? {
      return None;
    }
    var names := Sorted(types.value);
    var content := Trim(p.source) + "\n";
    ghost var whole := content + StoredSections(names, g);
    assert names[0..] == names;
    for i := 0 to |names|
      invariant content + StoredSections(names[i..], g) == whole && |content| > 0
    {
      assert names[i..][1..] == names[i + 1..];
      content := content + Section(FullName(g[names[i]].parsed), g[names[i]].definition);
    }
    assert names[|names|..] == [];
    assert content == whole;
    r := Some(content[..|content| - 1]);
  }

  /******* fixed length *******/

  method DetermineIfFixedLength(p: ParsedMessage, lib: Library) returns (r: Option<bool>)
    requires Acyclic(lib)
    ensures r == IsFixedLength(p, lib)
    decreases Level(p.fields, lib)
  {
    hide Acyclic, FullTypeName, Level;
    assert p.fields[0..] == p.fields;
    for i := 0 to |p.fields|
      invariant IsFixedLength(p, lib) == FixedLengthFields(p.fields[i..], lib)
    {
      assert p.fields[i..][1..] == p.fields[i + 1..];
      var f := p.fields[i];
      if IsDynamicArray(f.fieldType.arrayInfo) {
        return Some(false);
      }
      if f.fieldType.packageName.None? {
        if f.fieldType.fieldType == "string" {
          return Some(false);
        }
      } else {
        var key := FullTypeName(f);
        if key !in lib {
          return None;
        }
        LevelAbove(f, p.fields, lib);
        LevelOfEntry(key, lib);
        var fixed := DetermineIfFixedLength(lib[key], lib);
        if fixed.None? {
          return None;
        }
        if !fixed.value {
          return Some(false);
        }
      }
    }
    r := Some(true);
  }

  /******* resolution *******/

  // A message whose dependencies are known becomes a message file, or nothing if one of the
  // computations misses an entry.
  method ResolveMessage(md5: string -> string, p: ParsedMessage, g: Graph) returns (r: Option<MessageFile>)
    requires Acyclic(LibraryOf(g))
    ensures r == Resolve(md5, p, g)
  {
    hide Acyclic, Md5Sum, FullDefinition, IsFixedLength;
    var sum := ComputeMd5Sum(md5, p, LibraryOf(g));
    if sum.None? {
      return None;
    }
    var definition := ComputeFullDefinition(p, g);
    if definition.None? {
      return None;
    }
    var fixed := DetermineIfFixedLength(p, LibraryOf(g));
    if fixed.None? {
      return None;
    }
    r := Some(MessageFile(p, sum.value, definition.value, fixed.value));
  }
}
