// A concrete graph in which the printed definition cannot be hashed: `b/R` holds a `b/A`,
// which holds an `a/E`, and `a/E` is an empty file. The printed text ends with the line
// "MSG: a/E" without a line end, and reading it fails for want of a body.
module BareHeaderExample {
  import opened Wrappers
  import opened StringOrder
  import opened Text
  import opened TextProperties
  import opened Messages
  import opened Libraries
  import opened MessageParser
  import opened ParsedLines
  import opened MessageGraph
  import opened GraphProperties
  import opened Builtins
  import opened DefinitionMd5
  import opened CanonicalLines
  import opened HashAgreement
  import opened PrintedDefinition

  /******* files with one field *******/

  ghost predicate Simple(s: string) {
    IsToken(s) && '#' !in s && '=' !in s && '[' !in s && ']' !in s
  }

  lemma OneFieldSplit(typeName: string, name: string)
    requires IsToken(typeName) && IsToken(name)
    ensures var s := typeName + " " + name; IsTrimmed(s) && SplitTypeFromLine(s) == Some((typeName, name))
  {
    assert IsSpace(' ');
    hide IsSpace;
    var s := typeName + " " + name;
    assert typeName[0] in typeName && name[|name| - 1] in name && name[0] in name;
    assert s == typeName + (" " + name);
    FirstSpaceAppend(typeName, " " + name);
    assert s[..|typeName|] == typeName && s[|typeName|..] == " " + name;
    TrimStartOfSpaces(" ", name);
    TrimOfTrimmed(name);
    hide FirstSpace, TrimStart;
  }

  lemma OneFieldLine(typeName: string, name: string)
    requires Simple(typeName) && Simple(name)
    ensures var s := typeName + " " + name;
            && Lines(s) == [s] && StripCommentsRespectingStringConstants(s) == s && StripComments(s) == s
            && IsTrimmed(s) && Trim(s) == s && SplitTypeFromLine(s) == Some((typeName, name))
            && SplitWhitespace(s) == [typeName, name]
  {
    assert IsSpace('\n');
    hide IsSpace, IsStringConstantLine, SplitWhitespace, SplitTypeFromLine, Trim, Lines;
    var s := typeName + " " + name;
    assert forall c <- s :: c in typeName || c == ' ' || c in name;
    LinesOfLastLine(s);
    IndexOfUnique(s, '#', |s|);
    assert s[..|s|] == s;
    TwoWords(typeName, name);
    OneFieldSplit(typeName, name);
    TrimOfTrimmed(s);
  }

  lemma OneFieldMessage(typeName: string, name: string, o: Origin)
    requires Simple(typeName) && Simple(name) && ParseFieldType(typeName, NotArray, o).Ok?
    ensures ParseMessage(typeName + " " + name, o)
            == Ok(ParsedMessage(o.name, o.package, [FieldInfo(ParseFieldType(typeName, NotArray, o).value, name)], [],
                                o.version, typeName + " " + name, o.directory))
  {
    hide IsSpace, StripCommentsRespectingStringConstants, StripComments, Lines, Trim, SplitTypeFromLine, ParseFieldType;
    OneFieldLine(typeName, name);
    IndexOfUnique(typeName, '[', |typeName|);
    IndexOfUnique(typeName, ']', |typeName|);
    var s := typeName + " " + name;
    var f := FieldInfo(ParseFieldType(typeName, NotArray, o).value, name);
    assert ParseType(typeName, o) == ParseFieldType(typeName, NotArray, o);
    hide ParseType;
    FieldsAreRead(typeName, name, "", o);
    hide ParseLine;
    OneLine(s, f, o);
  }

  lemma OneLine(s: string, f: FieldInfo, o: Origin)
    requires ParseLine(s, o) == Ok(Field(f))
    ensures ParseLines([s], o) == Ok(([f], []))
  {
    hide ParseLine;
    var nothing: seq<ConstantInfo> := [];
    assert [s][1..] == [] && [f] + [] == [f] && nothing + nothing == nothing;
    assert ParseLines([s], o) == Prepend([f], nothing, ParseLines([], o));
  }

  lemma OneFieldCanonical(typeName: string, name: string)
    requires Simple(typeName) && Simple(name) && CanonicalField([typeName, name])
    ensures CanonicalSource(typeName + " " + name)
  {
    hide IsSpace, StripCommentsRespectingStringConstants, StripComments, Lines, Trim, SplitTypeFromLine, CanonicalField;
    hide IsStringConstantLine, CanonicalConstant, SplitWhitespace;
    OneFieldLine(typeName, name);
    var s := typeName + " " + name;
    assert '#' !in s;
    assert CanonicalLine(s);
  }

  /******* the three files *******/

  const E: ParsedMessage := ParsedMessage("E", "a", [], [], None, "", "msg")

  const A: ParsedMessage :=
    ParsedMessage("A", "b", [FieldInfo(FieldType(Some("a"), "b", "E", NotArray, None), "e")], [], None, "a/E e", "msg")

  const R: ParsedMessage :=
    ParsedMessage("R", "b", [FieldInfo(FieldType(Some("b"), "b", "A", NotArray, None), "f")], [], None, "A f", "msg")

  lemma ShortLacksSeparator(s: string)
    requires |s| < 81
    ensures !Contains(s, SEPARATOR)
  {
    assert |SEPARATOR| == 81;
  }

  lemma CanonicalE()
    ensures Canonical(E)
  {
    ShortLacksSeparator(Trim("") + "\n");
    hide Contains;
  }

  lemma Split()
    ensures SplitOn("a/E", '/') == ["a", "E"] && SplitOn("A", '/') == ["A"]
  {
    assert "a" + ['/'] + "E" == "a/E";
    SplitOnFirst("a", '/', "E");
    SplitOnFirst("E", '/', "");
    SplitOnFirst("A", '/', "");
  }

  lemma Types(o: Origin)
    requires o.package == "b" && o.version == None
    ensures ParseFieldType("a/E", NotArray, o) == Ok(FieldType(Some("a"), "b", "E", NotArray, None))
    ensures ParseFieldType("A", NotArray, o) == Ok(FieldType(Some("b"), "b", "A", NotArray, None))
  {
    Split();
    hide SplitOn;
  }

  lemma NoBrackets(t: string)
    requires '[' !in t
    ensures BaseOf(t) == t
  {
    IndexOfUnique(t, '[', |t|);
  }

  lemma CanonicalTypes()
    ensures CanonicalType("a/E") && CanonicalType("A")
  {
    Split();
    NoBrackets("a/E");
    NoBrackets("A");
    hide SplitOn, BaseOf;
  }

  lemma ShorterLacks(s: string, t: string)
    requires |s| < |t| || (|s| == |t| && s != t)
    ensures !Contains(s, t)
  {
    assert s[0..|s|] == s;
  }

  lemma CanonicalFields()
    ensures CanonicalField(["a/E", "e"]) && CanonicalField(["A", "f"])
  {
    CanonicalTypes();
    ShorterLacks("e", "a/E");
    ShorterLacks("f", "A");
    hide CanonicalType, Contains;
  }

  lemma OneFieldFile(p: ParsedMessage, typeName: string, name: string)
    requires Simple(typeName) && Simple(name) && CanonicalField([typeName, name]) && p.version == None
    requires p.source == typeName + " " + name && |p.source| < 80 && p.constants == []
    requires ParseFieldType(typeName, NotArray, OriginOf(p)).Ok?
    requires p.fields == [FieldInfo(ParseFieldType(typeName, NotArray, OriginOf(p)).value, name)]
    requires NoSpaces(FullName(p)) && '=' !in FullName(p) && '/' !in p.package
    ensures Canonical(p)
  {
    hide Simple, CanonicalField, CanonicalSource, ParseMessage, ParseFieldType, NoSpaces, Contains, Trim;
    OneFieldMessage(typeName, name, OriginOf(p));
    OneFieldCanonical(typeName, name);
    OneFieldLine(typeName, name);
    ShortLacksSeparator(p.source + "\n");
  }

  lemma SimpleNames()
    ensures Simple("a/E") && Simple("e") && Simple("A") && Simple("f")
  {
  }

  lemma FullNames()
    ensures FullName(A) == "b/A" && FullName(R) == "b/R" && FullName(E) == "a/E"
    ensures NoSpaces("b/A") && NoSpaces("b/R") && '=' !in "b/A" && '=' !in "b/R" && '/' !in "b"
  {
  }

  lemma CanonicalA(p: ParsedMessage)
    requires p == A
    ensures Canonical(p)
  {
    hide CanonicalField, ParseFieldType, Canonical, Simple, NoSpaces;
    SimpleNames();
    FullNames();
    Types(OriginOf(p));
    CanonicalFields();
    assert p.source == "a/E" + " " + "e";
    OneFieldFile(p, "a/E", "e");
  }

  lemma CanonicalR(p: ParsedMessage)
    requires p == R
    ensures Canonical(p)
  {
    hide CanonicalField, ParseFieldType, Canonical, Simple, NoSpaces;
    SimpleNames();
    FullNames();
    Types(OriginOf(p));
    CanonicalFields();
    assert p.source == "A" + " " + "f";
    OneFieldFile(p, "A", "f");
  }

  /******* the graph *******/

  lemma NotPrimitive()
    ensures !IsPrimitive("E") && !IsPrimitive("A") && !IsPrimitive("R")
    ensures !NamedAfterPrimitive("a/E") && !NamedAfterPrimitive("b/A") && !NamedAfterPrimitive("b/R")
  {
    assert !IsPrimitive("E") && !IsPrimitive("A") && !IsPrimitive("R");
    hide IsPrimitive, NamedAfterPrimitive;
    NotNamedAfterPrimitive("a", "E");
    NotNamedAfterPrimitive("b", "A");
    NotNamedAfterPrimitive("b", "R");
    assert "a" + "/" + "E" == "a/E" && "b" + "/" + "A" == "b/A" && "b" + "/" + "R" == "b/R";
  }

  lemma Example(md5: string -> string) returns (g: Graph)
    ensures Consistent(md5, g) && g.Keys == {"a/E", "b/A", "b/R"}
    ensures g["a/E"].parsed == E && g["b/A"].parsed == A && g["b/R"].parsed == R
  {
    hide Consistent, PlainLibrary, NamedAfterPrimitive, IsPrimitive;
    FullNames();
    NotPrimitive();
    EmptyGraphIsConsistent(md5);
    g := AddPlainMessage(md5, map[], E);
    assert FullTypeName(A.fields[0]) == "a/E" && FullTypeName(R.fields[0]) == "b/A";
    g := AddPlainMessage(md5, g, A);
    g := AddPlainMessage(md5, g, R);
  }

  lemma OneReference(fields: seq<FieldInfo>, lib: Library)
    requires Acyclic(lib) && |fields| == 1 && !IsIntrinsic(Ros1, fields[0].fieldType.fieldType)
    requires FullTypeName(fields[0]) in lib
    ensures var key := FullTypeName(fields[0]);
            UniqueTypes(Ros1, fields, lib)
            == match ReferencedTypes(lib[key], lib) case None => None case Some(sub) => Some({key} + sub)
  {
    hide Acyclic, IsIntrinsic, FullTypeName;
    LevelOfEntry(FullTypeName(fields[0]), lib);
    assert UniqueTypes(Ros1, fields[1..], lib) == Some({});
    assert forall sub: set<string>, key :: {key} + sub + {} == {key} + sub;
  }

  lemma SortedNames()
    ensures Sorted({}) == [] && Sorted({"a/E"}) == ["a/E"] && Sorted({"a/E", "b/A"}) == ["a/E", "b/A"]
  {
    hide Sorted;
    assert Less("a/E", "b/A");
    SortedUnique(Sorted({}), []);
    SortedUnique(Sorted({"a/E"}), ["a/E"]);
    SortedUnique(Sorted({"a/E", "b/A"}), ["a/E", "b/A"]);
  }

  lemma ReferencesInExample(md5: string -> string, g: Graph)
    requires Consistent(md5, g) && g.Keys == {"a/E", "b/A", "b/R"}
    requires g["a/E"].parsed == E && g["b/A"].parsed == A && g["b/R"].parsed == R
    ensures References("a/E", g) == [] && References("b/A", g) == ["a/E"] && References("b/R", g) == ["a/E", "b/A"]
  {
    hide Acyclic, IsPrimitive, Resolve, Sorted;
    NotPrimitive();
    SortedNames();
    var lib := LibraryOf(g);
    assert FullTypeName(A.fields[0]) == "a/E" && FullTypeName(R.fields[0]) == "b/A";
    assert ReferencedTypes(lib["a/E"], lib) == Some({});
    hide UniqueTypes, FullTypeName;
    OneReference(A.fields, lib);
    OneReference(R.fields, lib);
    assert {"a/E"} + {} == {"a/E"} && {"b/A"} + {"a/E"} == {"a/E", "b/A"};
  }

  lemma ExampleIsCanonical(md5: string -> string, g: Graph)
    requires Consistent(md5, g) && g.Keys == {"a/E", "b/A", "b/R"}
    requires g["a/E"].parsed == E && g["b/A"].parsed == A && g["b/R"].parsed == R
    ensures CanonicalEntry("b/A", g) && !EndsInBareHeader("b/A", g)
    ensures CanonicalEntry("b/R", g) && EndsInBareHeader("b/R", g)
  {
    hide Consistent, Canonical, References;
    ConsistentIsAcyclic(md5, g);
    ReferencesInExample(md5, g);
    CanonicalE();
    CanonicalA(g["b/A"].parsed);
    CanonicalR(g["b/R"].parsed);
    assert PrintedDefinition.Blank("a/E", g) by { assert Trim("") == ""; }
  }

  // In one graph of canonical messages, the printed definition of `b/A` hashes like its
  // structure, and that of `b/R` does not hash at all.
  lemma CanonicalTextMayFailToHash(md5: string -> string) returns (g: Graph)
    requires HashesAreWords(md5)
    ensures Consistent(md5, g) && CanonicalEntry("b/A", g) && CanonicalEntry("b/R", g)
    ensures AcyclicDefinition("b/A", g["b/A"].definition) && AcyclicDefinition("b/R", g["b/R"].definition)
    ensures FromDefinition(md5, "b/A", g["b/A"].definition) == Ok(g["b/A"].md5sum)
    ensures FromDefinition(md5, "b/R", g["b/R"].definition).Err?
            && FromDefinition(md5, "b/R", g["b/R"].definition).error.NoBody?
  {
    hide Consistent, Canonical, References, HashesAreWords, FromDefinition, AcyclicDefinition, EndsInBareHeader,
         CanonicalEntry;
    g := Example(md5);
    ExampleIsCanonical(md5, g);
    ConsistentIsAcyclic(md5, g);
    assert g["b/A"].parsed.fields != [] && g["b/R"].parsed.fields != [];
    PrintedTextHashesLikeStructure(md5, "b/A", g);
    PrintedTextHashesLikeStructure(md5, "b/R", g);
  }

  // The assumption on md5 sums can be met.
  lemma HashesCanBeWords()
    ensures HashesAreWords(_ => seq(32, _ => 'e'))
  {
  }
}
