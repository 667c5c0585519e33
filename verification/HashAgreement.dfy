// The two md5 recursions on one library: over the parsed structure, as in code generation, and
// over cleaned texts, as for definitions received from the network. For canonical ROS1
// messages they give the same hash.
module HashAgreement {
  import opened Wrappers
  import opened Text
  import opened TextProperties
  import opened Messages
  import opened Libraries
  import opened MessageParser
  import opened MessageGraph
  import opened DefinitionMd5
  import opened Cleaning
  import opened CanonicalLines

  function OriginOf(p: ParsedMessage): Origin { Origin(p.name, p.package, p.version, p.directory) }

  // A ROS1 message that was parsed from its own source, whose lines are canonical and whose
  // text and name do not clash with the format of expanded definitions.
  ghost predicate Canonical(p: ParsedMessage) {
    && VersionOf(p) == Ros1
    && ParseMessage(p.source, OriginOf(p)) == Ok(p)
    && CanonicalSource(p.source)
    && !Contains(Trim(p.source) + "\n", SEPARATOR)
    && NoSpaces(FullName(p)) && '=' !in FullName(p) && '/' !in p.package
  }

  /******* the lines of a source *******/

  function ConstantTexts(constants: seq<ConstantInfo>): seq<string> {
    if constants == [] then [] else [ConstantText(constants[0])] + ConstantTexts(constants[1..])
  }

  ghost predicate DeclareFields(lines: seq<string>, fields: seq<FieldInfo>, o: Origin) {
    |lines| == |fields| && forall i | 0 <= i < |lines| :: DeclaresField(lines[i], fields[i], o)
  }

  // One cleaned line and what the parser makes of it.
  lemma OneLineAgrees(line: string, entry: Entry, o: Origin)
    requires Says(line, entry, o)
    ensures ConstantLine(line) == ConstantTexts(ConstantsOf(entry))
    ensures forall c <- ConstantsOf(entry) :: PlainConstant(c)
    ensures DeclareFields(ParamLine(line), FieldsOf(entry), o)
  {
    hide DeclaresField, PlainConstant;
    if entry.Constant? {
      ConstantTextIsConstantLine(entry.constant);
      hide ConstantText;
      assert [entry.constant][1..] == [];
      assert ConstantTexts([entry.constant]) == [ConstantText(entry.constant)] + ConstantTexts([]);
    }
  }

  lemma ConstantTextsAppend(first: seq<ConstantInfo>, rest: seq<ConstantInfo>)
    requires |first| <= 1
    ensures ConstantTexts(first + rest) == ConstantTexts(first) + ConstantTexts(rest)
  {
    hide ConstantText;
    if first == [] {
      assert first + rest == rest;
    } else {
      assert (first + rest)[1..] == rest && first[1..] == [];
    }
  }

  // The first line and the rest, in both readings.
  lemma FirstOfLines(lines: seq<string>, o: Origin)
    requires lines != [] && ParseLines(lines, o).Ok?
    ensures ParseLine(lines[0], o).Ok? && ParseLines(lines[1..], o).Ok?
    ensures var entry, rest := ParseLine(lines[0], o).value, ParseLines(lines[1..], o).value;
            && ParseLines(lines, o).value.0 == FieldsOf(entry) + rest.0
            && ParseLines(lines, o).value.1 == ConstantsOf(entry) + rest.1
            && |ConstantsOf(entry)| <= 1
    ensures CleanConstants(lines) == ConstantLine(CleanLine(lines[0])) + CleanConstants(lines[1..])
    ensures CleanParams(lines) == ParamLine(CleanLine(lines[0])) + CleanParams(lines[1..])
  {
    hide CleanLine, ParseLine, ConstantLine, ParamLine;
  }

  lemma NoLinesAgree(o: Origin)
    ensures CleanConstants([]) == [] && CleanParams([]) == [] && ConstantTexts([]) == []
    ensures ParseLines([], o) == Ok(([], [])) && DeclareFields([], [], o)
  {
  }

  lemma DeclareFieldsAppend(lines: seq<string>, fields: seq<FieldInfo>, lines': seq<string>, fields': seq<FieldInfo>,
                            o: Origin)
    requires DeclareFields(lines, fields, o) && DeclareFields(lines', fields', o)
    ensures DeclareFields(lines + lines', fields + fields', o)
  {
    hide DeclaresField;
  }

  lemma {:induction false} LinesAgree(lines: seq<string>, o: Origin)
    requires (forall line <- lines :: CanonicalLine(line)) && ParseLines(lines, o).Ok?
    ensures CleanConstants(lines) == ConstantTexts(ParseLines(lines, o).value.1)
    ensures forall c <- ParseLines(lines, o).value.1 :: PlainConstant(c)
    ensures DeclareFields(CleanParams(lines), ParseLines(lines, o).value.0, o)
    decreases |lines|
  {
    hide CleanLine, ParseLine, CanonicalLine, DeclareFields, PlainConstant, Says, ParseLines, CleanConstants;
    hide CleanParams, ConstantTexts, FieldsOf, ConstantsOf, ConstantLine, ParamLine;
    NoLinesAgree(o);
    if lines != [] {
      var first, rest := lines[0], lines[1..];
      assert first in lines && forall line <- rest :: line in lines;
      FirstOfLines(lines, o);
      LineAgrees(first, o);
      LinesAgree(rest, o);
      var entry := ParseLine(first, o).value;
      var (fields, constants) := ParseLines(rest, o).value;
      OneLineAgrees(CleanLine(first), entry, o);
      ConstantTextsAppend(ConstantsOf(entry), constants);
      DeclareFieldsAppend(ParamLine(CleanLine(first)), FieldsOf(entry), CleanParams(rest), fields, o);
    }
  }

  lemma ConstantTextIsConstantLine(c: ConstantInfo)
    ensures ConstantLine(ConstantText(c)) == [ConstantText(c)] && ParamLine(ConstantText(c)) == []
  {
    assert ConstantText(c) == (c.constantType + " " + c.constantName) + "=" + c.constantValue;
    assert ConstantText(c)[|c.constantType + " " + c.constantName|] == '=';
  }

  // The cleaned source of a canonical message lists its constants and then its fields.
  lemma CleanedSource(p: ParsedMessage) returns (params: seq<string>)
    requires Canonical(p)
    ensures Lines(Clean(p.source)) == ConstantTexts(p.constants) + params
    ensures DeclareFields(params, p.fields, OriginOf(p))
    ensures forall c <- p.constants :: PlainConstant(c)
    ensures Clean(p.source) == "" <==> p.constants == [] && p.fields == []
  {
    hide CleanConstants, CleanParams, DeclaresField, PlainConstant, CanonicalLine, Contains, Trim, NoSpaces, ParseLines;
    LinesAgree(Lines(p.source), OriginOf(p));
    LinesOfClean(p.source);
    CleanEmptyIff(p.source);
    params := CleanParams(Lines(p.source));
  }

  /******* the type of a field line *******/

  lemma SplitOnParts(s: string, c: char)
    ensures SplitOn(s, c)[0] == s[..IndexOf(s, c)]
    ensures |SplitOn(s, c)| == 1 ==> SplitOn(s, c) == [s] && c !in s
    ensures |SplitOn(s, c)| == 2 ==> s == SplitOn(s, c)[0] + [c] + SplitOn(s, c)[1] && c in s
  {
    var i := IndexOf(s, c);
    if i < |s| {
      var rest := s[i + 1..];
      assert s == s[..i] + [c] + rest;
      assert SplitOn(s, c) == [s[..i]] + SplitOn(rest, c);
      assert |SplitOn(rest, c)| == 1 ==> SplitOn(rest, c)[0] == rest by {
        assert IndexOf(rest, c) < |rest| ==> |SplitOn(rest, c)| >= 2;
      }
    } else {
      assert s[..i] == s;
    }
  }

  lemma IntrinsicIsBase(t: string)
    requires t != "char"
    ensures IsIntrinsic(Ros1, t) <==> IsBaseType(t)
  {
  }

  lemma NotBoundedString(t: string)
    requires '=' !in t
    ensures ParseBoundedString(t) == Ok((t, None))
  {
    assert "string<="[7] == '=';
  }

  lemma FieldTypeAgrees(base: string, arrayInfo: ArrayType, o: Origin, t: FieldType)
    requires OriginVersion(o) == Ros1 && '=' !in base && base != "char"
    requires var items := SplitOn(base, '/'); |items| == 1 || (|items| == 2 && !IsIntrinsic(Ros1, items[1]))
    requires ParseFieldType(base, arrayInfo, o) == Ok(t)
    ensures t.arrayInfo == arrayInfo
    ensures IsIntrinsic(Ros1, t.fieldType) <==> IsBaseType(base)
    ensures IsBaseType(base) ==> t.fieldType == base
    ensures !IsBaseType(base) ==> t.packageName.Some?
    ensures !IsBaseType(base) ==>
              t.packageName.value + "/" + t.fieldType
              == if base == "Header" then "std_msgs/Header" else if '/' !in base then o.package + "/" + base else base
  {
    hide IsIntrinsic, IsBaseType, SplitOn;
    SplitOnParts(base, '/');
    NotBoundedString(base);
    IntrinsicIsBase(base);
    if IsBaseType(base) { BaseTypeHasNoSigns(base); }
  }

  lemma ArraySizeAgrees(size: string, typeName: string)
    requires CanonicalSize(size)
    ensures ParseArraySize(size, typeName)
            == Ok(if size == "" then Unbounded else FixedLength(DigitsValue(size)))
    ensures size != "" ==> ShowNat(DigitsValue(size)) == size
    ensures ']' !in size
  {
    hide DigitsValue;
    if size != "" {
      ShowDigitsValue(size);
      assert size[0] in size;
    }
  }

  lemma ArrayTypeAgrees(base: string, size: string, o: Origin)
    requires '[' !in base && ']' !in base && CanonicalSize(size)
    ensures var arrayInfo := if size == "" then Unbounded else FixedLength(DigitsValue(size));
            ParseType(base + "[" + size + "]", o) == ParseFieldType(base, arrayInfo, o)
  {
    hide ParseFieldType, CanonicalSize, DigitsValue, ShowNat, ParseArraySize;
    var typeName := base + "[" + size + "]";
    assert typeName == base + ("[" + size + "]") == (base + "[" + size) + "]";
    ArraySizeAgrees(size, typeName);
    IndexOfAppend(base, "[" + size + "]", '[');
    IndexOfAppend(base + "[" + size, "]", ']');
    assert typeName[|base| + 1..|base| + 1 + |size|] == size && typeName[..|base|] == base;
  }

  lemma NoArrayTypeAgrees(base: string, o: Origin)
    requires '[' !in base && ParseType(base, o).Ok?
    ensures ParseType(base, o) == ParseFieldType(base, NotArray, o)
  {
    hide ParseFieldType, ParseArraySize;
    IndexOfUnique(base, '[', |base|);
  }

  // What a canonical type token parses to, and that it is printed back as it was written.
  lemma TypeAgrees(typeName: string, o: Origin, t: FieldType)
    requires CanonicalType(typeName) && OriginVersion(o) == Ros1 && ParseType(typeName, o) == Ok(t)
    ensures var base := BaseOf(typeName);
            && ParseFieldType(base, t.arrayInfo, o) == Ok(t)
            && (t.fieldType == base ==> ShowFieldType(t) == typeName)
  {
    hide IsIntrinsic, SplitOn, ParseFieldType, ParseArraySize, DigitsValue, ShowNat, ParseType;
    var base := BaseOf(typeName);
    var suffix := typeName[|base|..];
    assert typeName == base + suffix;
    if suffix == "" {
      assert base == typeName;
      NoArrayTypeAgrees(base, o);
      ParsedArrayInfo(base, NotArray, o);
    } else {
      var size := suffix[1..|suffix| - 1];
      assert suffix == "[" + size + "]";
      assert typeName == base + "[" + size + "]";
      ArraySizeAgrees(size, typeName);
      ClosedAfterOpen(typeName, o);
      ArrayTypeAgrees(base, size, o);
      ParsedArrayInfo(base, if size == "" then Unbounded else FixedLength(DigitsValue(size)), o);
    }
  }

  lemma ClosedAfterOpen(typeName: string, o: Origin)
    requires ParseType(typeName, o).Ok?
    ensures ']' !in BaseOf(typeName)
  {
    hide ParseFieldType, ParseArraySize;
    var open, close := IndexOf(typeName, '['), IndexOf(typeName, ']');
    assert close >= open;
    assert forall c <- typeName[..open] :: c in typeName[..close];
  }

  lemma ParsedArrayInfo(base: string, arrayInfo: ArrayType, o: Origin)
    ensures ParseFieldType(base, arrayInfo, o).Ok? ==> ParseFieldType(base, arrayInfo, o).value.arrayInfo == arrayInfo
  {
  }

  // The two readings of a field line: the key that is looked up, and the text that is hashed.
  lemma FieldLineAgrees(line: string, f: FieldInfo, o: Origin)
    requires OriginVersion(o) == Ros1 && DeclaresField(line, f, o)
    ensures |SplitWhitespace(line)| == 2 && SplitWhitespace(line)[0] != ""
    ensures IsIntrinsic(Ros1, f.fieldType.fieldType) ==>
              Dependency(line, o.package) == None && line == ShowFieldType(f.fieldType) + " " + f.fieldName
    ensures !IsIntrinsic(Ros1, f.fieldType.fieldType) ==>
              Dependency(line, o.package) == Some(FullTypeName(f))
    ensures !IsIntrinsic(Ros1, f.fieldType.fieldType) ==>
              forall hash :: Replace(line, SplitWhitespace(line)[0], hash) == hash + " " + f.fieldName
  {
    hide IsIntrinsic, IsBaseType, SplitOn, ParseFieldType, ParseType, SplitWhitespace, Contains, ShowFieldType, Replace;
    var words := SplitWhitespace(line);
    assert words[0] in words && words[1] in words;
    var base := BaseOf(words[0]);
    SplitOnParts(words[0], '[');
    TypeAgrees(words[0], o, f.fieldType);
    FieldTypeAgrees(base, f.fieldType.arrayInfo, o, f.fieldType);
    if !IsIntrinsic(Ros1, f.fieldType.fieldType) {
      forall hash ensures Replace(line, words[0], hash) == hash + " " + f.fieldName {
        ReplaceType(words[0], words[1], hash);
      }
    }
  }

  lemma OccursAfterBlank(name: string, token: string, i: nat)
    requires IsToken(token) && OccursAt(" " + name, token, i)
    ensures Contains(name, token)
  {
    assert IsSpace(' ');
    hide IsSpace;
    var s := " " + name;
    assert s[i..i + |token|][0] == s[i] && token[0] in token;
    assert i > 0;
    assert name[i - 1..i - 1 + |token|] == s[i..i + |token|];
    assert OccursAt(name, token, i - 1);
  }

  lemma NotAfterBlank(name: string, token: string)
    requires IsToken(token) && !Contains(name, token)
    ensures !Contains(" " + name, token)
  {
    hide IsSpace, OccursAt;
    if Contains(" " + name, token) {
      var i :| 0 <= i <= |" " + name| && OccursAt(" " + name, token, i);
      OccursAfterBlank(name, token, i);
    }
  }

  lemma ReplaceType(typeName: string, name: string, hash: string)
    requires IsToken(typeName) && !Contains(name, typeName)
    ensures Replace(typeName + " " + name, typeName, hash) == hash + " " + name
  {
    hide IsSpace, NoSpaces, Replace, Contains, SplitStr;
    assert typeName + " " + name == "" + typeName + (" " + name);
    ReplaceFirst("", typeName, " " + name, hash);
    NotAfterBlank(name, typeName);
    ReplaceNothing(" " + name, typeName, hash);
    assert "" + hash + (" " + name) == hash + " " + name;
  }

  /******* the recursions *******/

  // Each text is the cleaned source of the message of that name, and the texts are closed
  // under field references.
  ghost predicate Transcribed(defs: Sections, lib: Library) {
    forall n <- defs.Keys ::
      && n in lib && FullName(lib[n]) == n && Canonical(lib[n]) && defs[n] == Clean(lib[n].source)
      && Referenced(lib[n].fields, defs)
  }

  ghost predicate Referenced(fields: seq<FieldInfo>, defs: Sections) {
    forall f <- fields :: IsIntrinsic(Ros1, f.fieldType.fieldType) || FullTypeName(f) in defs
  }

  ghost predicate HashesAreWords(md5: string -> string) {
    forall s :: IsToken(md5(s))
  }

  lemma PackageOfName(p: ParsedMessage)
    requires '/' !in p.package
    ensures PackageOf(FullName(p)) == p.package
  {
    SplitOnParts(FullName(p), '/');
    assert FullName(p)[..|p.package|] == p.package;
    IndexOfUnique(FullName(p), '/', |p.package|);
  }

  lemma ConstantHasNoDependency(c: ConstantInfo, package: string)
    requires PlainConstant(c)
    ensures |SplitWhitespace(ConstantText(c))| >= 2 && Dependency(ConstantText(c), package) == None
  {
    assert IsSpace(' ');
    hide IsSpace, SplitWhitespace, IsBaseType;
    var rest := c.constantName + "=" + c.constantValue;
    BaseTypeHasNoSigns(c.constantType);
    assert ConstantText(c) == c.constantType + (" " + rest);
    WordsOfSpacedToken(c.constantType, " " + rest);
    assert c.constantName[0] in c.constantName;
    assert !IsSpace((" " + rest)[1]);
    if SplitWhitespace(" " + rest) == [] { SpacesOnly(" " + rest); }
    SplitOnParts(c.constantType, '[');
    IndexOfUnique(c.constantType, '[', |c.constantType|);
  }

  lemma LineDependency(line: string, p: ParsedMessage, params: seq<string>)
    requires Canonical(p) && line in ConstantTexts(p.constants) + params
    requires DeclareFields(params, p.fields, OriginOf(p)) && forall c <- p.constants :: PlainConstant(c)
    ensures Dependency(line, p.package) == None
            || exists f <- p.fields :: !IsIntrinsic(Ros1, f.fieldType.fieldType)
                                       && Dependency(line, p.package) == Some(FullTypeName(f))
  {
    hide DeclaresField, PlainConstant, Dependency, IsIntrinsic, Canonical;
    if line in params {
      var i :| 0 <= i < |params| && params[i] == line;
      CanonicalVersion(p);
      FieldLineAgrees(line, p.fields[i], OriginOf(p));
      assert p.fields[i] in p.fields;
    } else {
      var c := TextOfConstant(p.constants, line);
      ConstantHasNoDependency(c, p.package);
    }
  }

  lemma CanonicalVersion(p: ParsedMessage)
    requires Canonical(p)
    ensures OriginVersion(OriginOf(p)) == Ros1 && '/' !in p.package
  {
  }

  lemma {:induction false} TextOfConstant(constants: seq<ConstantInfo>, line: string) returns (c: ConstantInfo)
    requires line in ConstantTexts(constants)
    ensures c in constants && line == ConstantText(c)
  {
    hide ConstantText;
    if line == ConstantText(constants[0]) {
      c := constants[0];
    } else {
      c := TextOfConstant(constants[1..], line);
    }
  }

  lemma SectionLinesBelow(n: string, defs: Sections, lib: Library, rank: map<string, nat>)
    requires Acyclic(lib) && Transcribed(defs, lib) && n in defs
    requires rank.Keys == defs.Keys && forall m <- defs.Keys :: rank[m] == Rank(m, lib)
    ensures LinesBelow(Lines(defs[n]), PackageOf(n), defs, rank, rank[n])
  {
    hide Dependency, Canonical, Acyclic, PackageOf, Clean, IsIntrinsic, DeclaresField, PlainConstant;
    var p := lib[n];
    CanonicalVersion(p);
    PackageOfName(p);
    var params := CleanedSource(p);
    assert Below(lib, SomeRank(lib), p.fields, Rank(n, lib));
    forall line <- Lines(defs[n]) | Dependency(line, p.package).Some?
      ensures var d := Dependency(line, p.package).value; d in defs && d in rank ==> rank[d] < rank[n]
    {
      LineDependency(line, p, params);
    }
  }

  lemma TranscribedIsAcyclic(defs: Sections, lib: Library)
    requires Acyclic(lib) && Transcribed(defs, lib)
    ensures AcyclicSections(defs)
  {
    hide LinesBelow, Acyclic, Rank, Canonical;
    var rank := map n | n in defs :: Rank(n, lib);
    forall n <- defs.Keys ensures LinesBelow(Lines(defs[n]), PackageOf(n), defs, rank, rank[n]) {
      SectionLinesBelow(n, defs, lib, rank);
    }
    RankedIsAcyclic(defs, rank);
  }

  lemma ConstantLineHash(md5: string -> string, c: ConstantInfo, rest: seq<string>, n: string, defs: Sections)
    requires Ends(n, defs) && n in defs && PlainConstant(c) && LinesOf([ConstantText(c)] + rest, n, defs)
    ensures LinesOf(rest, n, defs)
    ensures HashLines(md5, [ConstantText(c)] + rest, n, defs)
            == After(ConstantText(c) + "\n", HashLines(md5, rest, n, defs))
  {
    hide Ends, Dependency, PackageOf, PlainConstant, ConstantText, SplitWhitespace;
    var lines := [ConstantText(c)] + rest;
    assert lines[1..] == rest && lines[0] == ConstantText(c);
    ConstantHasNoDependency(c, PackageOf(n));
  }

  lemma AfterTwice(a: string, b: string, rest: Result<string, Md5Error>)
    ensures After(a, After(b, rest)) == After(a + b, rest)
  {
    if rest.Ok? { assert a + (b + rest.value) == a + b + rest.value; }
  }

  lemma {:induction false} HashConstants(md5: string -> string, constants: seq<ConstantInfo>, params: seq<string>,
                                         n: string, defs: Sections)
    requires Ends(n, defs) && n in defs && LinesOf(ConstantTexts(constants) + params, n, defs)
    requires forall c <- constants :: PlainConstant(c)
    ensures LinesOf(params, n, defs)
    ensures HashLines(md5, ConstantTexts(constants) + params, n, defs)
            == After(ConstantLines(constants), HashLines(md5, params, n, defs))
  {
    hide Ends, LinesOf, PlainConstant, ConstantText, HashLines, After;
    if constants == [] {
      assert ConstantTexts(constants) + params == params;
      AfterNothing(HashLines(md5, params, n, defs));
    } else {
      var rest := ConstantTexts(constants[1..]) + params;
      assert ConstantTexts(constants) + params == [ConstantText(constants[0])] + rest;
      ConstantLineHash(md5, constants[0], rest, n, defs);
      HashConstants(md5, constants[1..], params, n, defs);
      ConstantLinesStart(constants);
      AfterTwice(ConstantText(constants[0]) + "\n", ConstantLines(constants[1..]), HashLines(md5, params, n, defs));
    }
  }

  lemma ConstantLinesStart(constants: seq<ConstantInfo>)
    requires constants != []
    ensures ConstantLines(constants) == ConstantText(constants[0]) + "\n" + ConstantLines(constants[1..])
  {
  }

  predicate StartsDense(s: string) { s == "" || !IsSpace(s[0]) }

  lemma {:induction false} HashFields(md5: string -> string, params: seq<string>, fields: seq<FieldInfo>,
                                      n: string, defs: Sections, lib: Library)
    requires HashesAreWords(md5) && Acyclic(lib) && Transcribed(defs, lib) && AcyclicSections(defs)
    requires n in defs && LinesOf(params, n, defs)
    requires DeclareFields(params, fields, OriginOf(lib[n])) && Referenced(fields, defs)
    requires Below(lib, SomeRank(lib), fields, Rank(n, lib))
    ensures FieldLines(md5, Ros1, fields, lib).Some?
    ensures HashLines(md5, params, n, defs) == Ok(FieldLines(md5, Ros1, fields, lib).value)
    ensures StartsDense(FieldLines(md5, Ros1, fields, lib).value)
    decreases Rank(n, lib), 0, |fields|
  {
    hide Acyclic, Ends, Canonical, Dependency, PackageOf, DeclaresField, IsIntrinsic, Clean;
    hide SplitWhitespace, IsSpace, ShowFieldType, Replace, FullTypeName, Level;
    if fields != [] {
      var f, line := fields[0], params[0];
      HashFields(md5, params[1..], fields[1..], n, defs, lib);
      CanonicalVersion(lib[n]);
      PackageOfName(lib[n]);
      FieldLineAgrees(line, f, OriginOf(lib[n]));
      DeclaredLineIsDense(line, f, OriginOf(lib[n]));
      if !IsIntrinsic(Ros1, f.fieldType.fieldType) {
        var key := FullTypeName(f);
        assert f in fields && key in lib;
        HashAgrees(md5, key, defs, lib);
        var hash := Hash(md5, key, defs).value;
        assert IsToken(hash) && hash[0] in hash;
      }
    }
  }

  lemma DeclaredLineIsDense(line: string, f: FieldInfo, o: Origin)
    requires DeclaresField(line, f, o)
    ensures line != "" && !IsSpace(line[0])
  {
    hide IsSpace, SplitWhitespace, CanonicalField, ParseType;
    var words := SplitWhitespace(line);
    CanonicalFieldIsPair(words);
    assert words[0] in words && words[0][0] in words[0];
  }

  lemma HashedContent(content: string)
    requires StartsDense(content)
    ensures TrimEnd(Trim(content)) == TrimEnd(content)
  {
    hide IsSpace;
    TrimEndPrefix(content);
  }

  lemma ConstantsAreDense(constants: seq<ConstantInfo>, rest: string)
    requires (forall c <- constants :: PlainConstant(c)) && StartsDense(rest)
    ensures StartsDense(ConstantLines(constants) + rest)
  {
    hide IsSpace, IsBaseType;
    if constants != [] {
      var c := constants[0];
      assert PlainConstant(c);
      BaseTypeHasNoSigns(c.constantType);
      assert c.constantType[0] in c.constantType;
      assert ConstantLines(constants)[0] == c.constantType[0];
    } else {
      assert ConstantLines(constants) + rest == rest;
    }
  }

  // The text of a message hashes to the md5 sum of its structure.
  lemma {:induction false} HashAgrees(md5: string -> string, n: string, defs: Sections, lib: Library)
    requires HashesAreWords(md5) && Acyclic(lib) && Transcribed(defs, lib) && AcyclicSections(defs) && n in defs
    ensures Md5Sum(md5, lib[n], lib).Some?
    ensures Hash(md5, n, defs) == Ok(Md5Sum(md5, lib[n], lib).value)
    ensures IsToken(Md5Sum(md5, lib[n], lib).value)
    decreases Rank(n, lib), 1
  {
    hide Acyclic, Ends, Canonical, PackageOf, DeclaresField, PlainConstant, Clean, IsSpace, TrimEnd, Trim, Level;
    hide LinesOf, NoSpaces;
    var p := lib[n];
    var params := CleanedSource(p);
    SectionLines(n, defs);
    HashConstants(md5, p.constants, params, n, defs);
    assert Below(lib, SomeRank(lib), p.fields, Rank(n, lib));
    HashFields(md5, params, p.fields, n, defs, lib);
    CanonicalVersion(p);
    assert VersionOf(p) == Ros1;
    var lines := FieldLines(md5, Ros1, p.fields, lib).value;
    ConstantsAreDense(p.constants, lines);
    HashedContent(ConstantLines(p.constants) + lines);
  }
}
