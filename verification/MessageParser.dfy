// Parsing of message files (roslibrust_codegen/src/parse/mod.rs and
// roslibrust_codegen/src/parse/msg.rs). Default values of ROS2 fields are not kept.
module MessageParser {
  import opened Wrappers
  import opened Text
  import opened Messages

  // The last case stands for a closing bracket before the opening one, on which slicing fails.
  datatype ParseError =
    | NoFieldName(line: string)
    | NoEqualSign(line: string)
    | BadStringCapacity(typeName: string)
    | BadArraySize(typeName: string)
    | MalformedType(typeName: string)
    | BracketsReversed(typeName: string)

  // What a file says about itself apart from its contents.
  datatype Origin = Origin(name: string, package: string, version: Option<RosVersion>, directory: string)

  function OriginVersion(o: Origin): RosVersion {
    if o.version.Some? then o.version.value else Ros1
  }

  // The type before the first whitespace, and the rest of the line after it.
  function SplitTypeFromLine(line: string): Option<(string, string)> {
    var typeEnd := FirstSpace(line);
    if typeEnd == |line| then None
    else
      var remainder := TrimStart(line[typeEnd..]);
      if remainder == "" then None else Some((line[..typeEnd], remainder))
  }

  function StripComments(line: string): string { line[..IndexOf(line, '#')] }

  predicate IsStringConstantLine(line: string) {
    match SplitTypeFromLine(line)
    case None => false
    case Some((typeName, remainder)) =>
      (typeName == "string" || typeName == "wstring"
       || StartsWith(typeName, "string<=") || StartsWith(typeName, "wstring<="))
      && '=' in remainder
  }

  // In a string constant the comment sign belongs to the value.
  function StripCommentsRespectingStringConstants(line: string): string {
    if IsStringConstantLine(TrimStart(line)) then line else StripComments(line)
  }

  function ParseBoundedString(typeName: string): Result<(string, Option<nat>), ParseError> {
    if StartsWith(typeName, "string<=") then
      match ParseUsize(typeName[8..])
      case None => Err(BadStringCapacity(typeName))
      case Some(capacity) => Ok(("string", Some(capacity)))
    else
      Ok((typeName, None))
  }

  function ParseFieldType(typeName: string, arrayInfo: ArrayType, o: Origin): Result<FieldType, ParseError> {
    var items := SplitOn(typeName, '/');
    if |items| == 1 then
      match ParseBoundedString(items[0])
      case Err(e) => Err(e)
      case Ok((fieldType, capacity)) =>
        var packageName :=
          if IsIntrinsic(OriginVersion(o), fieldType) then None
          else if typeName == "Header" then Some("std_msgs")
          else Some(o.package);
        Ok(FieldType(packageName, o.package, fieldType, arrayInfo, capacity))
    else
      Ok(FieldType(Some(items[0]), o.package, items[1], arrayInfo, None))
  }

  function ParseArraySize(size: string, typeName: string): Result<ArrayType, ParseError> {
    if size == "" then Ok(Unbounded)
    else
      var bounded := StartsWith(size, "<=");
      match ParseUsize(if bounded then size[2..] else size)
      case None => Err(BadArraySize(typeName))
      case Some(n) => Ok(if bounded then Bounded(n) else FixedLength(n))
  }

  function ParseType(typeName: string, o: Origin): Result<FieldType, ParseError> {
    var open := IndexOf(typeName, '[');
    var close := IndexOf(typeName, ']');
    if open < |typeName| && close < |typeName| then
      if close < open then Err(BracketsReversed(typeName))
      else
        match ParseArraySize(typeName[open + 1..close], typeName)
        case Err(e) => Err(e)
        case Ok(arrayInfo) => ParseFieldType(typeName[..open], arrayInfo, o)
    else if open == |typeName| && close == |typeName| then
      ParseFieldType(typeName, NotArray, o)
    else
      Err(MalformedType(typeName))
  }

  function ParseField(line: string, o: Origin): Result<FieldInfo, ParseError> {
    match SplitTypeFromLine(line)
    case None => Err(NoFieldName(line))
    case Some((typeName, remainder)) =>
      match ParseType(typeName, o)
      case Err(e) => Err(e)
      case Ok(fieldType) => Ok(FieldInfo(fieldType, remainder[..FirstSpace(remainder)]))
  }

  function ParseConstantField(line: string, o: Origin): Result<ConstantInfo, ParseError> {
    match SplitTypeFromLine(line)
    case None => Err(NoFieldName(line))
    case Some((typeName, remainder)) =>
      var equal := IndexOf(remainder, '=');
      if equal == |remainder| then Err(NoEqualSign(line))
      else
        match ParseType(typeName, o)
        case Err(e) => Err(e)
        case Ok(fieldType) =>
          Ok(ConstantInfo(fieldType.fieldType, Trim(remainder[..equal]), Trim(remainder[equal + 1..])))
  }

  datatype Entry = Blank | Field(field: FieldInfo) | Constant(constant: ConstantInfo)

  function ParseLine(raw: string, o: Origin): Result<Entry, ParseError> {
    var line := Trim(StripCommentsRespectingStringConstants(raw));
    if line == "" then Ok(Blank)
    else
      match SplitTypeFromLine(line)
      case None => Err(NoFieldName(line))
      case Some((_, remainder)) =>
        if '=' in remainder then
          match ParseConstantField(line, o)
          case Err(e) => Err(e)
          case Ok(c) => Ok(Constant(c))
        else
          match ParseField(line, o)
          case Err(e) => Err(e)
          case Ok(f) => Ok(Field(f))
  }

  type Entries = (seq<FieldInfo>, seq<ConstantInfo>)

  function FieldsOf(entry: Entry): seq<FieldInfo> { if entry.Field? then [entry.field] else [] }

  function ConstantsOf(entry: Entry): seq<ConstantInfo> { if entry.Constant? then [entry.constant] else [] }

  // The fields and the constants of the lines, each in the order of the file.
  function ParseLines(lines: seq<string>, o: Origin): Result<Entries, ParseError> {
    if lines == [] then Ok(([], []))
    else
      match ParseLine(lines[0], o)
      case Err(e) => Err(e)
      case Ok(entry) => Prepend(FieldsOf(entry), ConstantsOf(entry), ParseLines(lines[1..], o))
  }

  function Prepend(fields: seq<FieldInfo>, constants: seq<ConstantInfo>, rest: Result<Entries, ParseError>)
    : Result<Entries, ParseError>
  {
    match rest
    case Err(e) => Err(e)
    case Ok((fs, cs)) => Ok((fields + fs, constants + cs))
  }

  lemma PrependTwice(fields: seq<FieldInfo>, constants: seq<ConstantInfo>,
                     fields': seq<FieldInfo>, constants': seq<ConstantInfo>, rest: Result<Entries, ParseError>)
    ensures Prepend(fields, constants, Prepend(fields', constants', rest))
            == Prepend(fields + fields', constants + constants', rest)
  {
    if rest.Ok? {
      assert fields + (fields' + rest.value.0) == fields + fields' + rest.value.0;
      assert constants + (constants' + rest.value.1) == constants + constants' + rest.value.1;
    }
  }

  lemma PrependNothing(rest: Result<Entries, ParseError>)
    ensures Prepend([], [], rest) == rest
  {
    if rest.Ok? {
      assert [] + rest.value.0 == rest.value.0 && [] + rest.value.1 == rest.value.1;
      assert rest.value == (rest.value.0, rest.value.1);
    }
  }

  function ParseMessage(data: string, o: Origin): Result<ParsedMessage, ParseError> {
    match ParseLines(Lines(data), o)
    case Err(e) => Err(e)
    case Ok((fields, constants)) =>
      Ok(ParsedMessage(o.name, o.package, fields, constants, o.version, data, o.directory))
  }

  method ParseRosMessageFile(data: string, o: Origin) returns (r: Result<ParsedMessage, ParseError>)
    ensures r == ParseMessage(data, o)
  {
    hide ParseLine;
    var fields, constants := [], [];
    var lines := Lines(data);
    assert lines[0..] == lines;
    PrependNothing(ParseLines(lines, o));
    for i := 0 to |lines|
      invariant ParseLines(lines, o) == Prepend(fields, constants, ParseLines(lines[i..], o))
    {
      assert lines[i..][1..] == lines[i + 1..];
      match ParseLine(lines[i], o) {
        case Err(e) => return Err(e);
        case Ok(entry) =>
          PrependTwice(fields, constants, FieldsOf(entry), ConstantsOf(entry), ParseLines(lines[i + 1..], o));
          match entry {
            case Blank => assert fields + [] == fields && constants + [] == constants;
            case Field(f) => fields := fields + [f]; assert constants + [] == constants;
            case Constant(c) => constants := constants + [c]; assert fields + [] == fields;
          }
      }
    }
    assert fields + [] == fields && constants + [] == constants;
    r := Ok(ParsedMessage(o.name, o.package, fields, constants, o.version, data, o.directory));
  }

  lemma ParsedTypeIsKnown(typeName: string, o: Origin)
    ensures var r := ParseType(typeName, o);
            r.Ok? && r.value.packageName.None? ==> IsIntrinsic(OriginVersion(o), r.value.fieldType)
  {
    hide IsIntrinsic, ParseUsize, SplitOn;
  }

  lemma {:induction false} ParsedFieldsAreKnown(lines: seq<string>, o: Origin)
    requires ParseLines(lines, o).Ok?
    ensures forall f <- ParseLines(lines, o).value.0 ::
              f.fieldType.packageName.None? ==> IsIntrinsic(OriginVersion(o), f.fieldType.fieldType)
  {
    hide IsIntrinsic, ParseType, Trim, StripCommentsRespectingStringConstants, SplitTypeFromLine;
    if lines != [] {
      ParsedFieldsAreKnown(lines[1..], o);
      forall t { ParsedTypeIsKnown(t, o); }
    }
  }

  // Every field of a parsed message without a package has an intrinsic type, so the hasher
  // never asks for a package that is not there.
  lemma ParsedPackagesAreKnown(data: string, o: Origin)
    requires ParseMessage(data, o).Ok?
    ensures PackagesKnown(ParseMessage(data, o).value)
  {
    hide ParseLines, Lines, IsIntrinsic;
    ParsedFieldsAreKnown(Lines(data), o);
  }
}
