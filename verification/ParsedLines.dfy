// What the parser reads from types and lines that are written out letter by letter, for both
// ROS versions: array and string bounds, packages, fields, constants and comments.
module ParsedLines {
  import opened Wrappers
  import opened Text
  import opened TextProperties
  import opened Messages
  import opened MessageParser
  import opened MessageGraph

  /******* decimal numbers *******/

  lemma {:induction false} ShownDigits(n: nat)
    ensures ShowNat(n) != "" && AllDigits(ShowNat(n)) && DigitsValue(ShowNat(n)) == n
  {
    if n >= 10 {
      var front := ShowNat(n / 10);
      ShownDigits(n / 10);
      assert ShowNat(n)[..|ShowNat(n)| - 1] == front;
    } else {
      assert ShowNat(n)[..0] == "";
    }
  }

  lemma DecimalIsRead(n: nat)
    requires n < 0x1_0000_0000_0000_0000
    ensures ParseUsize(ShowNat(n)) == Some(n)
    ensures '[' !in ShowNat(n) && ']' !in ShowNat(n) && '/' !in ShowNat(n)
    ensures ShowNat(n) != "" && !StartsWith(ShowNat(n), "<=")
  {
    ShownDigits(n);
    hide ShowNat, DigitsValue;
    assert ShowNat(n)[0] in ShowNat(n);
    assert "<="[0] == '<';
  }

  // A number of 64 bits or less may have a plus sign; a larger one is refused.
  lemma NumbersAreRead(n: nat)
    ensures n < 0x1_0000_0000_0000_0000 ==> ParseUsize("+" + ShowNat(n)) == Some(n)
    ensures n >= 0x1_0000_0000_0000_0000 ==> ParseUsize(ShowNat(n)) == None
  {
    ShownDigits(n);
    hide ShowNat, DigitsValue;
    assert ("+" + ShowNat(n))[1..] == ShowNat(n);
    assert ShowNat(n)[0] in ShowNat(n);
  }

  /******* types *******/

  function WithArray(element: Result<FieldType, ParseError>, a: ArrayType): Result<FieldType, ParseError> {
    if element.Ok? then Ok(element.value.(arrayInfo := a)) else element
  }

  lemma SizeIsRead(base: string, size: string, o: Origin)
    requires '[' !in base && ']' !in base && ']' !in size
    ensures var typeName := base + "[" + size + "]";
            ParseType(typeName, o) == match ParseArraySize(size, typeName)
                                      case Err(e) => Err(e)
                                      case Ok(a) => WithArray(ParseType(base, o), a)
  {
    hide ParseFieldType, ParseArraySize;
    var typeName := base + "[" + size + "]";
    assert typeName == base + ("[" + size + "]") == (base + "[" + size) + "]";
    IndexOfAppend(base, "[" + size + "]", '[');
    IndexOfAppend(base + "[" + size, "]", ']');
    assert typeName[|base| + 1..|base| + 1 + |size|] == size && typeName[..|base|] == base;
    IndexOfUnique(base, '[', |base|);
    IndexOfUnique(base, ']', |base|);
    if ParseArraySize(size, typeName).Ok? {
      ArrayChangesNothingElse(base, ParseArraySize(size, typeName).value, o);
    }
  }

  lemma ArrayChangesNothingElse(base: string, a: ArrayType, o: Origin)
    ensures ParseFieldType(base, a, o) == WithArray(ParseFieldType(base, NotArray, o), a)
  {
    hide SplitOn, IsIntrinsic, ParseBoundedString;
  }

  lemma NoArrayIsRead(base: string, o: Origin)
    requires '[' !in base && ']' !in base
    ensures ParseType(base, o).Ok? ==> ParseType(base, o).value.arrayInfo == NotArray
  {
    hide SplitOn, IsIntrinsic, ParseBoundedString, ParseArraySize;
    IndexOfUnique(base, '[', |base|);
    IndexOfUnique(base, ']', |base|);
  }

  // The three kinds of brackets after any element type, and none.
  lemma ArraysAreRead(base: string, n: nat, o: Origin)
    requires '[' !in base && ']' !in base && n < 0x1_0000_0000_0000_0000
    ensures var element := ParseType(base, o);
            && (element.Ok? ==> element.value.arrayInfo == NotArray)
            && ParseType(base + "[]", o) == WithArray(element, Unbounded)
            && ParseType(base + "[" + ShowNat(n) + "]", o) == WithArray(element, FixedLength(n))
            && ParseType(base + "[<=" + ShowNat(n) + "]", o) == WithArray(element, Bounded(n))
  {
    hide ParseType, ShowNat, ParseUsize;
    DecimalIsRead(n);
    NoArrayIsRead(base, o);
    SizeIsRead(base, "", o);
    assert base + "[" + "" + "]" == base + "[]";
    SizeIsRead(base, ShowNat(n), o);
    var bounded := "<=" + ShowNat(n);
    SizeIsRead(base, bounded, o);
    assert base + "[" + bounded + "]" == base + "[<=" + ShowNat(n) + "]";
    assert bounded[2..] == ShowNat(n) && bounded[..2] == "<=";
  }

  predicate SizeFits(a: ArrayType) {
    match a
    case FixedLength(n) => n < 0x1_0000_0000_0000_0000
    case Bounded(n) => n < 0x1_0000_0000_0000_0000
    case _ => true
  }

  // Printing a type and parsing it gives its array back.
  lemma ShownTypeIsRead(t: FieldType, o: Origin)
    requires '[' !in t.fieldType && ']' !in t.fieldType && SizeFits(t.arrayInfo)
    ensures ParseType(ShowFieldType(t), o) == WithArray(ParseType(t.fieldType, o), t.arrayInfo)
  {
    hide ParseType, ShowNat;
    match t.arrayInfo
    case FixedLength(n) => ArraysAreRead(t.fieldType, n, o);
    case Bounded(n) => ArraysAreRead(t.fieldType, n, o);
    case Unbounded => ArraysAreRead(t.fieldType, 0, o);
    case NotArray => ArraysAreRead(t.fieldType, 0, o);
  }

  // A bracket without its partner is an error.
  lemma LoneBracketIsRefused(typeName: string, o: Origin)
    requires '[' in typeName <==> ']' !in typeName
    ensures ParseType(typeName, o) == Err(MalformedType(typeName))
  {
    if '[' in typeName { IndexOfUnique(typeName, ']', |typeName|); } else { IndexOfUnique(typeName, '[', |typeName|); }
  }

  // The integers in four widths, with and without sign, and the two widths of floats.
  ghost predicate IsNumeric(t: string) {
    || (exists w <- ["8", "16", "32", "64"] :: t == "int" + w || t == "uint" + w)
    || (exists w <- ["32", "64"] :: t == "float" + w)
  }

  lemma NumericNames()
    ensures "int" + "8" == "int8" && "int" + "16" == "int16" && "int" + "32" == "int32" && "int" + "64" == "int64"
    ensures "uint" + "8" == "uint8" && "uint" + "16" == "uint16"
    ensures "uint" + "32" == "uint32" && "uint" + "64" == "uint64"
    ensures "float" + "32" == "float32" && "float" + "64" == "float64"
  {
  }

  lemma NumericIff(t: string)
    ensures IsNumeric(t) <==> || t == "int8" || t == "int16" || t == "int32" || t == "int64"
                              || t == "uint8" || t == "uint16" || t == "uint32" || t == "uint64"
                              || t == "float32" || t == "float64"
  {
    NumericNames();
    var widths, longer := ["8", "16", "32", "64"], ["32", "64"];
    assert widths[0] in widths && widths[1] in widths && widths[2] in widths && widths[3] in widths;
    assert longer[0] in longer && longer[1] in longer;
  }

  // The types that need no package. Wide strings are among them in ROS2 only.
  lemma IntrinsicNames(version: RosVersion, t: string)
    ensures IsIntrinsic(version, t) <==>
            || t in {"bool", "byte", "char", "string", "time", "duration"}
            || (t == "wstring" && version == Ros2)
            || IsNumeric(t)
  {
    NumericIff(t);
    hide IsNumeric;
    IsOneOf(t);
  }

  lemma IsOneOf(t: string)
    ensures IsPrimitive(t) <==>
            || t in {"bool", "byte", "char", "string", "time", "duration", "wstring"}
            || t == "int8" || t == "int16" || t == "int32" || t == "int64"
            || t == "uint8" || t == "uint16" || t == "uint32" || t == "uint64"
            || t == "float32" || t == "float64"
  {
  }

  predicate Unsigned(s: string) { '[' !in s && ']' !in s && '/' !in s }

  // A type of the file's own package, an intrinsic type, `Header`, and a type of another package.
  lemma NamesAreRead(package: string, name: string, o: Origin)
    requires Unsigned(package) && Unsigned(name)
    ensures !StartsWith(name, "string<=") ==>
              ParseType(name, o) == Ok(FieldType(
                if IsIntrinsic(OriginVersion(o), name) then None
                else if name == "Header" then Some("std_msgs") else Some(o.package),
                o.package, name, NotArray, None))
    ensures ParseType(package + "/" + name, o) == Ok(FieldType(Some(package), o.package, name, NotArray, None))
  {
    hide IsIntrinsic;
    var both := package + "/" + name;
    IndexOfUnique(name, '[', |name|);
    IndexOfUnique(name, ']', |name|);
    IndexOfUnique(both, '[', |both|);
    IndexOfUnique(both, ']', |both|);
    SplitOnFirst(name, '/', "");
    SplitOnFirst(package, '/', name);
  }

  lemma StringIsIntrinsic(version: RosVersion)
    ensures IsIntrinsic(version, "string")
  {
  }

  // A bounded string keeps its bound.
  lemma BoundedStringIsRead(n: nat, o: Origin)
    requires n < 0x1_0000_0000_0000_0000
    ensures ParseType("string<=" + ShowNat(n), o) == Ok(FieldType(None, o.package, "string", NotArray, Some(n)))
  {
    hide IsIntrinsic, ParseUsize, ShowNat;
    var typeName := "string<=" + ShowNat(n);
    StringIsIntrinsic(OriginVersion(o));
    DecimalIsRead(n);
    assert '[' !in "string<=" && ']' !in "string<=" && '/' !in "string<=";
    IndexOfUnique(typeName, '[', |typeName|);
    IndexOfUnique(typeName, ']', |typeName|);
    SplitOnFirst(typeName, '/', "");
    hide SplitOn, IndexOf;
    assert typeName[8..] == ShowNat(n) && typeName[..8] == "string<=";
  }

  /******* lines *******/

  // The types of string constants.
  predicate Stringy(typeName: string) {
    typeName == "string" || typeName == "wstring" || "string<=" <= typeName || "wstring<=" <= typeName
  }

  function FieldOf(t: Result<FieldType, ParseError>, name: string): Result<Entry, ParseError> {
    match t
    case Err(e) => Err(e)
    case Ok(fieldType) => Ok(Field(FieldInfo(fieldType, name)))
  }

  function ConstantOf(t: Result<FieldType, ParseError>, name: string, value: string): Result<Entry, ParseError> {
    match t
    case Err(e) => Err(e)
    case Ok(fieldType) => Ok(Constant(ConstantInfo(fieldType.fieldType, name, value)))
  }

  // The parts of a line that starts with a type and a blank.
  lemma TypeComesFirst(typeName: string, rest: string)
    requires IsToken(typeName) && rest != "" && !IsSpace(rest[0])
    ensures SplitTypeFromLine(typeName + " " + rest) == Some((typeName, rest))
    ensures TrimStart(typeName + " " + rest) == typeName + " " + rest
  {
    assert IsSpace(' ');
    hide IsSpace;
    var line := typeName + " " + rest;
    assert line == typeName + (" " + rest);
    FirstSpaceAppend(typeName, " " + rest);
    assert line[|typeName|..] == " " + rest && line[..|typeName|] == typeName;
    assert (" " + rest)[1..] == rest;
    assert line[0] == typeName[0] && typeName[0] in typeName;
    assert TrimStart(" " + rest) == TrimStart(rest) == rest;
  }

  lemma StrippedLine(typeName: string, rest: string)
    requires IsToken(typeName) && rest != "" && !IsSpace(rest[0])
    ensures StripCommentsRespectingStringConstants(typeName + " " + rest)
            == if Stringy(typeName) && '=' in rest then typeName + " " + rest else StripComments(typeName + " " + rest)
  {
    hide IsSpace, StripComments, SplitTypeFromLine, TrimStart;
    TypeComesFirst(typeName, rest);
  }

  lemma CommentIsCut(text: string, comment: string)
    requires '#' !in text
    ensures StripComments(text + "#" + comment) == text && StripComments(text) == text
  {
    assert text + "#" + comment == text + ("#" + comment);
    IndexOfAppend(text, "#" + comment, '#');
    assert (text + "#" + comment)[..|text|] == text;
    IndexOfUnique(text, '#', |text|);
    assert text[..|text|] == text;
  }

  lemma FieldText(typeName: string, name: string, o: Origin)
    requires IsToken(typeName) && IsToken(name) && '=' !in name
    ensures SplitTypeFromLine(typeName + " " + name) == Some((typeName, name))
    ensures Trim(typeName + " " + name + " ") == typeName + " " + name == Trim(typeName + " " + name)
    ensures ParseField(typeName + " " + name, o) == match ParseType(typeName, o)
                                                   case Err(e) => Err(e)
                                                   case Ok(t) => Ok(FieldInfo(t, name))
  {
    assert IsSpace(' ');
    hide IsSpace, ParseType, TrimStart, TrimEnd;
    var line := typeName + " " + name;
    assert name[0] in name && name[|name| - 1] in name && typeName[0] in typeName;
    TypeComesFirst(typeName, name);
    assert line[0] == typeName[0] && line[|line| - 1] == name[|name| - 1];
    TrimOfTrimmed(line);
    TrimBetweenSpaces("", line, " ");
    assert "" + line + " " == line + " ";
    FirstSpaceAppend(name, "");
    assert name + "" == name && name[..|name|] == name;
  }

  // A field line declares its field. A comment behind it is ignored, unless the field is a
  // string and the comment has an equal sign: then the line is read as a constant.
  lemma FieldsAreRead(typeName: string, name: string, comment: string, o: Origin)
    requires IsToken(typeName) && IsToken(name) && '#' !in typeName && '#' !in name && '=' !in name
    ensures ParseLine(typeName + " " + name, o) == FieldOf(ParseType(typeName, o), name)
    ensures ParseType(typeName, o).Ok? ==>
              (ParseLine(typeName + " " + name + " #" + comment, o) == FieldOf(ParseType(typeName, o), name)
               <==> !(Stringy(typeName) && '=' in comment))
  {
    hide IsSpace, ParseType, ParseLine, Stringy;
    PlainFieldIsRead(typeName, name, o);
    if Stringy(typeName) && '=' in comment {
      assert name[0] in name;
      CommentedField(typeName, name, comment);
      LineIsConstant(typeName, name + " #" + comment, o);
    } else {
      CommentedFieldIsRead(typeName, name, comment, o);
    }
  }

  lemma ReadAsField(raw: string, text: string, o: Origin)
    requires StripCommentsRespectingStringConstants(raw) == text && Trim(text) != ""
    requires SplitTypeFromLine(Trim(text)).Some? && '=' !in SplitTypeFromLine(Trim(text)).value.1
    ensures ParseLine(raw, o) == match ParseField(Trim(text), o)
                                 case Err(e) => Err(e)
                                 case Ok(f) => Ok(Field(f))
  {
    hide ParseConstantField, ParseField, Trim, SplitTypeFromLine, StripCommentsRespectingStringConstants;
  }

  lemma PlainFieldIsRead(typeName: string, name: string, o: Origin)
    requires IsToken(typeName) && IsToken(name) && '#' !in typeName && '#' !in name && '=' !in name
    ensures ParseLine(typeName + " " + name, o) == FieldOf(ParseType(typeName, o), name)
  {
    hide IsSpace, ParseType, ParseLine, ParseField, Trim, SplitTypeFromLine, StripComments, Stringy;
    hide StripCommentsRespectingStringConstants;
    var line := typeName + " " + name;
    assert name[0] in name;
    FieldText(typeName, name, o);
    StrippedLine(typeName, name);
    CommentIsCut(line, "");
    ReadAsField(line, line, o);
  }

  lemma CommentedField(typeName: string, name: string, comment: string)
    requires name != "" && '=' !in name
    ensures var rest := name + " #" + comment;
            && typeName + " " + rest == typeName + " " + name + " " + "#" + comment
            && typeName + " " + rest == typeName + " " + name + " #" + comment
            && rest != "" && rest[0] == name[0] && ('=' in rest <==> '=' in comment)
  {
    assert name + " #" + comment == name + (" #" + comment);
  }

  lemma CommentedFieldIsRead(typeName: string, name: string, comment: string, o: Origin)
    requires IsToken(typeName) && IsToken(name) && '#' !in typeName && '#' !in name && '=' !in name
    requires !(Stringy(typeName) && '=' in comment)
    ensures ParseLine(typeName + " " + name + " #" + comment, o) == FieldOf(ParseType(typeName, o), name)
  {
    hide IsSpace, ParseType, ParseLine, ParseField, Trim, SplitTypeFromLine, StripComments, Stringy;
    hide StripCommentsRespectingStringConstants;
    assert name[0] in name;
    var line := typeName + " " + name;
    FieldText(typeName, name, o);
    CommentedField(typeName, name, comment);
    StrippedLine(typeName, name + " #" + comment);
    CommentIsCut(line + " ", comment);
    ReadAsField(line + " #" + comment, line + " ", o);
  }

  // A line with an equal sign after its type is not read as a field.
  lemma LineIsConstant(typeName: string, rest: string, o: Origin)
    requires IsToken(typeName) && rest != "" && !IsSpace(rest[0]) && '=' in rest && Stringy(typeName)
    ensures ParseLine(typeName + " " + rest, o).Ok? ==> ParseLine(typeName + " " + rest, o).value.Constant?
  {
    hide IsSpace, ParseType, SplitTypeFromLine, StripComments, TrimStart;
    hide ParseField, ParseConstantField, IsStringConstantLine, StripCommentsRespectingStringConstants;
    var line := typeName + " " + rest;
    StrippedLine(typeName, rest);
    TypeComesFirst(typeName, rest);
    TrimEndPrefix(line);
    var rest' := TrimmedRest(typeName, rest);
    TypeComesFirst(typeName, rest');
  }

  lemma TrimEndKeeps(s: string)
    requires s != "" && !IsSpace(s[0])
    ensures TrimEnd(s) != "" && TrimEnd(s)[0] == s[0]
    ensures '=' in s <==> '=' in TrimEnd(s)
  {
    assert !IsSpace('=');
    hide IsSpace, TrimEnd;
    TrimEndPrefix(s);
    assert s[0] in s;
    var kept, spaces := TrimEnd(s), s[|TrimEnd(s)|..];
    assert s == kept + spaces;
    assert kept == "" ==> spaces == s;
  }

  // Trimming a line takes away whitespace at the end of its last part only.
  lemma TrimmedRest(typeName: string, rest: string) returns (rest': string)
    requires IsToken(typeName) && rest != "" && !IsSpace(rest[0])
    ensures Trim(typeName + " " + rest) == typeName + " " + rest' && rest' != "" && rest'[0] == rest[0]
    ensures '=' in rest <==> '=' in rest'
    ensures rest' == TrimEnd(rest)
  {
    hide IsSpace, TrimStart, TrimEnd;
    rest' := TrimEnd(rest);
    TrimEndKeeps(rest);
    TypeComesFirst(typeName, rest);
    TrimEndPrefix(rest);
    var shorter, spaces := typeName + " " + rest', rest[|rest'|..];
    assert typeName + " " + rest == shorter + spaces;
    TrimEndOfSpaces(shorter, spaces);
    assert shorter[|shorter| - 1] == rest'[|rest'| - 1];
    TrimEndStops(shorter);
  }

  // What follows the name in a field line is no part of it: in ROS2 it is the default value.
  lemma DefaultIsCut(typeName: string, name: string, more: string, o: Origin)
    requires IsToken(typeName) && IsToken(name) && '#' !in typeName && '#' !in name && '=' !in name
    requires '#' !in more && '=' !in more
    ensures ParseLine(typeName + " " + name + " " + more, o) == FieldOf(ParseType(typeName, o), name)
  {
    assert IsSpace(' ');
    hide IsSpace, ParseType, ParseLine, TrimStart, TrimEnd, Trim, SplitTypeFromLine, StripComments, Stringy;
    hide StripCommentsRespectingStringConstants;
    var rest := name + " " + more;
    var line := typeName + " " + rest;
    assert line == typeName + " " + name + " " + more && name[0] in name && rest[0] == name[0];
    StrippedLine(typeName, rest);
    CommentIsCut(line, "");
    var rest' := TrimmedRest(typeName, rest);
    TypeComesFirst(typeName, rest');
    NameIsKept(name, more, rest');
    ReadAsField(line, line, o);
  }

  lemma {:induction false} TrimEndBehind(front: string, tail: string)
    requires front != "" && !IsSpace(front[|front| - 1])
    ensures TrimEnd(front + tail) == front + TrimEnd(tail)
    decreases |tail|
  {
    hide IsSpace;
    var all := front + tail;
    if tail == "" {
      assert all == front;
    } else if IsSpace(tail[|tail| - 1]) {
      assert all[..|all| - 1] == front + tail[..|tail| - 1];
      TrimEndBehind(front, tail[..|tail| - 1]);
    }
  }

  lemma NameIsKept(name: string, more: string, rest: string)
    requires IsToken(name) && '=' !in name && '=' !in more && rest == TrimEnd(name + " " + more)
    ensures '=' !in rest && rest[..FirstSpace(rest)] == name
  {
    assert IsSpace(' ');
    hide IsSpace, TrimEnd, FirstSpace;
    assert name[|name| - 1] in name;
    var after := " " + more;
    assert name + " " + more == name + after;
    TrimEndBehind(name, after);
    TrimEndPrefix(after);
    FirstSpaceAppend(name, TrimEnd(after));
  }

  lemma TightEquation(typeName: string, left: string, value: string, o: Origin)
    requires IsToken(typeName) && left != "" && !IsSpace(left[0]) && '=' !in left
    ensures var line := typeName + " " + (left + "=" + value);
            && SplitTypeFromLine(line) == Some((typeName, left + "=" + value))
            && ParseConstantField(line, o) == match ParseType(typeName, o)
                                              case Err(e) => Err(e)
                                              case Ok(t) => Ok(ConstantInfo(t.fieldType, Trim(left), Trim(value)))
  {
    hide IsSpace, ParseType, SplitTypeFromLine, Trim;
    var rest := left + "=" + value;
    assert rest[0] == left[0];
    TypeComesFirst(typeName, rest);
    assert rest == left + ("=" + value);
    IndexOfAppend(left, "=" + value, '=');
    assert rest[..|left|] == left && rest[|left| + 1..] == value;
  }

  lemma EquationParts(typeName: string, name: string, gap: string, value: string)
    requires IsToken(name) && '=' !in name && forall c <- gap :: IsSpace(c)
    ensures var left := name + gap;
            && typeName + " " + name + gap + "=" + value == typeName + " " + (left + "=" + value)
            && left != "" && !IsSpace(left[0]) && '=' !in left && (left + "=" + value)[0] == left[0]
            && Trim(left) == name
  {
    assert !IsSpace('=');
    hide IsSpace, Trim;
    assert name[0] in name && name[|name| - 1] in name && '=' !in gap;
    TrimBetweenSpaces("", name, gap);
    assert "" + name + gap == name + gap;
  }

  // The equation of a constant, with its blanks.
  lemma EquationIsRead(typeName: string, name: string, gap: string, value: string, o: Origin)
    requires IsToken(typeName) && IsToken(name) && '=' !in name && forall c <- gap :: IsSpace(c)
    ensures var line := Trim(typeName + " " + name + gap + "=" + value);
            && line != "" && SplitTypeFromLine(line).Some? && '=' in SplitTypeFromLine(line).value.1
            && ParseConstantField(line, o) == match ParseType(typeName, o)
                                              case Err(e) => Err(e)
                                              case Ok(t) => Ok(ConstantInfo(t.fieldType, name, Trim(value)))
  {
    assert !IsSpace('=');
    hide IsSpace, ParseType, SplitTypeFromLine, ParseConstantField, Trim, TrimEnd;
    var left := name + gap;
    EquationParts(typeName, name, gap, value);
    var rest' := TrimmedRest(typeName, left + "=" + value);
    var value' := TrimmedEquation(left, value);
    TightEquation(typeName, left, value', o);
    assert '=' in left + "=" + value';
  }

  lemma TrimEndAfter(front: string, spaces: string)
    requires front != "" && !IsSpace(front[|front| - 1]) && forall c <- spaces :: IsSpace(c)
    ensures TrimEnd(front + spaces) == front
  {
    hide IsSpace, TrimEnd;
    TrimEndOfSpaces(front, spaces);
    TrimEndStops(front);
  }

  lemma TrimmedEquation(left: string, value: string) returns (value': string)
    ensures TrimEnd(left + "=" + value) == left + "=" + value' && Trim(value') == Trim(value)
  {
    assert !IsSpace('=');
    hide IsSpace, Trim, TrimEnd;
    var front := left + "=";
    var before, after := TrimShape(value);
    var middle := Trim(value);
    if middle == "" {
      value' := "";
      assert front + value == front + (before + after) && front + "" == front;
      TrimEndAfter(front, before + after);
      TrimOfTrimmed("");
    } else {
      value' := before + middle;
      assert front + value == (front + value') + after;
      assert (front + value')[|front + value'| - 1] == middle[|middle| - 1];
      TrimEndAfter(front + value', after);
      TrimBetweenSpaces(before, middle, "");
      assert before + middle + "" == value';
    }
  }

  lemma TrimEndStops(s: string)
    requires s != "" && !IsSpace(s[|s| - 1])
    ensures TrimEnd(s) == s
  {
  }

  // A constant line declares its constant. In the value of a string the comment sign is part
  // of the value, in any other value it starts a comment.
  lemma ConstantsAreRead(typeName: string, name: string, gap: string, value: string, comment: string, o: Origin)
    requires IsToken(typeName) && IsToken(name) && '#' !in typeName && '#' !in name && '=' !in name
    requires forall c <- gap :: IsSpace(c)
    ensures Stringy(typeName) || '#' !in value ==>
              ParseLine(typeName + " " + name + gap + "=" + value, o)
              == ConstantOf(ParseType(typeName, o), name, Trim(value))
    ensures !Stringy(typeName) && '#' !in value ==>
              ParseLine(typeName + " " + name + gap + "=" + value + "#" + comment, o)
              == ConstantOf(ParseType(typeName, o), name, Trim(value))
  {
    ValueIsRead(typeName, name, gap, value, o);
    if !Stringy(typeName) && '#' !in value {
      ValueIsCut(typeName, name, gap, value, comment, o);
    }
  }

  lemma ReadAsConstant(raw: string, text: string, o: Origin)
    requires StripCommentsRespectingStringConstants(raw) == text && Trim(text) != ""
    requires SplitTypeFromLine(Trim(text)).Some? && '=' in SplitTypeFromLine(Trim(text)).value.1
    ensures ParseLine(raw, o) == match ParseConstantField(Trim(text), o)
                                 case Err(e) => Err(e)
                                 case Ok(c) => Ok(Constant(c))
  {
    hide ParseConstantField, ParseField, Trim, SplitTypeFromLine, StripCommentsRespectingStringConstants;
  }

  lemma ValueIsRead(typeName: string, name: string, gap: string, value: string, o: Origin)
    requires IsToken(typeName) && IsToken(name) && '#' !in typeName && '#' !in name && '=' !in name
    requires forall c <- gap :: IsSpace(c)
    ensures Stringy(typeName) || '#' !in value ==>
              ParseLine(typeName + " " + name + gap + "=" + value, o)
              == ConstantOf(ParseType(typeName, o), name, Trim(value))
  {
    assert !IsSpace('#');
    hide IsSpace, ParseType, Trim, SplitTypeFromLine, StripComments, TrimStart, Stringy;
    hide ParseLine, ParseConstantField, StripCommentsRespectingStringConstants;
    if Stringy(typeName) || '#' !in value {
      var line := typeName + " " + name + gap + "=" + value;
      var left := name + gap;
      EquationParts(typeName, name, gap, value);
      assert '=' in left + "=" + value;
      StrippedLine(typeName, left + "=" + value);
      if '#' !in value {
        assert '#' !in gap;
        CommentIsCut(line, "");
      }
      EquationIsRead(typeName, name, gap, value, o);
      ReadAsConstant(line, line, o);
    }
  }

  lemma CommentedParts(typeName: string, rest: string, name: string, comment: string)
    requires name != "" && name <= rest
    ensures typeName + " " + rest + "#" + comment == typeName + " " + (rest + "#" + comment)
    ensures (rest + "#" + comment)[0] == name[0]
  {
  }

  lemma ValueIsCut(typeName: string, name: string, gap: string, value: string, comment: string, o: Origin)
    requires IsToken(typeName) && IsToken(name) && '#' !in typeName && '#' !in name && '=' !in name
    requires (forall c <- gap :: IsSpace(c)) && !Stringy(typeName) && '#' !in value
    ensures ParseLine(typeName + " " + name + gap + "=" + value + "#" + comment, o)
            == ConstantOf(ParseType(typeName, o), name, Trim(value))
  {
    assert !IsSpace('#');
    hide IsSpace, ParseType, Trim, SplitTypeFromLine, StripComments, TrimStart, Stringy;
    hide ParseLine, ParseConstantField, StripCommentsRespectingStringConstants;
    var line := typeName + " " + name + gap + "=" + value;
    CommentedParts(typeName, name + gap + "=" + value, name, comment);
    assert '#' !in gap && name[0] in name;
    EquationParts(typeName, name, gap, value);
    StrippedLine(typeName, name + gap + "=" + value + "#" + comment);
    CommentIsCut(line, comment);
    EquationIsRead(typeName, name, gap, value, o);
    ReadAsConstant(line + "#" + comment, line, o);
  }

  /******* whole files *******/

  // A line with nothing but a comment, if that.
  predicate IsIdle(line: string) { TrimStart(line) == "" || TrimStart(line)[0] == '#' }

  function Busy(lines: seq<string>): seq<string> {
    if lines == [] then [] else (if IsIdle(lines[0]) then [] else [lines[0]]) + Busy(lines[1..])
  }

  lemma IdleLineIsBlank(line: string, o: Origin)
    requires IsIdle(line)
    ensures ParseLine(line, o) == Ok(Blank)
  {
    assert !IsSpace('#');
    hide IsSpace;
    var start := TrimStart(line);
    TrimStartSuffix(line);
    var spaces := line[..|line| - |start|];
    assert line == spaces + start && '#' !in spaces;
    IdleIsNoConstant(start);
    hide IsStringConstantLine, TrimStart, TrimEnd;
    IndexOfAppend(spaces, start, '#');
    assert StripComments(line) == spaces by {
      if start == "" { assert line == spaces; } else { assert line[..|spaces|] == spaces; }
    }
    TrimBetweenSpaces(spaces, "", "");
    assert spaces + "" + "" == spaces;
  }

  lemma IdleIsNoConstant(start: string)
    requires start == "" || start[0] == '#'
    ensures !IsStringConstantLine(start)
  {
    assert !IsSpace('#');
    hide IsSpace;
    if SplitTypeFromLine(start).Some? {
      var typeName := SplitTypeFromLine(start).value.0;
      assert typeName[0] == '#';
      assert "string"[0] == 's' && "wstring"[0] == 'w' && "string<="[0] == 's' && "wstring<="[0] == 'w';
    }
  }

  // Idle lines do not matter.
  lemma {:induction false} BusyLinesDecide(lines: seq<string>, o: Origin)
    ensures ParseLines(lines, o) == ParseLines(Busy(lines), o)
  {
    hide ParseLine, IsIdle;
    if lines != [] {
      BusyLinesDecide(lines[1..], o);
      if IsIdle(lines[0]) {
        IdleLineIsBlank(lines[0], o);
        PrependNothing(ParseLines(lines[1..], o));
        assert [] + Busy(lines[1..]) == Busy(lines[1..]);
      } else {
        assert ([lines[0]] + Busy(lines[1..]))[1..] == Busy(lines[1..]);
      }
    }
  }
}
