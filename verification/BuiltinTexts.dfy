// The texts of the three messages that every resolution starts from
// (roslibrust_codegen/src/ros2_builtin_interfaces.rs): apart from comments and empty lines they
// hold the lines below, and they parse to the messages of `Builtins`.
module BuiltinTexts {
  import opened Wrappers
  import opened Text
  import opened Messages
  import opened MessageParser
  import opened ParsedLines
  import opened Builtins

  const TIME_LINES: seq<string> := ["int32 sec", "uint32 nanosec"]

  const EVENT_LINES: seq<string> := [
    "uint8 REQUEST_SENT = 0",
    "uint8 REQUEST_RECEIVED = 1",
    "uint8 RESPONSE_SENT = 2",
    "uint8 RESPONSE_RECEIVED = 3",
    "uint8 event_type",
    "builtin_interfaces/Time stamp",
    "char[16] client_gid",
    "int64 sequence_number"]

  function BuiltinOrigin(package: string, name: string): Origin { Origin(name, package, Some(Ros2), "msg") }

  predicate IsPlainChar(c: char) {
    'a' <= c <= 'z' || 'A' <= c <= 'Z' || '0' <= c <= '9' || c == '_' || c == '/' || c == '[' || c == ']'
  }

  predicate IsPlainText(s: string) { s != "" && forall i | 0 <= i < |s| :: IsPlainChar(s[i]) }

  lemma PlainIsToken(s: string)
    requires IsPlainText(s)
    ensures IsToken(s) && '#' !in s && '=' !in s
  {
  }

  lemma FieldLine(typeName: string, name: string, o: Origin)
    requires IsPlainText(typeName) && IsPlainText(name)
    ensures ParseLine(typeName + " " + name, o) == FieldOf(ParseType(typeName, o), name)
  {
    hide IsPlainText, ParseType, ParseLine, Stringy;
    PlainIsToken(typeName);
    PlainIsToken(name);
    FieldsAreRead(typeName, name, "", o);
  }

  lemma PrimitiveLine(typeName: string, name: string, o: Origin)
    requires IsPlainText(typeName) && IsPlainText(name) && IsPrimitive(typeName) && o.version == Some(Ros2)
    requires Unsigned(typeName) && !StartsWith(typeName, "string<=")
    ensures ParseLine(typeName + " " + name, o)
            == Ok(Field(FieldInfo(FieldType(None, o.package, typeName, NotArray, None), name)))
  {
    hide IsPlainText, IsPrimitive, ParseType, ParseLine;
    FieldLine(typeName, name, o);
    NamesAreRead("", typeName, o);
  }

  lemma SecondsArePrimitive()
    ensures IsPrimitive("int32") && IsPrimitive("uint32")
  {
  }

  lemma SecondsArePlainTexts()
    ensures IsPlainText("int32") && IsPlainText("sec") && IsPlainText("uint32") && IsPlainText("nanosec")
    ensures Unsigned("int32") && Unsigned("uint32")
    ensures !StartsWith("int32", "string<=") && !StartsWith("uint32", "string<=")
    ensures "int32" + " " + "sec" == "int32 sec" && "uint32" + " " + "nanosec" == "uint32 nanosec"
  {
    assert "int32"[0] == 'i' && "uint32"[0] == 'u' && "string<="[0] == 's';
  }

  // Lines that are constants first and fields afterwards.
  lemma {:induction false} ConstantsThenFields(lines: seq<string>, constants: seq<ConstantInfo>,
                                               fields: seq<FieldInfo>, o: Origin)
    requires |lines| == |constants| + |fields|
    requires forall i | 0 <= i < |constants| :: ParseLine(lines[i], o) == Ok(Constant(constants[i]))
    requires forall i | 0 <= i < |fields| :: ParseLine(lines[|constants| + i], o) == Ok(Field(fields[i]))
    ensures ParseLines(lines, o) == Ok((fields, constants))
    decreases |lines|
  {
    hide ParseLine;
    if constants != [] {
      ConstantsThenFields(lines[1..], constants[1..], fields, o);
      assert constants == [constants[0]] + constants[1..] && [] + fields == fields;
    } else if fields != [] {
      assert ParseLine(lines[0], o) == Ok(Field(fields[0]));
      assert forall i | 0 <= i < |fields| - 1 :: lines[1..][i] == lines[|constants| + (i + 1)];
      ConstantsThenFields(lines[1..], constants, fields[1..], o);
      assert fields == [fields[0]] + fields[1..] && [] + constants == constants;
    }
  }

  // Seconds and nanoseconds are what a text with these two lines declares.
  lemma SecondsAreRead(text: string, name: string)
    requires Busy(Lines(text)) == TIME_LINES
    ensures ParseMessage(text, BuiltinOrigin("builtin_interfaces", name))
            == Ok(Builtin("builtin_interfaces", name, SECONDS, [], text))
  {
    hide ParseLine, ParseLines, Busy, Lines, IsPlainText, IsPrimitive;
    var o := BuiltinOrigin("builtin_interfaces", name);
    SecondsArePrimitive();
    SecondsArePlainTexts();
    PrimitiveLine("int32", "sec", o);
    PrimitiveLine("uint32", "nanosec", o);
    BusyLinesDecide(Lines(text), o);
    ConstantsThenFields(TIME_LINES, [], SECONDS, o);
  }

  lemma ConstantText(name: string, value: string)
    ensures "uint8" + " " + name + " " + "=" + (" " + value) == "uint8 " + name + " = " + value
  {
  }

  lemma CountIsNoString()
    ensures !Stringy("uint8")
  {
    assert "uint8"[0] == 'u' && "string"[0] == 's' && "string<="[0] == 's' && "wstring<="[0] == 'w';
  }

  lemma ConstantLine(name: string, value: string, o: Origin)
    requires IsPlainText(name) && o.version == Some(Ros2) && IsPlainText(value)
    ensures ParseLine("uint8 " + name + " = " + value, o) == Ok(Constant(ConstantInfo("uint8", name, value)))
  {
    assert IsSpace(' ');
    hide IsPlainText, IsPrimitive, IsSpace, ParseType, ParseLine, Trim, Stringy;
    EventWords();
    EventPrimitives();
    hide StartsWith, Unsigned;
    PlainIsToken("uint8");
    PlainIsToken(name);
    PlainIsToken(value);
    NamesAreRead("", "uint8", o);
    CountIsNoString();
    ValueIsRead("uint8", name, " ", " " + value, o);
    ValueTrimmed(value);
    ConstantText(name, value);
  }

  lemma ValueTrimmed(value: string)
    requires IsToken(value)
    ensures Trim(" " + value) == value
  {
    assert IsSpace(' ');
    assert value[0] in value && value[|value| - 1] in value;
    hide IsSpace;
    assert (" " + value)[1..] == value;
    assert TrimStart(" " + value) == TrimStart(value) == value;
  }

  lemma EventWords()
    ensures IsPlainText("uint8") && Unsigned("uint8") && !StartsWith("uint8", "string<=")
    ensures IsPlainText("int64") && Unsigned("int64") && !StartsWith("int64", "string<=")
    ensures Unsigned("char") && !StartsWith("char", "string<=")
  {
    assert "uint8"[0] == 'u' && "int64"[0] == 'i' && "char"[0] == 'c' && "string<="[0] == 's';
  }

  lemma EventPrimitives()
    ensures IsPrimitive("uint8") && IsPrimitive("int64") && IsPrimitive("char")
  {
  }

  lemma EventFieldNames()
    ensures IsPlainText("event_type") && IsPlainText("stamp") && IsPlainText("client_gid")
    ensures IsPlainText("sequence_number")
  {
  }

  lemma EventTypes()
    ensures IsPlainText("char[16]") && IsPlainText("builtin_interfaces/Time")
    ensures Unsigned("builtin_interfaces") && Unsigned("Time")
  {
  }

  lemma EventConstantNames()
    ensures IsPlainText("REQUEST_SENT") && IsPlainText("REQUEST_RECEIVED") && IsPlainText("RESPONSE_SENT")
    ensures IsPlainText("RESPONSE_RECEIVED")
    ensures IsPlainText("0") && IsPlainText("1") && IsPlainText("2") && IsPlainText("3")
  {
  }

  lemma SixteenIsRead(o: Origin)
    requires o.version == Some(Ros2)
    ensures ParseType("char[16]", o) == Ok(FieldType(None, o.package, "char", FixedLength(16), None))
  {
    hide IsPlainText, IsPrimitive, ParseType;
    EventWords();
    EventPrimitives();
    assert ShowNat(16) == "16" by { assert ShowNat(1) == "1"; }
    hide ShowNat;
    NamesAreRead("", "char", o);
    ArraysAreRead("char", 16, o);
    assert "char" + "[" + "16" + "]" == "char[16]";
  }

  lemma EventFieldTexts()
    ensures "uint8" + " " + "event_type" == EVENT_LINES[4]
    ensures "builtin_interfaces/Time" + " " + "stamp" == EVENT_LINES[5]
    ensures "char[16]" + " " + "client_gid" == EVENT_LINES[6]
    ensures "int64" + " " + "sequence_number" == EVENT_LINES[7]
    ensures "builtin_interfaces" + "/" + "Time" == "builtin_interfaces/Time"
  {
  }

  lemma EventConstantTexts()
    ensures "uint8 " + "REQUEST_SENT" + " = " + "0" == EVENT_LINES[0]
    ensures "uint8 " + "REQUEST_RECEIVED" + " = " + "1" == EVENT_LINES[1]
    ensures "uint8 " + "RESPONSE_SENT" + " = " + "2" == EVENT_LINES[2]
    ensures "uint8 " + "RESPONSE_RECEIVED" + " = " + "3" == EVENT_LINES[3]
  {
  }

  lemma EventConstantsAreRead(o: Origin)
    requires o.version == Some(Ros2)
    ensures forall i | 0 <= i < 4 :: ParseLine(EVENT_LINES[i], o) == Ok(Constant(EVENT_CONSTANTS[i]))
  {
    hide ParseLine, IsPlainText;
    EventConstantNames();
    EventConstantTexts();
    ConstantLine("REQUEST_SENT", "0", o);
    ConstantLine("REQUEST_RECEIVED", "1", o);
    ConstantLine("RESPONSE_SENT", "2", o);
    ConstantLine("RESPONSE_RECEIVED", "3", o);
  }

  lemma EventFieldsAreRead()
    ensures var o := BuiltinOrigin("service_msgs", "ServiceEventInfo");
            forall i | 0 <= i < 4 :: ParseLine(EVENT_LINES[4 + i], o) == Ok(Field(EVENT_FIELDS[i]))
  {
    hide ParseLine, ParseType, IsPlainText, IsPrimitive;
    var o := BuiltinOrigin("service_msgs", "ServiceEventInfo");
    EventWords();
    EventPrimitives();
    EventFieldNames();
    EventTypes();
    EventFieldTexts();
    PrimitiveLine("uint8", "event_type", o);
    PrimitiveLine("int64", "sequence_number", o);
    SixteenIsRead(o);
    FieldLine("char[16]", "client_gid", o);
    NamesAreRead("builtin_interfaces", "Time", o);
    FieldLine("builtin_interfaces/Time", "stamp", o);
  }

  // The event message is what a text with these eight lines declares.
  lemma EventIsRead(text: string)
    requires Busy(Lines(text)) == EVENT_LINES
    ensures ParseMessage(text, BuiltinOrigin("service_msgs", "ServiceEventInfo")) == Ok(ServiceEventInfo(text))
  {
    hide ParseLine, ParseLines, Busy, Lines;
    var o := BuiltinOrigin("service_msgs", "ServiceEventInfo");
    EventConstantsAreRead(o);
    EventFieldsAreRead();
    BusyLinesDecide(Lines(text), o);
    ConstantsThenFields(EVENT_LINES, EVENT_CONSTANTS, EVENT_FIELDS, o);
  }
}
