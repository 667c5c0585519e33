// Connection headers survive being printed and parsed, and their parse does not depend on the
// order of the fields or on fields that are recognised but ignored.
module TcprosHeaders {
  import opened Wrappers
  import opened Bytes
  import opened Tcpros

  function AssignAll(h: ConnectionHeader, fields: seq<Str>): ConnectionHeader
    decreases |fields|
  {
    if fields == [] then h else AssignAll(Assign(h, fields[0]), fields[1..])
  }

  // A field that its length prefix can describe and whose bytes are a Rust string.
  predicate Sendable(field: Str) { IsUtf8(field) && |field| < U32_RANGE }

  /******* parsing a list of fields *******/

  lemma PrefixedParts(field: Str, rest: seq<Byte>)
    requires |field| < U32_RANGE
    ensures var data := Prefixed(field) + rest;
            && |data| == 4 + |field| + |rest| && FromLittleEndian(data[..4]) == |field|
            && data[4..4 + |field|] == field && data[4 + |field|..] == rest
  {
    hide LittleEndian, FromLittleEndian;
    LittleEndianRoundTrip(|field|);
    var data := Prefixed(field) + rest;
    assert data[..4] == LittleEndian(|field|);
  }

  // A field whose bytes need not be a Rust string.
  lemma TakeFramed(field: Str, rest: seq<Byte>)
    requires |field| < U32_RANGE
    ensures TakeField(Prefixed(field) + rest) == if IsUtf8(field) then Ok((field, rest)) else Err(InvalidData)
  {
    hide IsUtf8, Prefixed, FromLittleEndian;
    PrefixedParts(field, rest);
  }

  lemma TakePrefixed(field: Str, rest: seq<Byte>)
    requires Sendable(field)
    ensures TakeField(Prefixed(field) + rest) == Ok((field, rest))
  {
    TakeFramed(field, rest);
  }

  lemma {:induction false} ParseConcat(fields: seq<Str>, h: ConnectionHeader)
    requires forall f <- fields :: Sendable(f)
    ensures ParseFields(Concat(fields), h) == Ok(AssignAll(h, fields))
    decreases |fields|
  {
    hide Sendable, Prefixed, Assign, TakeField;
    if fields != [] {
      assert fields[0] in fields && forall f <- fields[1..] :: f in fields;
      TakePrefixed(fields[0], Concat(fields[1..]));
      assert Prefixed(fields[0]) != [] by { assert |Prefixed(fields[0])| >= 4 by { PrefixedLength(fields[0]); } }
      ParseConcat(fields[1..], Assign(h, fields[0]));
    }
  }

  lemma PrefixedLength(field: Str)
    ensures |Prefixed(field)| == 4 + |field|
  {
  }

  lemma {:induction false} FieldFits(fields: seq<Str>, f: Str)
    requires f in fields
    ensures |f| <= |Concat(fields)|
    decreases |fields|
  {
    hide Prefixed;
    PrefixedLength(fields[0]);
    if f != fields[0] { FieldFits(fields[1..], f); }
  }

  /******* a named field is assigned to its slot *******/

  lemma FirstEqualsUnique(s: Str, i: nat)
    requires i < |s| && s[i] == EQUALS && EQUALS !in s[..i]
    ensures FirstEquals(s) == i
  {
    var j := FirstEquals(s);
    assert forall k | 0 <= k < i :: s[..i][k] == s[k] != EQUALS;
    assert forall k | 0 <= k < j :: s[..j][k] == s[k] != EQUALS;
  }

  lemma AsciiLacksEquals(name: string)
    requires IsAscii(name) && '=' !in name
    ensures EQUALS !in Ascii(name) && IsUtf8(Ascii(name))
  {
    hide IsUtf8;
    assert forall i | 0 <= i < |name| :: name[i] in name;
    AsciiIsUtf8(Ascii(name));
  }

  lemma NamedField(name: string, value: Str)
    requires IsAscii(name) && '=' !in name
    ensures FirstEquals(Ascii(name) + [EQUALS] + value) == |name|
  {
    hide IsUtf8;
    AsciiLacksEquals(name);
    var field := Ascii(name) + [EQUALS] + value;
    assert field[..|name|] == Ascii(name);
    FirstEqualsUnique(field, |name|);
  }

  lemma AsciiInjective(a: string, b: string)
    requires IsAscii(a) && IsAscii(b) && Ascii(a) == Ascii(b)
    ensures a == b
  {
    assert |a| == |b|;
    assert forall i | 0 <= i < |a| :: Ascii(a)[i] == Ascii(b)[i];
  }

  // The prefix of a slot fits a named field only if the names are the same.
  lemma PrefixDecidesName(slot: Slot, name: string, value: Str)
    requires IsAscii(name) && '=' !in name && Prefix(slot) <= Ascii(name) + [EQUALS] + value
    ensures SlotName(slot) == name
  {
    hide SlotName, Ascii;
    var field := Ascii(name) + [EQUALS] + value;
    NamedField(name, value);
    var rest := field[|Prefix(slot)|..];
    assert field == Ascii(SlotName(slot)) + [EQUALS] + rest;
    NamedField(SlotName(slot), rest);
    assert field[..|name|] == Ascii(name) && field[..|name|] == Ascii(SlotName(slot));
    AsciiInjective(SlotName(slot), name);
  }

  lemma SlotNamesDiffer(a: Slot, b: Slot)
    requires SlotName(a) == SlotName(b)
    ensures a == b
  {
    assert SlotName(a)[0] == SlotName(b)[0];
  }

  lemma {:induction false} MatchOwnSlot(slot: Slot, value: Str, slots: seq<Slot>)
    requires slot in slots
    ensures MatchSlot(Field(slot, value), slots) == Some(slot)
    decreases |slots|
  {
    hide SlotName, Ascii;
    if Prefix(slots[0]) <= Field(slot, value) {
      PrefixDecidesName(slots[0], SlotName(slot), value);
      SlotNamesDiffer(slots[0], slot);
    } else {
      assert slot != slots[0];
      MatchOwnSlot(slot, value, slots[1..]);
    }
  }

  lemma EverySlotIsListed(slot: Slot)
    ensures slot in SLOTS
  {
  }

  lemma FieldIsStored(h: ConnectionHeader, slot: Slot, value: Str)
    ensures SlotOf(Field(slot, value)) == Some(slot)
    ensures Assign(h, Field(slot, value)) == Store(h, slot, value)
  {
    hide SlotName, Ascii, Store, MatchSlot;
    NamedField(SlotName(slot), value);
    EverySlotIsListed(slot);
    MatchOwnSlot(slot, value, SLOTS);
    assert Field(slot, value)[|SlotName(slot)| + 1..] == value;
  }

  /******* the names on the wire *******/

  lemma NamedSlots()
    ensures SlotName(MessageDefinition) == "message_definition" && SlotName(CallerId) == "callerid"
    ensures SlotName(Latching) == "latching" && SlotName(Md5sum) == "md5sum" && SlotName(Topic) == "topic"
    ensures SlotName(Service) == "service" && SlotName(Type) == "type" && SlotName(TcpNodelay) == "tcp_nodelay"
    ensures SlotName(Persistent) == "persistent"
  {
  }

  // The field with this name and value turns one header into the other; 0x3D is the equal sign.
  ghost predicate Sets(h: ConnectionHeader, name: string, value: Str, h': ConnectionHeader) {
    IsAscii(name) && Assign(h, Ascii(name) + [0x3D] + value) == h'
  }

  lemma WireNameIsRead(h: ConnectionHeader, slot: Slot, name: string, value: Str)
    requires SlotName(slot) == name
    ensures Sets(h, name, value, Store(h, slot, value))
    ensures IsAscii(name) && Field(slot, value) == Ascii(name) + [0x3D] + value
  {
    hide Store, Assign, SlotName;
    FieldIsStored(h, slot, value);
  }

  // Each field that is used, by the letters of its name.
  lemma TextNames(h: ConnectionHeader, value: Str)
    ensures Sets(h, "message_definition", value, h.(msgDefinition := value))
    ensures Sets(h, "callerid", value, h.(callerId := value))
    ensures Sets(h, "md5sum", value, h.(md5sum := Some(value)))
    ensures Sets(h, "topic", value, h.(topic := Some(value)))
    ensures Sets(h, "service", value, h.(service := Some(value)))
    ensures Sets(h, "type", value, h.(topicType := value))
  {
    hide Sets, SlotName;
    NamedSlots();
    WireNameIsRead(h, MessageDefinition, "message_definition", value);
    WireNameIsRead(h, CallerId, "callerid", value);
    WireNameIsRead(h, Md5sum, "md5sum", value);
    WireNameIsRead(h, Topic, "topic", value);
    WireNameIsRead(h, Service, "service", value);
    WireNameIsRead(h, Type, "type", value);
  }

  // A flag is false only as "0".
  lemma FlagNames(h: ConnectionHeader, value: Str)
    ensures Sets(h, "latching", value, h.(latching := value != [0x30]))
    ensures Sets(h, "tcp_nodelay", value, h.(tcpNodelay := value != [0x30]))
    ensures Sets(h, "persistent", value, h.(persistent := Some(value != [0x30])))
  {
    hide Sets, SlotName;
    NamedSlots();
    WireNameIsRead(h, Latching, "latching", value);
    WireNameIsRead(h, TcpNodelay, "tcp_nodelay", value);
    WireNameIsRead(h, Persistent, "persistent", value);
  }

  // How flags are written.
  lemma WrittenFlags()
    ensures Flag(true) == [0x31] && Flag(false) == [0x30]
  {
  }

  /******* round trip *******/

  // What Rust's `String` guarantees.
  predicate WellFormed(h: ConnectionHeader) {
    && IsUtf8(h.callerId) && IsUtf8(h.msgDefinition) && IsUtf8(h.topicType)
    && (h.md5sum.Some? ==> IsUtf8(h.md5sum.value))
    && (h.service.Some? ==> IsUtf8(h.service.value))
    && (h.topic.Some? ==> IsUtf8(h.topic.value))
  }

  lemma FieldIsUtf8(slot: Slot, value: Str)
    requires IsUtf8(value)
    ensures IsUtf8(Field(slot, value))
  {
    hide IsUtf8, SlotName, Ascii;
    AsciiLacksEquals(SlotName(slot));
    AsciiIsUtf8([EQUALS]);
    Utf8Append(Ascii(SlotName(slot)), [EQUALS]);
    Utf8Append(Prefix(slot), value);
  }

  lemma FlagIsUtf8(b: bool)
    ensures IsUtf8(Flag(b))
  {
    AsciiIsUtf8(Flag(b));
  }

  lemma HeaderFieldsAreUtf8(h: ConnectionHeader, toPublisher: bool)
    requires WellFormed(h)
    ensures forall f <- HeaderFields(h, toPublisher) :: IsUtf8(f)
  {
    forall f <- HeaderFields(h, toPublisher) ensures IsUtf8(f) {
      var slot, value := SlotAndValue(h, toPublisher, f);
      FieldIsUtf8(slot, value);
    }
  }

  lemma SlotAndValue(h: ConnectionHeader, toPublisher: bool, f: Str) returns (slot: Slot, value: Str)
    requires WellFormed(h) && f in HeaderFields(h, toPublisher)
    ensures f == Field(slot, value) && IsUtf8(value)
  {
    hide IsUtf8, Field;
    FlagIsUtf8(true);
    FlagIsUtf8(false);
    if f == Field(CallerId, h.callerId) { return CallerId, h.callerId; }
    if f == Field(Latching, Flag(h.latching)) { return Latching, Flag(h.latching); }
    if h.md5sum.Some? && f == Field(Md5sum, h.md5sum.value) { return Md5sum, h.md5sum.value; }
    if f == Field(MessageDefinition, h.msgDefinition) { return MessageDefinition, h.msgDefinition; }
    if f == Field(TcpNodelay, Flag(h.tcpNodelay)) { return TcpNodelay, Flag(h.tcpNodelay); }
    if h.topic.Some? && f == Field(Topic, h.topic.value) { return Topic, h.topic.value; }
    if h.service.Some? && f == Field(Service, h.service.value) { return Service, h.service.value; }
    if f == Field(Type, h.topicType) { return Type, h.topicType; }
    return Persistent, Flag(h.persistent.value);
  }

  lemma {:induction false} AssignAllAppend(h: ConnectionHeader, a: seq<Str>, b: seq<Str>)
    ensures AssignAll(h, a + b) == AssignAll(AssignAll(h, a), b)
    decreases |a|
  {
    hide Assign;
    if a == [] {
      assert a + b == b;
    } else {
      assert (a + b)[1..] == a[1..] + b;
      AssignAllAppend(Assign(h, a[0]), a[1..], b);
    }
  }

  lemma AssignOne(h: ConnectionHeader, slot: Slot, value: Str)
    ensures AssignAll(h, [Field(slot, value)]) == Store(h, slot, value)
  {
    hide Assign, Store, Field;
    FieldIsStored(h, slot, value);
    assert [Field(slot, value)][1..] == [];
  }

  lemma AssignOptional(h: ConnectionHeader, slot: Slot, value: Option<Str>)
    ensures AssignAll(h, OptionalField(slot, value)) == if value.Some? then Store(h, slot, value.value) else h
  {
    hide Assign, Store, Field;
    if value.Some? { AssignOne(h, slot, value.value); }
  }

  lemma FlagMeaning(b: bool)
    ensures Flag(b) != ZERO <==> b
  {
  }

  function StoreOptional(h: ConnectionHeader, slot: Slot, value: Option<Str>): ConnectionHeader {
    if value.Some? then Store(h, slot, value.value) else h
  }

  // Storing the fields one after the other, in the order in which they are written.
  function StoreFields(h: ConnectionHeader, toPublisher: bool): ConnectionHeader {
    var h1 := StoreOptional(EMPTY_HEADER, CallerId, Some(h.callerId));
    var h2 := StoreOptional(h1, Latching, Some(Flag(h.latching)));
    var h3 := StoreOptional(h2, Md5sum, h.md5sum);
    var h4 := StoreOptional(h3, MessageDefinition, Some(h.msgDefinition));
    var h5 := StoreOptional(h4, TcpNodelay, if toPublisher then Some(Flag(h.tcpNodelay)) else None);
    var h6 := StoreOptional(h5, Topic, h.topic);
    var h7 := StoreOptional(h6, Service, h.service);
    var h8 := StoreOptional(h7, Type, Some(h.topicType));
    StoreOptional(h8, Persistent, if h.persistent.Some? then Some(Flag(h.persistent.value)) else None)
  }

  lemma StoredFields(h: ConnectionHeader, toPublisher: bool)
    ensures StoreFields(h, toPublisher) == if toPublisher then h else h.(tcpNodelay := false)
  {
    FlagMeaning(true);
    FlagMeaning(false);
    hide Flag;
  }

  lemma AssignHeaderFields(h: ConnectionHeader, toPublisher: bool)
    ensures AssignAll(EMPTY_HEADER, HeaderFields(h, toPublisher))
            == if toPublisher then h else h.(tcpNodelay := false)
  {
    hide AssignAll, Field, Flag, StoreOptional;
    StoredFields(h, toPublisher);
    NothingAssigned(EMPTY_HEADER);
    var f1 := [Field(CallerId, h.callerId)];
    assert f1 == [] + OptionalField(CallerId, Some(h.callerId));
    var h1 := AssignNext(EMPTY_HEADER, [], CallerId, Some(h.callerId), f1);
    var f2 := f1 + [Field(Latching, Flag(h.latching))];
    var h2 := AssignNext(h1, f1, Latching, Some(Flag(h.latching)), f2);
    var f3 := f2 + OptionalField(Md5sum, h.md5sum);
    var h3 := AssignNext(h2, f2, Md5sum, h.md5sum, f3);
    var f4 := f3 + [Field(MessageDefinition, h.msgDefinition)];
    var h4 := AssignNext(h3, f3, MessageDefinition, Some(h.msgDefinition), f4);
    var f5 := f4 + if toPublisher then [Field(TcpNodelay, Flag(h.tcpNodelay))] else [];
    var h5 := AssignNext(h4, f4, TcpNodelay, if toPublisher then Some(Flag(h.tcpNodelay)) else None, f5);
    var f6 := f5 + OptionalField(Topic, h.topic);
    var h6 := AssignNext(h5, f5, Topic, h.topic, f6);
    var f7 := f6 + OptionalField(Service, h.service);
    var h7 := AssignNext(h6, f6, Service, h.service, f7);
    var f8 := f7 + [Field(Type, h.topicType)];
    var h8 := AssignNext(h7, f7, Type, Some(h.topicType), f8);
    var p := if h.persistent.Some? then Some(Flag(h.persistent.value)) else None;
    var h9 := AssignNext(h8, f8, Persistent, p, f8 + OptionalField(Persistent, p));
  }

  lemma NothingAssigned(h: ConnectionHeader)
    ensures AssignAll(h, []) == h
  {
  }

  lemma AssignNext(h: ConnectionHeader, before: seq<Str>, slot: Slot, value: Option<Str>, fields: seq<Str>)
    returns (h': ConnectionHeader)
    requires fields == before + OptionalField(slot, value)
    requires h == AssignAll(EMPTY_HEADER, before)
    ensures h' == StoreOptional(h, slot, value) == AssignAll(EMPTY_HEADER, fields)
  {
    hide AssignAll, Store, OptionalField;
    AssignAllAppend(EMPTY_HEADER, before, OptionalField(slot, value));
    AssignOptional(h, slot, value);
    h' := StoreOptional(h, slot, value);
  }

  // Printing and parsing gives the header back; the form for anything but publishers leaves
  // out one flag, which is then read as not set.
  lemma HeaderRoundTrip(h: ConnectionHeader, toPublisher: bool)
    requires WellFormed(h) && |Concat(HeaderFields(h, toPublisher))| < U32_RANGE
    ensures |PrintHeader(h, toPublisher)| >= 4
    ensures ParseHeader(PrintHeader(h, toPublisher)[4..]) == Ok(if toPublisher then h else h.(tcpNodelay := false))
    ensures FromLittleEndian(PrintHeader(h, toPublisher)[..4]) == |PrintHeader(h, toPublisher)| - 4
  {
    hide HeaderFields, Concat, WellFormed, ParseFields, LittleEndian, FromLittleEndian, AssignAll, IsUtf8;
    var fields := HeaderFields(h, toPublisher);
    HeaderFieldsAreUtf8(h, toPublisher);
    forall f <- fields ensures Sendable(f) { FieldFits(fields, f); }
    var body := Concat(fields);
    LittleEndianRoundTrip(|body|);
    assert PrintHeader(h, toPublisher)[4..] == body && PrintHeader(h, toPublisher)[..4] == LittleEndian(|body|);
    ParseConcat(fields, EMPTY_HEADER);
    AssignHeaderFields(h, toPublisher);
  }

  /******* fields that are ignored *******/

  // Bytes that parse alike still do so after the same fields, bad ones included.
  lemma {:induction false} ParseAlikeAfter(fields: seq<Str>, x: seq<Byte>, y: seq<Byte>, h: ConnectionHeader)
    requires forall f <- fields :: |f| < U32_RANGE
    requires forall h' :: ParseFields(x, h') == ParseFields(y, h')
    ensures ParseFields(Concat(fields) + x, h) == ParseFields(Concat(fields) + y, h)
    decreases |fields|
  {
    hide Prefixed, Assign, TakeField, IsUtf8;
    if fields == [] {
      assert [] + x == x && [] + y == y;
    } else {
      var first, rest := fields[0], Concat(fields[1..]);
      assert Concat(fields) + x == Prefixed(first) + (rest + x) && Concat(fields) + y == Prefixed(first) + (rest + y);
      PrefixedLength(first);
      TakeFramed(first, rest + x);
      TakeFramed(first, rest + y);
      ParseAlikeAfter(fields[1..], x, y, Assign(h, first));
    }
  }

  // Inserting a field that fills no slot after any number of fields does not change what is
  // parsed, whatever bytes follow: the same header, or the same error.
  lemma IgnoredFieldIsIgnored(before: seq<Str>, field: Str, after: seq<Byte>)
    requires (forall f <- before :: |f| < U32_RANGE) && Sendable(field)
    requires SlotOf(field) == None
    ensures ParseHeader(Concat(before) + (Prefixed(field) + after)) == ParseHeader(Concat(before) + after)
  {
    hide Concat, SlotOf, TakeField, Prefixed, IsUtf8;
    PrefixedLength(field);
    TakeFramed(field, after);
    assert forall h :: ParseFields(Prefixed(field) + after, h) == ParseFields(after, h);
    ParseAlikeAfter(before, Prefixed(field) + after, after, EMPTY_HEADER);
  }

  /******* headers that are refused, and fields that are not there *******/

  // Whatever follows good fields is parsed with what these have set.
  lemma {:induction false} ParseAfter(fields: seq<Str>, x: seq<Byte>, h: ConnectionHeader)
    requires forall f <- fields :: Sendable(f)
    ensures ParseFields(Concat(fields) + x, h) == ParseFields(x, AssignAll(h, fields))
    decreases |fields|
  {
    hide Prefixed, Assign, TakeField, Sendable;
    if fields == [] {
      assert [] + x == x;
    } else {
      var first, rest := fields[0], Concat(fields[1..]);
      assert first in fields && forall f <- fields[1..] :: f in fields;
      assert Concat(fields) + x == Prefixed(first) + (rest + x);
      PrefixedLength(first);
      TakePrefixed(first, rest + x);
      ParseAfter(fields[1..], x, Assign(h, first));
    }
  }

  // After any good fields, a field that is not UTF-8 is refused as such.
  lemma ForeignBytesAreRefused(before: seq<Str>, field: Str, after: seq<Byte>)
    requires (forall f <- before :: Sendable(f)) && !IsUtf8(field) && |field| < U32_RANGE
    ensures ParseHeader(Concat(before) + (Prefixed(field) + after)) == Err(InvalidData)
  {
    hide IsUtf8, Prefixed, TakeField, Concat, AssignAll, Sendable;
    PrefixedLength(field);
    TakeFramed(field, after);
    ParseAfter(before, Prefixed(field) + after, EMPTY_HEADER);
  }

  // A field that is cut short, in its length or in its text, ends the input too early.
  lemma CutFieldIsRefused(before: seq<Str>, field: Str, k: nat)
    requires (forall f <- before :: Sendable(f)) && |field| < U32_RANGE && 0 < k < 4 + |field|
    ensures |Prefixed(field)| == 4 + |field|
    ensures ParseHeader(Concat(before) + Prefixed(field)[..k]) == Err(UnexpectedEof)
  {
    hide IsUtf8, Concat, AssignAll, Sendable, LittleEndian, FromLittleEndian;
    PrefixedLength(field);
    LittleEndianRoundTrip(|field|);
    var cut := Prefixed(field)[..k];
    if k >= 4 { assert cut[..4] == LittleEndian(|field|); }
    hide Prefixed;
    assert TakeField(cut) == Err(UnexpectedEof);
    ParseAfter(before, cut, EMPTY_HEADER);
  }

  // What a header holds in a slot that no field fills.
  predicate IsUnset(h: ConnectionHeader, slot: Slot) {
    match slot
    case MessageDefinition => h.msgDefinition == []
    case CallerId => h.callerId == []
    case Latching => !h.latching
    case Md5sum => h.md5sum == None
    case Topic => h.topic == None
    case Service => h.service == None
    case Type => h.topicType == []
    case TcpNodelay => !h.tcpNodelay
    case Persistent => h.persistent == None
  }

  lemma StoreElsewhere(h: ConnectionHeader, slot: Slot, other: Slot, value: Str)
    requires slot != other && IsUnset(h, slot)
    ensures IsUnset(Store(h, other, value), slot)
  {
  }

  lemma {:induction false} StaysUnset(h: ConnectionHeader, fields: seq<Str>, slot: Slot)
    requires IsUnset(h, slot) && forall f <- fields :: SlotOf(f) != Some(slot)
    ensures IsUnset(AssignAll(h, fields), slot)
    decreases |fields|
  {
    hide IsUnset, Store, MatchSlot;
    if fields != [] {
      var first := fields[0];
      assert first in fields && forall f <- fields[1..] :: f in fields;
      if SlotOf(first).Some? {
        StoreElsewhere(h, slot, SlotOf(first).value, first[FirstEquals(first) + 1..]);
      }
      StaysUnset(Assign(h, first), fields[1..], slot);
    }
  }

  // A field that is not there leaves its slot empty or not set.
  lemma AbsentFieldIsUnset(fields: seq<Str>, slot: Slot)
    requires forall f <- fields :: Sendable(f) && SlotOf(f) != Some(slot)
    ensures ParseHeader(Concat(fields)).Ok? && IsUnset(ParseHeader(Concat(fields)).value, slot)
  {
    assert IsUnset(EMPTY_HEADER, slot);
    hide Concat, AssignAll, Sendable, SlotOf, IsUnset, ParseFields;
    ParseConcat(fields, EMPTY_HEADER);
    StaysUnset(EMPTY_HEADER, fields, slot);
  }

  const IGNORED_NAMES: seq<string> := ["probe", "response_type", "request_type", "error"]

  lemma {:induction false} NoMatch(name: string, value: Str, slots: seq<Slot>)
    requires IsAscii(name) && '=' !in name && forall slot <- slots :: SlotName(slot) != name
    ensures MatchSlot(Ascii(name) + [EQUALS] + value, slots) == None
    decreases |slots|
  {
    hide SlotName, Ascii, IsAscii;
    if slots != [] {
      assert slots[0] in slots && forall slot <- slots[1..] :: slot in slots;
      if Prefix(slots[0]) <= Ascii(name) + [EQUALS] + value {
        PrefixDecidesName(slots[0], name, value);
      }
      NoMatch(name, value, slots[1..]);
    }
  }

  // The names that the parser knows but does not use, and any name that it does not know.
  lemma UnassignedNameIsIgnored(name: string, value: Str)
    requires IsAscii(name) && '=' !in name && forall slot :: SlotName(slot) != name
    ensures SlotOf(Ascii(name) + [EQUALS] + value) == None
  {
    hide SlotName, Ascii, IsAscii, MatchSlot;
    NoMatch(name, value, SLOTS);
  }

  lemma IgnoredNamesAreUnassigned(name: string)
    requires name in IGNORED_NAMES
    ensures IsAscii(name) && '=' !in name && forall slot :: SlotName(slot) != name
  {
  }

  /******* the order of the fields *******/

  // No two fields fill the same slot.
  ghost predicate DistinctSlots(fields: seq<Str>) {
    forall i, j | 0 <= i < j < |fields| :: SlotOf(fields[i]).Some? ==> SlotOf(fields[i]) != SlotOf(fields[j])
  }

  lemma StoresCommute(h: ConnectionHeader, a: Slot, v: Str, b: Slot, w: Str)
    requires a != b
    ensures Store(Store(h, a, v), b, w) == Store(Store(h, b, w), a, v)
  {
  }

  lemma AssignsCommute(h: ConnectionHeader, f: Str, g: Str)
    requires SlotOf(f).Some? ==> SlotOf(f) != SlotOf(g)
    ensures Assign(Assign(h, f), g) == Assign(Assign(h, g), f)
  {
    hide Store, MatchSlot;
    if SlotOf(f).Some? && SlotOf(g).Some? {
      StoresCommute(h, SlotOf(f).value, f[FirstEquals(f) + 1..], SlotOf(g).value, g[FirstEquals(g) + 1..]);
    }
  }

  // A field can be moved to the front.
  lemma {:induction false} MoveToFront(h: ConnectionHeader, before: seq<Str>, field: Str, after: seq<Str>)
    requires forall f <- before :: SlotOf(f).Some? ==> SlotOf(f) != SlotOf(field)
    ensures AssignAll(h, before + [field] + after) == AssignAll(Assign(h, field), before + after)
    decreases |before|
  {
    hide Assign, SlotOf;
    var all := before + [field] + after;
    if before == [] {
      assert all[1..] == before + after && all[0] == field;
    } else {
      assert before[0] in before && forall f <- before[1..] :: f in before;
      assert all[1..] == before[1..] + [field] + after;
      assert (before + after)[1..] == before[1..] + after;
      MoveToFront(Assign(h, before[0]), before[1..], field, after);
      AssignsCommute(h, before[0], field);
    }
  }

  lemma TakenOut(before: seq<Str>, field: Str, after: seq<Str>, rest: seq<Str>)
    requires multiset(before + [field] + after) == multiset([field] + rest)
    ensures multiset(before + after) == multiset(rest)
  {
    assert multiset(before + [field] + after) == multiset(before + after) + multiset{field};
    assert multiset([field] + rest) == multiset(rest) + multiset{field};
    var m, n := multiset(before + after), multiset(rest);
    assert forall x :: m[x] + multiset{field}[x] == (m + multiset{field})[x] == (n + multiset{field})[x];
    assert forall x :: m[x] == n[x];
  }

  lemma DistinctWithout(before: seq<Str>, field: Str, after: seq<Str>)
    requires DistinctSlots(before + [field] + after)
    ensures DistinctSlots(before + after)
    ensures forall f <- before :: SlotOf(f).Some? ==> SlotOf(f) != SlotOf(field)
  {
    hide SlotOf;
    var all, rest := before + [field] + after, before + after;
    forall i, j | 0 <= i < j < |rest| && SlotOf(rest[i]).Some? ensures SlotOf(rest[i]) != SlotOf(rest[j]) {
      var i', j' := if i < |before| then i else i + 1, if j < |before| then j else j + 1;
      assert rest[i] == all[i'] && rest[j] == all[j'];
    }
    assert all[|before|] == field;
    forall f <- before ensures SlotOf(f).Some? ==> SlotOf(f) != SlotOf(field) {
      var k :| 0 <= k < |before| && before[k] == f;
      assert all[k] == f;
    }
  }

  lemma {:induction false} OrderOfAssignments(h: ConnectionHeader, fields: seq<Str>, permuted: seq<Str>)
    requires multiset(fields) == multiset(permuted) && DistinctSlots(permuted)
    ensures AssignAll(h, fields) == AssignAll(h, permuted)
    decreases |fields|
  {
    hide Assign, SlotOf, DistinctSlots;
    if fields == [] {
      assert |multiset(permuted)| == 0;
      assert permuted == [];
    } else {
      assert fields == [fields[0]] + fields[1..];
      assert fields[0] in multiset(fields);
      var i :| 0 <= i < |permuted| && permuted[i] == fields[0];
      var before, after := permuted[..i], permuted[i + 1..];
      assert permuted == before + [fields[0]] + after;
      TakenOut(before, fields[0], after, fields[1..]);
      DistinctWithout(before, fields[0], after);
      MoveToFront(h, before, fields[0], after);
      OrderOfAssignments(Assign(h, fields[0]), fields[1..], before + after);
    }
  }

  // Fields that fill different slots can come in any order.
  lemma FieldOrderDoesNotMatter(fields: seq<Str>, permuted: seq<Str>)
    requires (forall f <- fields :: Sendable(f)) && multiset(fields) == multiset(permuted)
    requires DistinctSlots(permuted)
    ensures ParseHeader(Concat(permuted)) == ParseHeader(Concat(fields))
  {
    hide Sendable, Concat, SlotOf, ParseFields, AssignAll, DistinctSlots;
    forall f <- permuted ensures Sendable(f) {
      assert f in multiset(permuted);
    }
    ParseConcat(fields, EMPTY_HEADER);
    ParseConcat(permuted, EMPTY_HEADER);
    OrderOfAssignments(EMPTY_HEADER, fields, permuted);
  }
}
