// The TCPROS wire format (roslibrust_ros1/src/tcpros.rs): connection headers, which are lists
// of length-prefixed "name=value" fields, and length-prefixed message bodies.
module Tcpros {
  import opened Wrappers
  import opened Bytes

  // A Rust `String` is its UTF-8 bytes.
  type Str = seq<Byte>

  datatype IoError = UnexpectedEof | InvalidData

  datatype ConnectionHeader = ConnectionHeader(
    callerId: Str,
    latching: bool,
    msgDefinition: Str,
    md5sum: Option<Str>,
    service: Option<Str>,
    topic: Option<Str>,
    topicType: Str,
    tcpNodelay: bool,
    persistent: Option<bool>)

  const EMPTY_HEADER: ConnectionHeader := ConnectionHeader([], false, [], None, None, None, [], false, None)

  /******* field names *******/

  const EQUALS: Byte := 0x3D

  predicate IsAscii(s: string) { forall c <- s :: c < 128 as char }

  function Ascii(s: string): (bytes: Str)
    requires IsAscii(s)
    ensures |bytes| == |s| && forall i | 0 <= i < |s| :: bytes[i] == s[i] as int
  {
    if s == "" then []
    else
      assert s[0] in s && forall c <- s[1..] :: c in s;
      var b: Byte := s[0] as int;
      [b] + Ascii(s[1..])
  }

  // The fields that the parser assigns. The names of all other fields are ignored.
  datatype Slot = MessageDefinition | CallerId | Latching | Md5sum | Topic | Service | Type | TcpNodelay | Persistent

  function SlotName(slot: Slot): (name: string)
    ensures IsAscii(name) && '=' !in name
  {
    match slot
    case MessageDefinition => "message_definition"
    case CallerId => "callerid"
    case Latching => "latching"
    case Md5sum => "md5sum"
    case Topic => "topic"
    case Service => "service"
    case Type => "type"
    case TcpNodelay => "tcp_nodelay"
    case Persistent => "persistent"
  }

  function Prefix(slot: Slot): Str { Ascii(SlotName(slot)) + [EQUALS] }

  const SLOTS: seq<Slot> :=
    [MessageDefinition, CallerId, Latching, Md5sum, Topic, Service, Type, TcpNodelay, Persistent]

  function FirstEquals(s: Str): (i: nat)
    ensures i <= |s| && EQUALS !in s[..i] && (i < |s| ==> s[i] == EQUALS)
  {
    if s == [] || s[0] == EQUALS then 0 else 1 + FirstEquals(s[1..])
  }

  // The first of the parser's branches whose name the field starts with.
  function MatchSlot(field: Str, slots: seq<Slot>): Option<Slot> {
    if slots == [] then None
    else if Prefix(slots[0]) <= field then Some(slots[0])
    else MatchSlot(field, slots[1..])
  }

  const ZERO: Str := [0x30]
  const ONE: Str := [0x31]

  function Store(h: ConnectionHeader, slot: Slot, value: Str): ConnectionHeader {
    match slot
    case MessageDefinition => h.(msgDefinition := value)
    case CallerId => h.(callerId := value)
    case Latching => h.(latching := value != ZERO)
    case Md5sum => h.(md5sum := Some(value))
    case Topic => h.(topic := Some(value))
    case Service => h.(service := Some(value))
    case Type => h.(topicType := value)
    case TcpNodelay => h.(tcpNodelay := value != ZERO)
    case Persistent => h.(persistent := Some(value != ZERO))
  }

  // A field without an equal sign, or with a name that is not assigned, is ignored.
  function SlotOf(field: Str): Option<Slot> {
    if FirstEquals(field) == |field| then None else MatchSlot(field, SLOTS)
  }

  function Assign(h: ConnectionHeader, field: Str): ConnectionHeader {
    if SlotOf(field).None? then h else Store(h, SlotOf(field).value, field[FirstEquals(field) + 1..])
  }

  /******* parsing *******/

  // The first field and the bytes after it.
  function TakeField(data: seq<Byte>): (r: Result<(Str, seq<Byte>), IoError>)
    ensures r.Ok? ==> |r.value.1| + 4 <= |data|
  {
    if |data| < 4 then Err(UnexpectedEof)
    else
      var length := FromLittleEndian(data[..4]);
      if |data| - 4 < length then Err(UnexpectedEof)
      else
        var field := data[4..4 + length];
        if !IsUtf8(field) then Err(InvalidData) else Ok((field, data[4 + length..]))
  }

  function ParseFields(data: seq<Byte>, h: ConnectionHeader): Result<ConnectionHeader, IoError>
    decreases |data|
  {
    if data == [] then Ok(h)
    else
      match TakeField(data)
      case Err(e) => Err(e)
      case Ok((field, rest)) => ParseFields(rest, Assign(h, field))
  }

  function ParseHeader(data: seq<Byte>): Result<ConnectionHeader, IoError> { ParseFields(data, EMPTY_HEADER) }

  method FromBytes(data: seq<Byte>) returns (r: Result<ConnectionHeader, IoError>)
    ensures r == ParseHeader(data)
  {
    hide IsUtf8, FromLittleEndian, MatchSlot;
    var h := EMPTY_HEADER;
    var position := 0;
    assert data[0..] == data;
    while position < |data|
      invariant position <= |data|
      invariant ParseHeader(data) == ParseFields(data[position..], h)
    {
      var rest := data[position..];
      if |rest| < 4 {
        return Err(UnexpectedEof);
      }
      var length := FromLittleEndian(rest[..4]);
      if |rest| - 4 < length {
        return Err(UnexpectedEof);
      }
      var field := rest[4..4 + length];
      if !IsUtf8(field) {
        return Err(InvalidData);
      }
      assert rest[4 + length..] == data[position + 4 + length..];
      position := position + 4 + length;
      var equals := FirstEquals(field);
      if equals < |field| {
        match MatchSlot(field, SLOTS) {
          case None =>
          case Some(slot) => h := Store(h, slot, field[equals + 1..]);
        }
      }
    }
    assert data[position..] == [];
    r := Ok(h);
  }

  /******* printing *******/

  function Field(slot: Slot, value: Str): Str { Prefix(slot) + value }

  function Flag(b: bool): Str { if b then ONE else ZERO }

  function OptionalField(slot: Slot, value: Option<Str>): seq<Str> {
    if value.Some? then [Field(slot, value.value)] else []
  }

  // The fields in the order in which they are written.
  function HeaderFields(h: ConnectionHeader, toPublisher: bool): seq<Str> {
    [Field(CallerId, h.callerId)]
    + [Field(Latching, Flag(h.latching))]
    + OptionalField(Md5sum, h.md5sum)
    + [Field(MessageDefinition, h.msgDefinition)]
    + (if toPublisher then [Field(TcpNodelay, Flag(h.tcpNodelay))] else [])
    + OptionalField(Topic, h.topic)
    + OptionalField(Service, h.service)
    + [Field(Type, h.topicType)]
    + OptionalField(Persistent, if h.persistent.Some? then Some(Flag(h.persistent.value)) else None)
  }

  // A field with its length in front.
  function Prefixed(field: Str): seq<Byte> { LittleEndian(|field|) + field }

  function Concat(fields: seq<Str>): seq<Byte> {
    if fields == [] then [] else Prefixed(fields[0]) + Concat(fields[1..])
  }

  function PrintHeader(h: ConnectionHeader, toPublisher: bool): seq<Byte> {
    Prefixed(Concat(HeaderFields(h, toPublisher)))
  }

  lemma {:induction false} ConcatAppend(a: seq<Str>, b: seq<Str>)
    ensures Concat(a + b) == Concat(a) + Concat(b)
  {
    hide Prefixed;
    if a == [] {
      assert a + b == b;
    } else {
      assert (a + b)[1..] == a[1..] + b;
      ConcatAppend(a[1..], b);
    }
  }

  lemma ConcatOne(field: Str)
    ensures Concat([field]) == Prefixed(field) && Concat([]) == []
  {
    assert [field][1..] == [];
  }

  method WriteField(buffer: seq<Byte>, field: Str, ghost fields: seq<Str>) returns (buffer': seq<Byte>)
    requires |buffer| >= 4 && buffer[4..] == Concat(fields)
    ensures |buffer'| >= 4 && buffer'[4..] == Concat(fields + [field])
  {
    ConcatAppend(fields, [field]);
    ConcatOne(field);
    buffer' := buffer + LittleEndian(|field|);
    buffer' := buffer' + field;
    assert buffer'[4..] == buffer[4..] + Prefixed(field);
  }

  method WriteOptionalField(buffer: seq<Byte>, slot: Slot, value: Option<Str>, ghost fields: seq<Str>)
    returns (buffer': seq<Byte>)
    requires |buffer| >= 4 && buffer[4..] == Concat(fields)
    ensures |buffer'| >= 4 && buffer'[4..] == Concat(fields + OptionalField(slot, value))
  {
    if value.Some? {
      buffer' := WriteField(buffer, Field(slot, value.value), fields);
    } else {
      assert fields + [] == fields;
      buffer' := buffer;
    }
  }

  method WriteFields(h: ConnectionHeader, toPublisher: bool) returns (buffer: seq<Byte>)
    ensures |buffer| >= 4 && buffer[4..] == Concat(HeaderFields(h, toPublisher))
  {
    hide Concat, OptionalField, LittleEndian, Field, Flag;
    buffer := [0, 0, 0, 0];
    ConcatOne([]);
    buffer := WriteField(buffer, Field(CallerId, h.callerId), []);
    ghost var fields := [Field(CallerId, h.callerId)];
    assert [] + fields == fields;
    buffer := WriteField(buffer, Field(Latching, Flag(h.latching)), fields);
    fields := fields + [Field(Latching, Flag(h.latching))];
    buffer := WriteOptionalField(buffer, Md5sum, h.md5sum, fields);
    fields := fields + OptionalField(Md5sum, h.md5sum);
    buffer := WriteField(buffer, Field(MessageDefinition, h.msgDefinition), fields);
    fields := fields + [Field(MessageDefinition, h.msgDefinition)];
    if toPublisher {
      buffer := WriteField(buffer, Field(TcpNodelay, Flag(h.tcpNodelay)), fields);
    }
    assert fields + [] == fields;
    fields := fields + if toPublisher then [Field(TcpNodelay, Flag(h.tcpNodelay))] else [];
    buffer := WriteOptionalField(buffer, Topic, h.topic, fields);
    fields := fields + OptionalField(Topic, h.topic);
    buffer := WriteOptionalField(buffer, Service, h.service, fields);
    fields := fields + OptionalField(Service, h.service);
    buffer := WriteField(buffer, Field(Type, h.topicType), fields);
    fields := fields + [Field(Type, h.topicType)];
    var persistent := if h.persistent.Some? then Some(Flag(h.persistent.value)) else None;
    buffer := WriteOptionalField(buffer, Persistent, persistent, fields);
    fields := fields + OptionalField(Persistent, persistent);
    assert fields == HeaderFields(h, toPublisher);
  }

  // The length of the whole is not known at first; it is written over four zero bytes at the end.
  method ToBytes(h: ConnectionHeader, toPublisher: bool) returns (buffer: seq<Byte>)
    ensures buffer == PrintHeader(h, toPublisher)
  {
    hide Concat, HeaderFields;
    buffer := WriteFields(h, toPublisher);
    buffer := PatchLength(buffer);
  }

  method PatchLength(written: seq<Byte>) returns (buffer: seq<Byte>)
    requires |written| >= 4
    ensures buffer == Prefixed(written[4..])
  {
    hide LittleEndian;
    var length := LittleEndian(|written| - 4);
    buffer := written;
    for i := 0 to 4
      invariant |buffer| == |written| && buffer[4..] == written[4..] && buffer[..i] == length[..i]
    {
      buffer := buffer[i := length[i]];
    }
    assert buffer == buffer[..4] + buffer[4..] && length[..4] == length;
  }
}
