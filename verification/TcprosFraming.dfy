// Reading from a TCP stream (roslibrust_ros1/src/tcpros.rs, roslibrust_ros1/src/publisher.rs,
// roslibrust_ros1/src/subscriber.rs): the network may deliver bytes in chunks of any size, and
// the reader must still take exactly one header, or one message, at a time.
module TcprosFraming {
  import opened Wrappers
  import opened Bytes
  import opened Tcpros
  import opened TcprosHeaders

  // A connection whose peer has sent `unread` and then closed it.
  class TcpStream {
    var unread: seq<Byte>

    constructor (sent: seq<Byte>)
      ensures unread == sent
    {
      unread := sent;
    }

    // Some of the next bytes, at least one unless the end is reached, and no more than `limit`.
    method ReadBuf(limit: nat) returns (chunk: seq<Byte>)
      requires limit > 0
      modifies this
      ensures |chunk| <= limit && old(unread) == chunk + unread
      ensures chunk == [] <==> old(unread) == []
    {
      if unread == [] {
        return [];
      }
      var n :| 1 <= n <= limit && n <= |unread|;
      chunk := unread[..n];
      unread := unread[n..];
    }

    // `read_exact`: nothing but the wanted bytes is taken, in however many reads.
    method ReadExact(count: nat) returns (r: Result<seq<Byte>, IoError>)
      modifies this
      ensures if |old(unread)| < count then r == Err(UnexpectedEof) && unread == []
              else r == Ok(old(unread)[..count]) && unread == old(unread)[count..]
    {
      var buffer: seq<Byte> := [];
      while |buffer| < count
        invariant |buffer| <= count && old(unread) == buffer + unread
        decreases count - |buffer|
      {
        var chunk := ReadBuf(count - |buffer|);
        if chunk == [] {
          return Err(UnexpectedEof);
        }
        buffer := buffer + chunk;
      }
      r := Ok(buffer);
    }
  }

  /******* message bodies *******/

  // The next message of a byte stream, with its length in front.
  function NextFrame(data: seq<Byte>): (r: Result<seq<Byte>, IoError>)
    ensures r.Ok? ==> 4 <= |r.value| <= |data|
  {
    if |data| < 4 then Err(UnexpectedEof)
    else
      var total := 4 + FromLittleEndian(data[..4]);
      if |data| < total then Err(UnexpectedEof) else Ok(data[..total])
  }

  // The bytes of a receive buffer that are in use, out of `capacity` that are allocated.
  class ReceiveBuffer {
    var contents: seq<Byte>
    var capacity: nat

    ghost predicate Valid()
      reads this
    {
      |contents| <= capacity
    }

    constructor (capacity: nat)
      ensures Valid() && contents == [] && this.capacity == capacity
    {
      contents := [];
      this.capacity := capacity;
    }

    // `reserve`: room for `additional` bytes beyond those in use.
    method Reserve(additional: nat)
      requires Valid()
      modifies this
      ensures Valid() && contents == old(contents) && capacity >= |contents| + additional && capacity >= old(capacity)
    {
      if capacity < |contents| + additional {
        capacity := |contents| + additional;
      }
    }

    // `read_buf` on the buffer, limited to `remaining`: a full buffer grows first, so a read
    // that returns nothing means the end of the stream.
    method Fill(stream: TcpStream, remaining: nat) returns (n: nat)
      requires Valid() && remaining > 0
      modifies this, stream
      ensures Valid() && n <= remaining && (n == 0 <==> old(stream.unread) == [])
      ensures contents + stream.unread == old(contents) + old(stream.unread) && |contents| == |old(contents)| + n
    {
      if |contents| == capacity {
        capacity := capacity + 64;
      }
      var space := capacity - |contents|;
      var chunk := stream.ReadBuf(if remaining < space then remaining else space);
      contents := contents + chunk;
      n := |chunk|;
    }
  }

  // Whatever the chunks and whatever the hint, exactly the next message is taken from the
  // stream. The reservation in the middle may leave less room than the message needs; reading
  // goes on all the same.
  method ReceiveBodyWithCapacityHint(stream: TcpStream, capacityHint: nat) returns (r: Result<seq<Byte>, IoError>)
    modifies stream
    ensures r == NextFrame(old(stream.unread)) && (r.Err? ==> r.error == UnexpectedEof)
    ensures stream.unread == if r.Ok? then old(stream.unread)[|r.value|..] else []
  {
    hide FromLittleEndian;
    var buffer := new ReceiveBuffer(if capacityHint < 4 then 4 else capacityHint);
    while |buffer.contents| < 4
      invariant buffer.Valid() && |buffer.contents| <= 4
      invariant buffer.contents + stream.unread == old(stream.unread)
      decreases 4 - |buffer.contents|
    {
      var n := buffer.Fill(stream, 4 - |buffer.contents|);
      if n == 0 {
        assert |old(stream.unread)| < 4;
        return Err(UnexpectedEof);
      }
    }
    assert buffer.contents[..4] == old(stream.unread)[..4];
    var totalLength := 4 + FromLittleEndian(buffer.contents[..4]);
    if buffer.capacity < totalLength {
      buffer.Reserve(totalLength - buffer.capacity);
    }
    while |buffer.contents| < totalLength
      invariant buffer.Valid() && 4 <= |buffer.contents| <= totalLength
      invariant buffer.contents + stream.unread == old(stream.unread)
      decreases totalLength - |buffer.contents|
    {
      var n := buffer.Fill(stream, totalLength - |buffer.contents|);
      if n == 0 {
        assert |old(stream.unread)| < totalLength;
        return Err(UnexpectedEof);
      }
    }
    assert old(stream.unread)[..totalLength] == buffer.contents;
    r := Ok(buffer.contents);
  }

  method ReceiveHeader(stream: TcpStream) returns (r: Result<ConnectionHeader, IoError>)
    modifies stream
    ensures var frame := NextFrame(old(stream.unread));
            if frame.Err? then r == Err(UnexpectedEof) && stream.unread == []
            else r == ParseHeader(frame.value[4..]) && stream.unread == old(stream.unread)[|frame.value|..]
  {
    hide FromLittleEndian, ParseFields;
    ghost var data := stream.unread;
    var lengthBytes := stream.ReadExact(4);
    if lengthBytes.Err? {
      return Err(lengthBytes.error);
    }
    var length := FromLittleEndian(lengthBytes.value);
    var headerBytes := stream.ReadExact(length);
    if headerBytes.Err? {
      return Err(headerBytes.error);
    }
    assert headerBytes.value == data[..4 + length][4..];
    assert stream.unread == data[4 + length..];
    r := FromBytes(headerBytes.value);
  }

  /******* what a publisher sends *******/

  // The framing of a serialised message: the size is patched over four zero bytes.
  method FrameMessage(body: seq<Byte>) returns (buffer: seq<Byte>)
    ensures buffer == Prefixed(body)
  {
    buffer := [0, 0, 0, 0] + body;
    assert buffer[4..] == body;
    buffer := PatchLength(buffer);
  }

  lemma NextFrameOfPrefixed(body: seq<Byte>, rest: seq<Byte>)
    requires |body| < U32_RANGE
    ensures NextFrame(Prefixed(body) + rest) == Ok(Prefixed(body))
    ensures (Prefixed(body) + rest)[|Prefixed(body)|..] == rest
  {
    hide LittleEndian, FromLittleEndian;
    LittleEndianRoundTrip(|body|);
    var data := Prefixed(body) + rest;
    assert data[..4] == LittleEndian(|body|);
    assert data[..4 + |body|] == Prefixed(body);
  }

  /******* a stream of messages *******/

  // The complete messages of a byte stream, in order.
  function AllFrames(data: seq<Byte>): seq<seq<Byte>>
    decreases |data|
  {
    var frame := NextFrame(data);
    if frame.Err? then [] else [frame.value] + AllFrames(data[|frame.value|..])
  }

  // The inner loop of a subscriber's reader: it reads until the connection ends, and keeps the
  // size of the largest message as the hint for the next read.
  method ReadMessages(stream: TcpStream) returns (messages: seq<seq<Byte>>)
    modifies stream
    ensures messages == AllFrames(old(stream.unread)) && stream.unread == []
  {
    hide NextFrame;
    messages := [];
    var capacityHint: nat := 1024;
    while true
      invariant AllFrames(old(stream.unread)) == messages + AllFrames(stream.unread)
      decreases |stream.unread|
    {
      ghost var before := stream.unread;
      var result := ReceiveBodyWithCapacityHint(stream, capacityHint);
      if result.Err? {
        assert messages + [] == messages;
        return;
      }
      assert AllFrames(before) == [result.value] + AllFrames(stream.unread);
      assert messages + ([result.value] + AllFrames(stream.unread))
             == messages + [result.value] + AllFrames(stream.unread);
      if |result.value| > capacityHint {
        capacityHint := |result.value|;
      }
      messages := messages + [result.value];
    }
  }

  function PrefixedAll(bodies: seq<seq<Byte>>): seq<seq<Byte>> {
    if bodies == [] then [] else [Prefixed(bodies[0])] + PrefixedAll(bodies[1..])
  }

  // The messages that are read are the messages that were sent, in order, whatever follows
  // them, as long as it is not a complete message itself.
  lemma {:induction false} FramesOfBodies(bodies: seq<seq<Byte>>, rest: seq<Byte>)
    requires (forall body <- bodies :: |body| < U32_RANGE) && NextFrame(rest).Err?
    ensures AllFrames(Concat(bodies) + rest) == PrefixedAll(bodies)
    decreases |bodies|
  {
    hide NextFrame, Prefixed;
    if bodies == [] {
      assert Concat(bodies) + rest == rest;
    } else {
      assert bodies[0] in bodies && forall body <- bodies[1..] :: body in bodies;
      var more := Concat(bodies[1..]) + rest;
      assert Concat(bodies) + rest == Prefixed(bodies[0]) + more;
      NextFrameOfPrefixed(bodies[0], more);
      FramesOfBodies(bodies[1..], rest);
    }
  }

  // The two ends together: a header and messages that one side prints are what the other side
  // reads, however the bytes are cut into chunks.
  method Receive(stream: TcpStream, ghost h: ConnectionHeader, ghost toPublisher: bool, ghost bodies: seq<seq<Byte>>)
    returns (header: Result<ConnectionHeader, IoError>, messages: seq<seq<Byte>>)
    requires WellFormed(h) && |Concat(HeaderFields(h, toPublisher))| < U32_RANGE
    requires forall body <- bodies :: |body| < U32_RANGE
    requires stream.unread == PrintHeader(h, toPublisher) + Concat(bodies)
    modifies stream
    ensures header == Ok(if toPublisher then h else h.(tcpNodelay := false))
    ensures messages == PrefixedAll(bodies)
  {
    hide WellFormed, HeaderFields, Concat, ParseHeader, NextFrame;
    HeaderRoundTrip(h, toPublisher);
    NextFrameOfPrefixed(Concat(HeaderFields(h, toPublisher)), Concat(bodies));
    header := ReceiveHeader(stream);
    EmptyHasNoFrame();
    FramesOfBodies(bodies, []);
    assert Concat(bodies) + [] == Concat(bodies);
    messages := ReadMessages(stream);
  }

  lemma EmptyHasNoFrame()
    ensures NextFrame([]).Err?
  {
  }
}
