/** Packets: an int30 length, an int30 stream id, and a payload
    (libcore/src/network/TCPStream.hpp, "Packet Format").  `Parse` is the
    reference meaning of a byte stream; readers are proved against it. */
module Frames {
  import opened ByteStrings
  import opened Uint30

  datatype Frame = Frame(id: nat, payload: seq<Byte>)

  /** The frames wholly contained in a stream, and the bytes left over. */
  datatype Parsed = Parsed(frames: seq<Frame>, rest: seq<Byte>)

  predicate Framable(f: Frame) {
    f.id < LIMIT && |Encode(f.id)| + |f.payload| < LIMIT
  }

  function Body(f: Frame): (s: seq<Byte>)
    requires f.id < LIMIT
  {
    Encode(f.id) + f.payload
  }

  function Bytes(f: Frame): (s: seq<Byte>)
    requires Framable(f)
  {
    Encode(|Body(f)|) + Body(f)
  }

  /** What a complete packet body means.  A body too short for its own stream id
      counts as an empty packet on the control stream. */
  function Open(body: seq<Byte>): (f: Frame) {
    match Decode(body)
    case TooShort => Frame(0, [])
    case Decoded(id, n) => Frame(id, body[n..])
  }

  /** Whether the stream starts with a whole packet. */
  predicate StartsWithPacket(s: seq<Byte>) {
    var d := Decode(s);
    d.Decoded? && d.size + d.value <= |s|
  }

  function PacketSize(s: seq<Byte>): (n: nat)
    requires StartsWithPacket(s)
    ensures 0 < n <= |s|
  {
    Decode(s).size + Decode(s).value
  }

  function FirstFrame(s: seq<Byte>): (f: Frame)
    requires StartsWithPacket(s)
  {
    Open(s[Decode(s).size..PacketSize(s)])
  }

  lemma FirstPacketIsStable(a: seq<Byte>, b: seq<Byte>)
    requires StartsWithPacket(a)
    ensures StartsWithPacket(a + b)
    ensures PacketSize(a + b) == PacketSize(a)
    ensures FirstFrame(a + b) == FirstFrame(a)
    ensures (a + b)[PacketSize(a)..] == a[PacketSize(a)..] + b
  {
    DecodeIsPrefixStable(a, b);
    var d := Decode(a);
    assert (a + b)[d.size..PacketSize(a)] == a[d.size..PacketSize(a)];
  }

  function Parse(s: seq<Byte>): (p: Parsed)
    decreases |s|
  {
    if StartsWithPacket(s) then
      Prepend([FirstFrame(s)], Parse(s[PacketSize(s)..]))
    else
      Parsed([], s)
  }

  function Prepend(frames: seq<Frame>, p: Parsed): (r: Parsed) {
    Parsed(frames + p.frames, p.rest)
  }

  /** Parsing can be resumed: what was left over, followed by new bytes, yields
      exactly the frames still to come. */
  lemma {:induction false} ParseResumes(a: seq<Byte>, b: seq<Byte>)
    ensures Parse(a + b) == Prepend(Parse(a).frames, Parse(Parse(a).rest + b))
    decreases |a|
  {
    hide Decode, Open;
    if StartsWithPacket(a) {
      var n := PacketSize(a);
      FirstPacketIsStable(a, b);
      ParseResumes(a[n..], b);
      var more := Parse(Parse(a[n..]).rest + b).frames;
      assert [FirstFrame(a)] + (Parse(a[n..]).frames + more) == [FirstFrame(a)] + Parse(a[n..]).frames + more;
    }
  }

  predicate AllFramable(frames: seq<Frame>) {
    forall i :: 0 <= i < |frames| ==> Framable(frames[i])
  }

  function Stream(frames: seq<Frame>): (s: seq<Byte>)
    requires AllFramable(frames)
  {
    if frames == [] then [] else Bytes(frames[0]) + Stream(frames[1..])
  }

  lemma ParseOne(f: Frame, rest: seq<Byte>)
    requires Framable(f)
    ensures Parse(Bytes(f) + rest) == Prepend([f], Parse(rest))
  {
    var s := Bytes(f) + rest;
    var h := Encode(|Body(f)|);
    assert s == h + (Body(f) + rest);
    RoundTrip(|Body(f)|, Body(f) + rest);
    assert s[|h|..|h| + |Body(f)|] == Body(f);
    assert s[|h| + |Body(f)|..] == rest;
    RoundTrip(f.id, f.payload);
    assert Body(f)[|Encode(f.id)|..] == f.payload;
  }

  /** Any sequence of well-formed frames survives framing and parsing. */
  lemma {:induction false} StreamRoundTrip(frames: seq<Frame>, rest: seq<Byte>)
    requires AllFramable(frames)
    ensures Parse(Stream(frames) + rest) == Prepend(frames, Parse(rest))
    decreases |frames|
  {
    hide Bytes, Parse;
    if frames == [] {
      assert Stream(frames) + rest == rest;
      assert Prepend(frames, Parse(rest)) == Parse(rest);
    } else {
      assert Stream(frames) + rest == Bytes(frames[0]) + (Stream(frames[1..]) + rest);
      ParseOne(frames[0], Stream(frames[1..]) + rest);
      StreamRoundTrip(frames[1..], rest);
      assert [frames[0]] + (frames[1..] + Parse(rest).frames) == frames + Parse(rest).frames;
    }
  }

  /** A frame's bytes determine it: no two framings collide, and none is a prefix
      of the other. */
  lemma BytesArePrefixFree(f: Frame, g: Frame, rest: seq<Byte>)
    requires Framable(f) && Framable(g)
    requires Bytes(f) + rest == Bytes(g)
    ensures f == g && rest == []
  {
    ParseOne(f, rest);
    ParseOne(g, []);
    assert Bytes(g) + [] == Bytes(g);
    assert Parse(Bytes(g)).frames == [g] && Parse(Bytes(g)).frames[0] == f;
  }

  // ----- control packets -----

  const CLOSE_STREAM := 1
  const ACK_CLOSE_STREAM := 2

  /** What `receiveFullChunk` understands of a packet on stream 0. */
  datatype Control = Ignored | Control(code: Byte, stream: nat)

  function ReadControl(payload: seq<Byte>): (c: Control) {
    if |payload| == 0 then Ignored
    else if payload[0] != CLOSE_STREAM && payload[0] != ACK_CLOSE_STREAM then Ignored
    else match Decode(payload[1..])
      case TooShort => Ignored
      case Decoded(id, _) => if id == 0 then Ignored else Control(payload[0], id)
  }

  /** Only the two control codes are heeded, and only for a stream other than 0. */
  lemma OnlyCloseAndAck(payload: seq<Byte>)
    ensures var c := ReadControl(payload);
            c.Control? ==> (c.code == CLOSE_STREAM || c.code == ACK_CLOSE_STREAM) && 0 < c.stream < LIMIT
  {
  }

  /** A packet whose body breaks off inside its stream id is passed on as an empty packet on
      stream 0, which nobody heeds, and the packets behind it are not affected. */
  lemma ShortBodyIsIgnored(body: seq<Byte>, rest: seq<Byte>)
    requires |body| < LIMIT && Decode(body).TooShort?
    ensures Parse(Encode(|body|) + body + rest) == Prepend([Frame(0, [])], Parse(rest))
    ensures ReadControl([]) == Ignored
  {
    hide Encode, Decode;
    var s := Encode(|body|) + body + rest;
    assert s == Encode(|body|) + (body + rest);
    RoundTrip(|body|, body + rest);
    assert s[|Encode(|body|)|..PacketSize(s)] == body && s[PacketSize(s)..] == rest;
    assert Open(body) == Frame(0, []);
  }

  lemma ControlRoundTrip(code: Byte, stream: nat)
    requires code == CLOSE_STREAM || code == ACK_CLOSE_STREAM
    requires 0 < stream < LIMIT
    ensures ReadControl([code] + Encode(stream)) == Control(code, stream)
  {
    RoundTrip(stream, []);
    assert ([code] + Encode(stream))[1..] == Encode(stream) + [];
  }

  lemma EncodeZero()
    ensures Encode(0) == [0]
  {
  }

  /** Writes stream id 0, the code and the stream's id; `end` is where they stop. */
  method WriteControlBody(data: array<Byte>, code: Byte, stream: nat) returns (end: nat)
    requires stream < LIMIT && 4 * MAX_SERIALIZED_LENGTH <= data.Length
    modifies data
    ensures MAX_SERIALIZED_LENGTH <= end <= data.Length
    ensures data[MAX_SERIALIZED_LENGTH..end] == Body(Frame(0, [code] + Encode(stream)))
  {
    hide Encode;
    EncodeZero();
    var size := Serialize(0, data, MAX_SERIALIZED_LENGTH);
    assert data[MAX_SERIALIZED_LENGTH..MAX_SERIALIZED_LENGTH + 1][0] == 0;
    var cur := MAX_SERIALIZED_LENGTH + size + 1;
    data[cur - 1] := code;
    size := Serialize(stream, data, cur);
    end := cur + size;
    assert data[MAX_SERIALIZED_LENGTH] == 0 && data[cur - 1] == code;
    assert data[MAX_SERIALIZED_LENGTH..end] == [0] + ([code] + data[cur..end]);
  }

  /** Builds a control packet the way `constructControlPacket` does: the body goes
      into a scratch array behind room for the longest header, and the header is
      then written immediately in front of it. */
  method ConstructControlPacket(code: Byte, stream: nat) returns (packet: seq<Byte>)
    requires stream < LIMIT
    ensures packet == Bytes(Frame(0, [code] + Encode(stream)))
  {
    hide Encode;
    var data := new Byte[16 + 2 * MAX_SERIALIZED_LENGTH](_ => 0);
    var end := WriteControlBody(data, code, stream);
    ghost var body := data[MAX_SERIALIZED_LENGTH..end];
    assert |body| == |Encode(0)| + 1 + |Encode(stream)|;
    var streamSize := end - MAX_SERIALIZED_LENGTH;
    var headerLength := Serialize(streamSize, data, 0);
    if headerLength != MAX_SERIALIZED_LENGTH {
      var again := Serialize(streamSize, data, MAX_SERIALIZED_LENGTH - headerLength);
      assert again == headerLength;
    }
    var start := MAX_SERIALIZED_LENGTH - headerLength;
    packet := data[start..end];
    assert data[MAX_SERIALIZED_LENGTH..end] == body;
    assert packet == data[start..MAX_SERIALIZED_LENGTH] + body;
  }

  /** Builds a data packet the way `TCPStream::send` does. */
  method ConstructDataPacket(id: nat, data: seq<Byte>) returns (packet: seq<Byte>)
    requires Framable(Frame(id, data))
    ensures packet == Bytes(Frame(id, data))
  {
    var serializedStreamId := new Byte[MAX_SERIALIZED_LENGTH](_ => 0);
    var streamIdLength := Serialize(id, serializedStreamId, 0);
    var totalSize := |data| + streamIdLength;
    var packetLengthSerialized := new Byte[MAX_SERIALIZED_LENGTH](_ => 0);
    var packetHeaderLength := Serialize(totalSize, packetLengthSerialized, 0);
    packet := packetLengthSerialized[..packetHeaderLength] + serializedStreamId[..streamIdLength] + data;
    assert serializedStreamId[..streamIdLength] == Encode(id);
    assert packetLengthSerialized[..packetHeaderLength] == Encode(totalSize);
  }
}
