/** Reassembly of packets from arbitrary reads (libcore/src/network/ASIOReadBuffer.cpp).
    Bytes arrive either in a fixed buffer, where several small packets may share a
    read, or directly in the payload of one large packet. */
module ReadBuffers {
  import opened ByteStrings
  import opened Uint30
  import opened Frames

  const LOW_WATER_MARK := 256
  const BUFFER_LENGTH := 1440

  /** Which `async_receive` is outstanding. */
  datatype Mode = IntoFixedBuffer | IntoChunk

  /** Splits the bytes of a packet body received so far into its stream id and the
      start of its payload; the payload is allocated at full length.  The two
      assertions are those of the source. */
  method ProcessPartialChunk(data: seq<Byte>, packetLength: nat)
    returns (id: nat, filled: nat, chunk: seq<Byte>)
    requires |data| <= packetLength
    requires |data| == packetLength || Decode(data).Decoded?
    ensures filled <= |chunk|
    ensures |data| == packetLength ==> Frame(id, chunk) == Open(data)
    ensures |data| < packetLength ==>
              var d := Decode(data);
              && id == d.value
              && |chunk| == packetLength - d.size
              && chunk[..filled] == data[d.size..]
  {
    var d := Decode(data);
    var headerLength := if d.Decoded? then d.size else |data|;
    id := if d.Decoded? then d.value else 0;
    assert headerLength <= |data|;
    assert headerLength <= packetLength;
    filled := |data| - headerLength;
    chunk := data[headerLength..] + seq(packetLength - |data|, _ => 0);
    assert chunk[..filled] == data[headerLength..];
  }

  /** Header, id and full payload parse as one packet; anything less is incomplete. */
  lemma ChunkParses(header: seq<Byte>, idBytes: seq<Byte>, id: nat, payload: seq<Byte>, total: nat)
    requires Decode(header) == Decoded(|idBytes| + total, |header|)
    requires Decode(idBytes) == Decoded(id, |idBytes|)
    requires |payload| <= total
    ensures var s := header + (idBytes + payload);
            Parse(s) == if |payload| == total then Parsed([Frame(id, payload)], []) else Parsed([], s)
  {
    var s := header + (idBytes + payload);
    DecodeIsPrefixStable(header, idBytes + payload);
    if |payload| == total {
      assert s[|header|..|header| + |idBytes| + total] == idBytes + payload;
      assert s[PacketSize(s)..] == [];
      DecodeIsPrefixStable(idBytes, payload);
      assert (idBytes + payload)[|idBytes|..] == payload;
      assert FirstFrame(s) == Frame(id, payload);
      assert Parse([]) == Parsed([], []);
    }
  }

  class ReadBuffer {
    const mBuffer: array<Byte>
    var mBufferPos: nat
    var mNewChunk: seq<Byte>
    var mNewChunkID: nat
    var mode: Mode
    /** The packets passed to `receiveFullChunk`, in order. */
    var delivered: seq<Frame>
    /** Every byte the socket has produced. */
    ghost var received: seq<Byte>
    /** The length and id bytes of the packet that `mNewChunk` is being filled for. */
    ghost var header: seq<Byte>
    ghost var idBytes: seq<Byte>

    /** The state whenever a read is outstanding: what was delivered, and what is
        still held, are exactly the parse of everything received. */
    ghost predicate Valid()
      reads this, mBuffer
    {
      && mBuffer.Length == BUFFER_LENGTH
      && match mode
         case IntoFixedBuffer =>
           && mNewChunk == []
           && mBufferPos < LOW_WATER_MARK
           && Parse(received) == Parsed(delivered, mBuffer[..mBufferPos])
         case IntoChunk =>
           && mBufferPos < |mNewChunk|
           && Decode(header) == Decoded(|idBytes| + |mNewChunk|, |header|)
           && Decode(idBytes) == Decoded(mNewChunkID, |idBytes|)
           && Parse(received) == Parsed(delivered, header + (idBytes + mNewChunk[..mBufferPos]))
    }

    /** How many bytes the outstanding read may return at most. */
    function Room(): nat
      requires Valid()
      reads this, mBuffer
      ensures 0 < Room()
      ensures mBufferPos + Room() == if mode.IntoFixedBuffer? then mBuffer.Length else |mNewChunk|
    {
      if mode.IntoFixedBuffer? then BUFFER_LENGTH - mBufferPos else |mNewChunk| - mBufferPos
    }

    constructor ()
      ensures Valid() && fresh(mBuffer)
      ensures received == [] && delivered == []
    {
      mBuffer := new Byte[BUFFER_LENGTH](_ => 0);
      mBufferPos := 0;
      mNewChunk, mNewChunkID := [], 0;
      mode := IntoFixedBuffer;
      delivered, received := [], [];
      header, idBytes := [], [];
    }

    /** Delivers every whole packet in the buffer, then either keeps the remainder at
        the front of the buffer or starts filling one large chunk. */
    method TranslateBuffer()
      requires mBuffer.Length == BUFFER_LENGTH && mBufferPos <= BUFFER_LENGTH
      requires mode.IntoFixedBuffer? && mNewChunk == []
      requires Parse(received) == Prepend(delivered, Parse(mBuffer[..mBufferPos]))
      modifies this, mBuffer
      ensures Valid() && received == old(received)
    {
      hide Decode, Open, Parse, Prepend;
      var chunkPos := 0;
      var d := Decode(mBuffer[chunkPos..mBufferPos]);
      while d.Decoded?
        invariant 0 <= chunkPos <= mBufferPos <= BUFFER_LENGTH
        invariant d == Decode(mBuffer[chunkPos..mBufferPos])
        invariant mode.IntoFixedBuffer? && mNewChunk == [] && received == old(received)
        invariant Parse(received) == Prepend(delivered, Parse(mBuffer[chunkPos..mBufferPos]))
        decreases mBufferPos - chunkPos
      {
        var packetHeaderLength, packetLength := d.size, d.value;
        ghost var held := mBuffer[chunkPos..mBufferPos];
        if mBufferPos - chunkPos < packetLength + packetHeaderLength {
          if mBufferPos - chunkPos < LOW_WATER_MARK {
            break;
          }
          var body := mBuffer[chunkPos + packetHeaderLength..mBufferPos];
          StartChunk(held, body, packetLength);
          return;
        }
        var next := chunkPos + packetHeaderLength + packetLength;
        var body := mBuffer[chunkPos + packetHeaderLength..next];
        var id, filled, chunk := ProcessPartialChunk(body, packetLength);
        ghost var rest := mBuffer[next..mBufferPos];
        assert held == held[..d.size] + body + rest;
        DeliverFirst(delivered, held, d, body, rest);
        delivered := delivered + [Frame(id, chunk)];
        chunkPos := next;
        d := Decode(mBuffer[chunkPos..mBufferPos]);
      }
      KeepIncomplete(delivered, mBuffer[chunkPos..mBufferPos]);
      MoveToFront(chunkPos);
    }

    /** The packet at the front of what is held is the next one to deliver. */
    static lemma DeliverFirst(done: seq<Frame>, held: seq<Byte>, d: Decoded, body: seq<Byte>, rest: seq<Byte>)
      requires Decode(held) == d && d.Decoded? && d.size <= |held| && |body| == d.value
      requires held == held[..d.size] + body + rest
      ensures Prepend(done, Parse(held)) == Prepend(done + [Open(body)], Parse(rest))
    {
      hide Decode, Open;
      assert held[d.size..PacketSize(held)] == body && held[PacketSize(held)..] == rest;
      assert done + ([Open(body)] + Parse(rest).frames) == (done + [Open(body)]) + Parse(rest).frames;
    }

    static lemma KeepIncomplete(done: seq<Frame>, held: seq<Byte>)
      requires !StartsWithPacket(held)
      ensures Prepend(done, Parse(held)) == Parsed(done, held)
    {
      assert done + [] == done;
    }

    /** Switches to reading straight into a chunk. */
    method StartChunk(ghost held: seq<Byte>, body: seq<Byte>, packetLength: nat)
      requires mBuffer.Length == BUFFER_LENGTH && mode.IntoFixedBuffer? && mNewChunk == []
      requires LOW_WATER_MARK <= |held|
      requires Decode(held).Decoded? && packetLength == Decode(held).value
      requires body == held[Decode(held).size..] && |body| < packetLength
      requires Parse(received) == Prepend(delivered, Parse(held))
      modifies this
      ensures Valid() && received == old(received)
    {
      hide Decode, Open;
      var id, filled, chunk := ProcessPartialChunk(body, packetLength);
      var n := Decode(body).size;
      header, idBytes := held[..|held| - |body|], body[..n];
      DecodeIsPrefixStable(held, []);
      DecodeIsPrefixStable(body, []);
      assert held == header + (idBytes + chunk[..filled]);
      assert Parse(held) == Parsed([], held);
      assert Prepend(delivered, Parsed([], held)) == Parsed(delivered, held);
      mNewChunkID, mBufferPos, mNewChunk := id, filled, chunk;
      mode := IntoChunk;
    }

    /** The memmove of the undelivered remainder. */
    method MoveToFront(chunkPos: nat)
      requires chunkPos <= mBufferPos <= mBuffer.Length
      modifies this`mBufferPos, mBuffer
      ensures mBufferPos == old(mBufferPos) - chunkPos
      ensures mBuffer[..mBufferPos] == old(mBuffer[chunkPos..mBufferPos])
    {
      if chunkPos != 0 && mBufferPos != chunkPos {
        forall k | 0 <= k < mBufferPos - chunkPos {
          mBuffer[k] := mBuffer[chunkPos + k];
        }
      }
      mBufferPos := mBufferPos - chunkPos;
    }

    method AsioReadIntoFixedBuffer(data: seq<Byte>)
      requires Valid() && mode.IntoFixedBuffer? && |data| <= Room()
      modifies this, mBuffer
      ensures Valid() && received == old(received) + data
    {
      ghost var held := mBuffer[..mBufferPos];
      forall k | 0 <= k < |data| {
        mBuffer[mBufferPos + k] := data[k];
      }
      mBufferPos := mBufferPos + |data|;
      assert mBuffer[..mBufferPos] == held + data;
      ParseResumes(received, data);
      received := received + data;
      TranslateBuffer();
    }

    method AsioReadIntoChunk(data: seq<Byte>)
      requires Valid() && mode.IntoChunk? && |data| <= Room()
      modifies this
      ensures Valid() && received == old(received) + data
    {
      ghost var held := mNewChunk[..mBufferPos];
      mNewChunk := mNewChunk[..mBufferPos] + data + mNewChunk[mBufferPos + |data|..];
      mBufferPos := mBufferPos + |data|;
      ghost var now := mNewChunk[..mBufferPos];
      assert now == held + data;
      ParseResumes(received, data);
      assert header + (idBytes + held) + data == header + (idBytes + now);
      ChunkParses(header, idBytes, mNewChunkID, now, |mNewChunk|);
      received := received + data;
      if mBufferPos >= |mNewChunk| {
        assert mBufferPos == |mNewChunk|;
        assert now == mNewChunk;
        delivered := delivered + [Frame(mNewChunkID, mNewChunk)];
        mNewChunk := [];
        mBufferPos := 0;
        mode := IntoFixedBuffer;
      } else {
        assert Prepend(delivered, Parsed([], header + (idBytes + now)))
            == Parsed(delivered, header + (idBytes + now));
      }
    }

    /** One completed read of any size the socket may return. */
    method Receive(data: seq<Byte>)
      requires Valid() && |data| <= Room()
      modifies this, mBuffer
      ensures Valid() && received == old(received) + data
      ensures delivered == Parse(received).frames
    {
      if mode.IntoFixedBuffer? {
        AsioReadIntoFixedBuffer(data);
      } else {
        AsioReadIntoChunk(data);
      }
    }

    /** A whole stream, cut into reads in any way: `cut(k)` is the size wanted for
        the read that starts at byte k.  What is delivered does not depend on it. */
    method ReceiveAll(stream: seq<Byte>, cut: nat -> nat)
      requires Valid()
      modifies this, mBuffer
      ensures Valid() && received == old(received) + stream
      ensures delivered == Parse(old(received) + stream).frames
    {
      hide Valid, Parse, Room;
      var k := 0;
      while k < |stream|
        invariant 0 <= k <= |stream|
        invariant Valid() && received == old(received) + stream[..k]
      {
        var most := if |stream| - k < Room() then |stream| - k else Room();
        var n := if 1 <= cut(k) <= most then cut(k) else most;
        Receive(stream[k..k + n]);
        assert stream[..k + n] == stream[..k] + stream[k..k + n];
        k := k + n;
      }
      assert stream[..k] == stream;
      NothingIsMissing();
    }

    lemma NothingIsMissing()
      requires Valid()
      ensures delivered == Parse(received).frames
    {
    }
  }
}
