/** Moving chunks to the wire (the two `sendToWire` overloads and their completion
    handlers in libcore/src/network/ASIOSocketWrapper.cpp).  `async_send` may accept
    any part of what it is given; the handlers pick up from there. */
module SendPacking {
  import opened ByteStrings

  const PACKET_BUFFER_SIZE := 1400

  type Chunk = seq<Byte>

  function Concat(chunks: seq<Chunk>): (s: seq<Byte>) {
    if chunks == [] then [] else chunks[0] + Concat(chunks[1..])
  }

  /** The bytes of a deque whose front chunk has lost its first `offset` bytes. */
  function Tail(chunks: seq<Chunk>, offset: nat): (s: seq<Byte>)
    requires offset <= (if chunks == [] then 0 else |chunks[0]|)
  {
    Concat(chunks)[offset..]
  }

  /** A legal resume point: at the start of the front chunk or strictly inside it. */
  predicate ResumesAt(chunks: seq<Chunk>, offset: nat) {
    offset == 0 || (0 < |chunks| && offset < |chunks[0]|)
  }

  predicate NonEmpty(chunks: seq<Chunk>) {
    forall i :: 0 <= i < |chunks| ==> chunks[i] != []
  }

  /** The `async_send` in progress, with the state bound into its handler.  `Stalled`
      is a deque that neither branch of `sendToWire` takes up. */
  datatype Outstanding =
    | Finished
    | Stalled(chunks: seq<Chunk>)
    | LargeChunk(chunk: Chunk, offset: nat)
    | LargeDequeItem(chunks: seq<Chunk>, offset: nat)
    | StaticBuffer(chunks: seq<Chunk>, current: nat, size: nat, offset: nat)

  class Sender {
    const mBuffer: array<Byte>
    var outstanding: Outstanding
    /** Every byte the socket has accepted. */
    var wire: seq<Byte>

    ghost predicate Valid()
      reads this`outstanding
    {
      && mBuffer.Length == PACKET_BUFFER_SIZE
      && match outstanding
         case Finished => true
         case Stalled(chunks) => 1 < |chunks| && chunks[0] == []
         case LargeChunk(chunk, offset) => ResumesAt([chunk], offset)
         case LargeDequeItem(chunks, offset) =>
           0 < |chunks| && ResumesAt(chunks, offset) && (1 < |chunks| ==> chunks[0] != [])
         case StaticBuffer(chunks, current, size, offset) =>
           0 < size && current + size <= PACKET_BUFFER_SIZE && ResumesAt(chunks, offset)
    }

    /** The bytes entrusted to the sender that the socket has not accepted yet. */
    ghost function Remaining(): (s: seq<Byte>)
      requires Valid()
      reads this`outstanding, mBuffer
    {
      match outstanding
      case Finished => []
      case Stalled(chunks) => Concat(chunks)
      case LargeChunk(chunk, offset) => chunk[offset..]
      case LargeDequeItem(chunks, offset) => Tail(chunks, offset)
      case StaticBuffer(chunks, current, size, offset) =>
        mBuffer[current..current + size] + Tail(chunks, offset)
    }

    /** How many bytes the outstanding `async_send` was given. */
    function Offered(): (n: nat)
      requires Valid()
      reads this`outstanding
    {
      match outstanding
      case Finished => 0
      case Stalled(_) => 0
      case LargeChunk(chunk, offset) => |chunk| - offset
      case LargeDequeItem(chunks, offset) => |chunks[0]| - offset
      case StaticBuffer(_, _, size, _) => size
    }

    /** The socket is given the whole of a single chunk, the whole rest of the front chunk
        of a deque, or the whole buffer. */
    lemma OfferIsWhole()
      requires Valid()
      ensures Offered() <= |Remaining()|
      ensures outstanding.LargeChunk? ==> Offered() == |Remaining()|
      ensures outstanding.LargeDequeItem? ==>
                Remaining()[..Offered()] == outstanding.chunks[0][outstanding.offset..]
      ensures outstanding.StaticBuffer? ==>
                Remaining()[..Offered()] == mBuffer[outstanding.current..outstanding.current + outstanding.size]
    {
      hide Concat, Tail;
      if outstanding.LargeDequeItem? {
        TailDrops(outstanding.chunks, outstanding.offset, |outstanding.chunks[0]| - outstanding.offset);
      }
    }

    /** No empty chunk is waiting in a deque, and none has stopped the sender. */
    ghost predicate Flowing()
      reads this`outstanding
    {
      match outstanding
      case Finished => true
      case Stalled(_) => false
      case LargeChunk(_, _) => true
      case LargeDequeItem(chunks, _) => NonEmpty(chunks)
      case StaticBuffer(chunks, _, _, _) => NonEmpty(chunks)
    }

    constructor ()
      ensures Valid() && fresh(mBuffer)
      ensures outstanding == Finished && wire == []
    {
      mBuffer := new Byte[PACKET_BUFFER_SIZE](_ => 0);
      outstanding, wire := Finished, [];
    }

    method SendChunkToWire(chunk: Chunk, bytesSent: nat)
      requires mBuffer.Length == PACKET_BUFFER_SIZE && ResumesAt([chunk], bytesSent)
      modifies this`outstanding
      ensures Valid() && Flowing() && Remaining() == chunk[bytesSent..]
    {
      outstanding := LargeChunk(chunk, bytesSent);
    }

    method CopyToBuffer(at: nat, data: seq<Byte>)
      requires at + |data| <= mBuffer.Length
      modifies mBuffer
      ensures mBuffer[..at + |data|] == old(mBuffer[..at]) + data
    {
      forall k | 0 <= k < |data| {
        mBuffer[at + k] := data[k];
      }
    }

    method SendDequeToWire(chunks: seq<Chunk>, offset: nat)
      requires mBuffer.Length == PACKET_BUFFER_SIZE
      requires 0 < |chunks| && ResumesAt(chunks, offset)
      modifies this`outstanding, mBuffer
      ensures Valid() && Remaining() == Tail(chunks, offset)
      ensures outstanding == Stalled(chunks) <==> 1 < |chunks| && chunks[0] == []
      ensures outstanding.Stalled? ==> outstanding == Stalled(chunks)
      ensures outstanding.LargeDequeItem? <==> |chunks| == 1 || |chunks[0]| - offset > PACKET_BUFFER_SIZE
      ensures outstanding.StaticBuffer? ==> outstanding.size == PACKET_BUFFER_SIZE || outstanding.chunks == []
      ensures NonEmpty(chunks) ==> Flowing()
    {
      hide Concat;
      if |chunks[0]| - offset > PACKET_BUFFER_SIZE || |chunks| == 1 {
        outstanding := LargeDequeItem(chunks, offset);
      } else if |chunks[0]| != 0 {
        var toSend, bufferLocation, bytesSent := PackBuffer(chunks, offset);
        outstanding := StaticBuffer(toSend, 0, bufferLocation, bytesSent);
      } else {
        outstanding := Stalled(chunks);
      }
    }

    /** Copies as much of the deque as fits, until the buffer is full or all is in it; a
        chunk that fits only in part stays, with the number of its bytes already copied. */
    method PackBuffer(chunks: seq<Chunk>, offset: nat)
      returns (toSend: seq<Chunk>, bufferLocation: nat, bytesSent: nat)
      requires mBuffer.Length == PACKET_BUFFER_SIZE
      requires 0 < |chunks| && offset < |chunks[0]| <= offset + PACKET_BUFFER_SIZE
      modifies mBuffer
      ensures 0 < bufferLocation <= PACKET_BUFFER_SIZE && ResumesAt(toSend, bytesSent)
      ensures mBuffer[..bufferLocation] + Tail(toSend, bytesSent) == Tail(chunks, offset)
      ensures bufferLocation == PACKET_BUFFER_SIZE || toSend == []
      ensures NonEmpty(chunks) ==> NonEmpty(toSend)
    {
      hide Tail, Concat;
      bufferLocation := |chunks[0]| - offset;
      CopyToBuffer(0, chunks[0][offset..]);
      toSend, bytesSent := chunks[1..], 0;
      TakeFront(chunks, offset);
      WholeTail(toSend);
      while bufferLocation < PACKET_BUFFER_SIZE && |toSend| != 0
        invariant 0 < bufferLocation <= PACKET_BUFFER_SIZE
        invariant ResumesAt(toSend, bytesSent)
        invariant bufferLocation < PACKET_BUFFER_SIZE ==> bytesSent == 0
        invariant mBuffer[..bufferLocation] + Tail(toSend, bytesSent) == Tail(chunks, offset)
        invariant NonEmpty(chunks) ==> NonEmpty(toSend)
        decreases |toSend|, PACKET_BUFFER_SIZE - bufferLocation
      {
        ghost var packed := mBuffer[..bufferLocation];
        if |toSend[0]| > PACKET_BUFFER_SIZE - bufferLocation {
          bytesSent := PACKET_BUFFER_SIZE - bufferLocation;
          CopyToBuffer(bufferLocation, toSend[0][..bytesSent]);
          MovePart(packed, toSend, bytesSent);
          bufferLocation := PACKET_BUFFER_SIZE;
        } else {
          CopyToBuffer(bufferLocation, toSend[0]);
          MovePart(packed, toSend, |toSend[0]|);
          TakeFront(toSend, |toSend[0]|);
          WholeTail(toSend[1..]);
          bufferLocation := bufferLocation + |toSend[0]|;
          toSend := toSend[1..];
        }
      }
    }

    static lemma MovePart(packed: seq<Byte>, chunks: seq<Chunk>, n: nat)
      requires 0 < |chunks| && n <= |chunks[0]|
      ensures packed + Tail(chunks, 0) == packed + chunks[0][..n] + Tail(chunks, n)
    {
      assert Concat(chunks)[..n] == chunks[0][..n];
    }

    static lemma WholeTail(chunks: seq<Chunk>)
      ensures Tail(chunks, 0) == Concat(chunks)
    {
    }

    static lemma TakeFront(chunks: seq<Chunk>, offset: nat)
      requires 0 < |chunks| && offset <= |chunks[0]|
      ensures Tail(chunks, offset) == chunks[0][offset..] + Concat(chunks[1..])
    {
    }

    static lemma TailDrops(chunks: seq<Chunk>, offset: nat, n: nat)
      requires 0 < |chunks| && offset + n <= |chunks[0]|
      ensures |Tail(chunks, offset)| >= n && Tail(chunks, offset)[..n] == chunks[0][offset..offset + n]
      ensures Tail(chunks, offset + n) == Tail(chunks, offset)[n..]
      ensures offset + n == |chunks[0]| && |chunks| > 1 && NonEmpty(chunks) ==> Tail(chunks, offset + n) != []
    {
      TakeFront(chunks, offset);
    }

    /** The socket accepts `n` bytes of the outstanding send and its handler runs. */
    method Complete(n: nat)
      requires Valid() && !outstanding.Finished? && !outstanding.Stalled?
      requires n <= Offered() && (n == 0 ==> Offered() == 0)
      modifies this, mBuffer
      ensures Valid()
      ensures n <= |old(Remaining())| && wire == old(wire) + old(Remaining())[..n]
      ensures Remaining() == old(Remaining())[n..]
      ensures |Remaining()| < |old(Remaining())| || outstanding.Finished?
      ensures old(Flowing()) ==> Flowing()
    {
      hide Valid, Remaining, Offered, Flowing;
      Accept(n);
      Handle(n);
    }

    method Accept(n: nat)
      requires Valid() && n <= Offered()
      modifies this`wire
      ensures n <= |Remaining()| && wire == old(wire) + Remaining()[..n]
    {
      hide Concat, Tail;
      match outstanding {
        case Finished =>
        case Stalled(_) =>
        case LargeChunk(chunk, offset) =>
          wire := wire + chunk[offset..offset + n];
        case LargeDequeItem(chunks, offset) =>
          TailDrops(chunks, offset, n);
          wire := wire + chunks[0][offset..offset + n];
        case StaticBuffer(chunks, current, size, offset) =>
          assert Remaining()[..n] == mBuffer[current..current + n];
          wire := wire + mBuffer[current..current + n];
      }
    }

    /** Runs the handler bound to the outstanding send. */
    method Handle(n: nat)
      requires Valid() && !outstanding.Finished? && !outstanding.Stalled?
      requires n <= Offered() && n <= |Remaining()| && (n == 0 ==> Offered() == 0)
      modifies this`outstanding, mBuffer
      ensures Valid()
      ensures Remaining() == old(Remaining())[n..]
      ensures n == 0 ==> outstanding.Finished?
      ensures old(Flowing()) ==> Flowing()
    {
      hide Concat, Tail;
      match outstanding {
        case LargeChunk(chunk, offset) =>
          SendLargeChunkItem(chunk, offset, n);
        case LargeDequeItem(chunks, offset) =>
          TailDrops(chunks, offset, n);
          SendLargeDequeItem(chunks, offset, n);
        case StaticBuffer(chunks, current, size, offset) =>
          assert Remaining()[n..] == mBuffer[current + n..current + size] + Tail(chunks, offset);
          SendStaticBuffer(chunks, current, size, offset, n);
      }
    }

    method SendLargeChunkItem(toSend: Chunk, originalOffset: nat, bytesSent: nat)
      requires mBuffer.Length == PACKET_BUFFER_SIZE
      requires ResumesAt([toSend], originalOffset) && originalOffset + bytesSent <= |toSend|
      modifies this`outstanding
      ensures Valid() && Flowing() && Remaining() == toSend[originalOffset + bytesSent..]
      ensures originalOffset + bytesSent == |toSend| ==> outstanding.Finished?
    {
      if bytesSent + originalOffset != |toSend| {
        SendChunkToWire(toSend, originalOffset + bytesSent);
      } else {
        outstanding := Finished;
      }
    }

    method SendLargeDequeItem(chunks: seq<Chunk>, originalOffset: nat, bytesSent: nat)
      requires mBuffer.Length == PACKET_BUFFER_SIZE
      requires 0 < |chunks| && ResumesAt(chunks, originalOffset) && originalOffset + bytesSent <= |chunks[0]|
      modifies this`outstanding, mBuffer
      ensures Valid() && Remaining() == Tail(chunks, originalOffset + bytesSent)
      ensures originalOffset + bytesSent == |chunks[0]| && |chunks| == 1 ==> outstanding.Finished?
      ensures NonEmpty(chunks) ==> Flowing()
    {
      if bytesSent + originalOffset != |chunks[0]| {
        SendDequeToWire(chunks, originalOffset + bytesSent);
      } else {
        TakeFront(chunks, originalOffset + bytesSent);
        if |chunks| < 2 {
          outstanding := Finished;
        } else {
          SendRest(chunks[1..], 0);
        }
      }
    }

    method SendStaticBuffer(chunks: seq<Chunk>, current: nat, size: nat, lastChunkOffset: nat, bytesSent: nat)
      requires mBuffer.Length == PACKET_BUFFER_SIZE
      requires current + size <= PACKET_BUFFER_SIZE && ResumesAt(chunks, lastChunkOffset) && bytesSent <= size
      modifies this`outstanding, mBuffer
      ensures Valid()
      ensures Remaining() == old(mBuffer[current + bytesSent..current + size]) + Tail(chunks, lastChunkOffset)
      ensures NonEmpty(chunks) ==> Flowing()
    {
      if bytesSent != size {
        outstanding := StaticBuffer(chunks, current + bytesSent, size - bytesSent, lastChunkOffset);
      } else if |chunks| != 0 {
        SendRest(chunks, lastChunkOffset);
      } else {
        outstanding := Finished;
      }
    }

    /** What is left of a deque goes out as a single chunk when there is only one. */
    method SendRest(chunks: seq<Chunk>, offset: nat)
      requires mBuffer.Length == PACKET_BUFFER_SIZE
      requires 0 < |chunks| && ResumesAt(chunks, offset)
      modifies this`outstanding, mBuffer
      ensures Valid() && Remaining() == Tail(chunks, offset)
      ensures outstanding.Stalled? <==> 1 < |chunks| && chunks[0] == []
      ensures outstanding.Stalled? ==> outstanding == Stalled(chunks)
      ensures NonEmpty(chunks) ==> Flowing()
    {
      if |chunks| == 1 {
        TakeFront(chunks, offset);
        SendChunkToWire(chunks[0], offset);
      } else {
        SendDequeToWire(chunks, offset);
      }
    }

    lemma AtRest()
      requires Valid()
      ensures outstanding.Finished? ==> Remaining() == []
      ensures Flowing() ==> !outstanding.Stalled?
    {
    }

    /** One round trip to the socket. */
    method SendSome(accept: nat -> nat)
      requires Valid() && !outstanding.Finished? && !outstanding.Stalled?
      modifies this, mBuffer
      ensures Valid() && wire + Remaining() == old(wire + Remaining())
      ensures |Remaining()| < |old(Remaining())| || outstanding.Finished?
      ensures old(Flowing()) ==> Flowing()
    {
      hide Valid, Remaining, Offered, Flowing;
      var most := Offered();
      var n := if 1 <= accept(|wire|) <= most then accept(|wire|) else most;
      ghost var r := Remaining();
      Complete(n);
      assert old(wire) + r[..n] + r[n..] == old(wire) + r;
    }

    /** Sends a queue to the end, whatever the socket accepts each time: `accept(k)` is
        the amount wanted once k bytes have gone out.  Whether or not it stalls, the
        wire holds a prefix of the chunks' bytes; without empty chunks it holds them all,
        and with an empty chunk in front of others nothing is ever sent. */
    method SendAll(chunks: seq<Chunk>, accept: nat -> nat)
      requires Valid() && outstanding.Finished? && 0 < |chunks|
      modifies this, mBuffer
      ensures Valid() && (outstanding.Finished? || outstanding.Stalled?)
      ensures wire + Remaining() == old(wire) + Concat(chunks)
      ensures outstanding.Finished? ==> wire == old(wire) + Concat(chunks)
      ensures NonEmpty(chunks) ==> outstanding.Finished?
      ensures 1 < |chunks| && chunks[0] == [] ==> outstanding == Stalled(chunks) && wire == old(wire)
    {
      assert mBuffer.Length == PACKET_BUFFER_SIZE;
      hide Concat, Tail, Valid, Remaining, Offered, Flowing;
      SendRest(chunks, 0);
      WholeTail(chunks);
      while !outstanding.Finished? && !outstanding.Stalled?
        invariant Valid() && wire + Remaining() == old(wire) + Concat(chunks)
        invariant NonEmpty(chunks) ==> Flowing()
        invariant 1 < |chunks| && chunks[0] == [] ==> outstanding == Stalled(chunks) && wire == old(wire)
        decreases !outstanding.Finished?, |Remaining()|
      {
        SendSome(accept);
      }
      AtRest();
    }
  }
}
