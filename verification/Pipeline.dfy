/** One socket from end to end: framing, packing, partial sends, arbitrary reads,
    reassembly. */
module Pipeline {
  import opened ByteStrings
  import opened Frames
  import opened SendPacking
  import opened ReadBuffers

  ghost predicate ArePacketsOf(packets: seq<Chunk>, frames: seq<Frame>)
    requires AllFramable(frames)
  {
    && |packets| == |frames|
    && forall i :: 0 <= i < |frames| ==> packets[i] == Bytes(frames[i])
  }

  lemma {:induction false} PacketsConcatenate(packets: seq<Chunk>, frames: seq<Frame>)
    requires AllFramable(frames) && ArePacketsOf(packets, frames)
    ensures Concat(packets) == Stream(frames)
    ensures NonEmpty(packets)
    decreases |frames|
  {
    if frames != [] {
      PacketsConcatenate(packets[1..], frames[1..]);
      forall i | 0 <= i < |packets| ensures packets[i] != [] {
        if 0 < i {
          assert packets[i] == packets[1..][i - 1];
        }
      }
    }
  }

  // ----- batches -----

  /** The frames of some batches, in order. */
  function Join(batches: seq<seq<Frame>>): seq<Frame> {
    if batches == [] then [] else Join(batches[..|batches| - 1]) + batches[|batches| - 1]
  }

  lemma {:induction false} StreamOfJoin(a: seq<Frame>, b: seq<Frame>)
    requires AllFramable(a) && AllFramable(b)
    ensures AllFramable(a + b) && Stream(a + b) == Stream(a) + Stream(b)
    decreases |a|
  {
    hide Bytes;
    if a == [] {
      assert a + b == b;
    } else {
      assert (a + b)[1..] == a[1..] + b;
      StreamOfJoin(a[1..], b);
    }
  }

  lemma JoinStep(batches: seq<seq<Frame>>, i: nat)
    requires i < |batches|
    ensures Join(batches[..i + 1]) == Join(batches[..i]) + batches[i]
  {
    assert batches[..i + 1][..i] == batches[..i];
  }

  method BuildPackets(frames: seq<Frame>) returns (packets: seq<Chunk>)
    requires AllFramable(frames)
    ensures ArePacketsOf(packets, frames)
  {
    packets := [];
    for i := 0 to |frames|
      invariant ArePacketsOf(packets, frames[..i])
    {
      var packet := ConstructDataPacket(frames[i].id, frames[i].payload);
      packets := packets + [packet];
    }
    assert frames[..|frames|] == frames;
  }

  /** Sends one batch behind those already sent on the socket. */
  method SendBatch(sender: Sender, frames: seq<Frame>, accept: nat -> nat)
    requires sender.Valid() && sender.outstanding.Finished? && AllFramable(frames) && frames != []
    modifies sender, sender.mBuffer
    ensures sender.Valid() && sender.outstanding.Finished?
    ensures sender.wire == old(sender.wire) + Stream(frames)
  {
    var packets := BuildPackets(frames);
    PacketsConcatenate(packets, frames);
    sender.SendAll(packets, accept);
  }

  /** However the frames are gathered into batches for one socket, whatever amounts the
      socket accepts and however the receiving side's reads are cut, the peer is handed
      exactly the frames sent, in order. */
  method Transfer(batches: seq<seq<Frame>>, accept: nat -> nat, cut: nat -> nat)
    returns (delivered: seq<Frame>)
    requires forall i :: 0 <= i < |batches| ==> batches[i] != [] && AllFramable(batches[i])
    ensures delivered == Join(batches)
  {
    hide Join, Stream, Parse;
    var sender := new Sender();
    NothingSent(batches);
    for i := 0 to |batches|
      invariant sender.Valid() && sender.outstanding.Finished? && fresh(sender) && fresh(sender.mBuffer)
      invariant AllFramable(Join(batches[..i])) && sender.wire == Stream(Join(batches[..i]))
    {
      SendBatch(sender, batches[i], accept);
      JoinStep(batches, i);
      StreamOfJoin(Join(batches[..i]), batches[i]);
    }
    assert batches[..|batches|] == batches;
    var reader := new ReadBuffer();
    reader.ReceiveAll(sender.wire, cut);
    delivered := reader.delivered;
    AllDelivered(Join(batches), sender.wire);
    assert [] + sender.wire == sender.wire;
  }

  lemma NothingSent(batches: seq<seq<Frame>>)
    ensures Join(batches[..0]) == [] && Stream([]) == []
  {
  }

  lemma AllDelivered(frames: seq<Frame>, wire: seq<Byte>)
    requires AllFramable(frames) && wire == Stream(frames)
    ensures Parse(wire).frames == frames
  {
    StreamRoundTrip(frames, []);
    assert wire + [] == wire;
    assert frames + Parse([]).frames == frames;
  }
}
