/** Closing one stream over n FIFO sockets (`receiveFullChunk`, `shutDownClosedStream`
    and `ioReactorThreadCommitCallback` in libcore/src/network/MultiplexedSocket.cpp,
    `close` in TCPStream.cpp).  Both endpoints run the same code; one of them closes the
    stream, the other never does, and new substreams are accepted. */
module StreamClose {
  import opened Options

  /** Packets that concern the stream; other streams' packets only trigger commits. */
  datatype Packet = Data(payload: nat) | Close | Ack

  /** An entry of mCallbackRegistration: a callback for the stream, or NULL. */
  datatype Registration = Callbacks | Null

  /** What an endpoint knows about the stream. */
  datatype Endpoint = Endpoint(
    has: bool,                        // the stream is in mCallbacks
    registrations: seq<Registration>, // mCallbackRegistration
    oneSided: bool,                   // the stream is in mOneSidedClosingStreams
    count: nat,                       // its entry in mAckedClosingStreams, 0 if absent
    gateOpen: bool,                   // its send status admits senders
    ownsId: bool,                     // the parity of the id is this side's
    received: seq<seq<nat>>,          // payloads given to its callback, by socket
    disconnected: bool,               // its callback was told Disconnected
    substreams: nat,                  // new-substream callbacks made
    freed: nat,                       // times the id went to mFreeStreamIDs
    assertFailed: bool)

  // ----- one endpoint -----

  function CommitOne(e: Endpoint, r: Registration): (e': Endpoint) {
    match r
    case Null => e.(oneSided := true, has := false, assertFailed := e.assertFailed || !e.has)
    case Callbacks => e.(has := true)
  }

  function Commit(e: Endpoint): (e': Endpoint)
    ensures e' == e.(registrations := [], has := e'.has, oneSided := e'.oneSided, assertFailed := e'.assertFailed)
    decreases |e.registrations|
  {
    if e.registrations == [] then e
    else Commit(CommitOne(e, e.registrations[0]).(registrations := e.registrations[1..]))
  }

  function Deliver(e: Endpoint, socket: nat, payload: nat): (e': Endpoint)
    requires socket < |e.received|
  {
    e.(received := e.received[socket := e.received[socket] + [payload]])
  }

  function ReceiveData(e: Endpoint, socket: nat, payload: nat): (e': Endpoint)
    requires socket < |e.received|
  {
    var c := Commit(e);
    if c.has then Deliver(c, socket, payload)
    else if !c.oneSided then Deliver(c.(has := true, substreams := c.substreams + 1), socket, payload)
    else c
  }

  function ShutDown(e: Endpoint, close: bool): (e': Endpoint) {
    var c := if close then Commit(e) else e;
    var d := if close && c.has then c.(gateOpen := false, disconnected := true, has := false) else c;
    d.(oneSided := false, freed := if d.ownsId then d.freed + 1 else d.freed)
  }

  /** A Close or Ack packet; `done` tells that it was the last of n. */
  function ReceiveControl(n: nat, e: Endpoint, close: bool): (r: (Endpoint, bool)) {
    if e.count != 0 then
      if e.count + 1 == n then (ShutDown(e.(count := 0), close), true) else (e.(count := e.count + 1), false)
    else
      if n == 1 then (ShutDown(e, close), true) else (e.(count := 1), false)
  }

  // ----- the two endpoints and their sockets -----

  /** How far `TCPStream::close` has come. */
  datatype Phase = Open | GateClosed | NullRegistered

  datatype State = State(
    closer: Endpoint,
    peer: Endpoint,
    phase: Phase,
    closedOn: set<nat>,               // sockets the Close broadcast has reached
    ackLeft: set<nat>,                // sockets the Ack broadcast has still to reach
    peerShut: bool,
    closerShut: bool,
    toPeer: seq<seq<Packet>>,
    toCloser: seq<seq<Packet>>,
    sent: seq<seq<nat>>)              // payloads the closer sent, by socket

  datatype Action =
    | Send(socket: nat, payload: nat)
    | CloseGate
    | RegisterNull
    | BroadcastClose(socket: nat)
    | CloserReceive(socket: nat)
    | CloserCommit
    | PeerCommit
    | Reply(socket: nat, payload: nat)
    | PeerReceive(socket: nat)
    | BroadcastAck(socket: nat)

  function Sockets(n: nat): (r: set<nat>)
    ensures |r| == n && forall i :: i in r <==> 0 <= i < n
  {
    if n == 0 then {} else Sockets(n - 1) + {n - 1}
  }

  function Push(channels: seq<seq<Packet>>, i: nat, p: Packet): (r: seq<seq<Packet>>)
    requires i < |channels|
  {
    channels[i := channels[i] + [p]]
  }

  predicate Shaped(n: nat, s: State) {
    && 0 < n
    && |s.toPeer| == |s.toCloser| == |s.sent| == |s.closer.received| == |s.peer.received| == n
  }

  function Step(n: nat, s: State, a: Action): (r: Option<State>) {
    if !Shaped(n, s) then None
    else match a
    case Send(i, payload) =>
      if i < n && s.phase.Open? then
        Some(s.(toPeer := Push(s.toPeer, i, Data(payload)), sent := s.sent[i := s.sent[i] + [payload]]))
      else None
    case CloseGate => if s.phase.Open? then Some(s.(phase := GateClosed)) else None
    case RegisterNull =>
      if s.phase.GateClosed? then
        Some(s.(phase := NullRegistered,
                closer := s.closer.(registrations := s.closer.registrations + [Null])))
      else None
    case BroadcastClose(i) =>
      if i < n && s.phase.NullRegistered? && i !in s.closedOn then
        Some(s.(toPeer := Push(s.toPeer, i, Close), closedOn := s.closedOn + {i}))
      else None
    case CloserCommit => Some(s.(closer := Commit(s.closer)))
    case PeerCommit => Some(s.(peer := Commit(s.peer)))
    case CloserReceive(i) =>
      if i < n && s.toCloser[i] != [] then Some(CloserReceives(n, s, i)) else None
    case Reply(i, payload) =>
      if i < n && (s.peer.has || s.peer.registrations != []) && s.peer.gateOpen then
        Some(s.(toCloser := Push(s.toCloser, i, Data(payload))))
      else None
    case PeerReceive(i) =>
      if i < n && s.toPeer[i] != [] && s.ackLeft == {} then Some(PeerReceives(n, s, i)) else None
    case BroadcastAck(i) =>
      if i < n && i in s.ackLeft then
        Some(s.(toCloser := Push(s.toCloser, i, Ack), ackLeft := s.ackLeft - {i}))
      else None
  }

  function CloserReceives(n: nat, s: State, i: nat): (s': State)
    requires Shaped(n, s) && i < n && s.toCloser[i] != []
  {
    var rest := s.(toCloser := s.toCloser[i := s.toCloser[i][1..]]);
    match s.toCloser[i][0]
    case Data(payload) => rest.(closer := ReceiveData(s.closer, i, payload))
    case Close => rest.(closer := ReceiveControl(n, s.closer, true).0)
    case Ack =>
      var (e, done) := ReceiveControl(n, s.closer, false);
      rest.(closer := e, closerShut := s.closerShut || done)
  }

  function PeerReceives(n: nat, s: State, i: nat): (s': State)
    requires Shaped(n, s) && i < n && s.toPeer[i] != []
  {
    var rest := s.(toPeer := s.toPeer[i := s.toPeer[i][1..]]);
    match s.toPeer[i][0]
    case Data(payload) => rest.(peer := ReceiveData(s.peer, i, payload))
    case Ack => rest.(peer := ReceiveControl(n, s.peer, false).0)
    case Close =>
      var (e, done) := ReceiveControl(n, s.peer, true);
      rest.(peer := e, peerShut := s.peerShut || done, ackLeft := if done then Sockets(n) else s.ackLeft)
  }

  /** Nothing sent yet.  Either side may have opened the stream, and its callbacks may
      still await their commit; a peer that did not open the stream may know it already
      or learn of it from its first packet. */
  ghost predicate Initial(n: nat, s: State) {
    && Shaped(n, s)
    && (forall i :: 0 <= i < n ==>
          s.toPeer[i] == [] && s.toCloser[i] == [] && s.sent[i] == []
          && s.closer.received[i] == [] && s.peer.received[i] == [])
    && s.phase == Open && s.closedOn == {} && s.ackLeft == {} && !s.peerShut && !s.closerShut
    && (if s.closer.has then s.closer.registrations == [] else s.closer.registrations == [Callbacks])
    && (s.peer.registrations == [] || (!s.peer.has && s.peer.registrations == [Callbacks]))
    && Fresh(s.closer) && Fresh(s.peer) && s.closer.ownsId != s.peer.ownsId
  }

  ghost predicate Fresh(e: Endpoint) {
    && !e.oneSided && e.count == 0 && e.gateOpen
    && !e.disconnected && e.substreams == 0 && e.freed == 0 && !e.assertFailed
  }

  function Run(n: nat, s: State, actions: seq<Action>): (r: Option<State>)
    decreases |actions|
  {
    if actions == [] then Some(s)
    else match Step(n, s, actions[0])
      case None => None
      case Some(s') => Run(n, s', actions[1..])
  }

  // ----- the invariant -----

  predicate AllData(ch: seq<Packet>) {
    forall k :: 0 <= k < |ch| ==> ch[k].Data?
  }

  /** A channel carries data only and, once its broadcast has come, ends in `last`
      until that is consumed too. */
  predicate Flows(ch: seq<Packet>, ended: bool, last: Packet) {
    if ended then ch == [] || (ch[|ch| - 1] == last && AllData(ch[..|ch| - 1])) else AllData(ch)
  }

  function Payloads(ch: seq<Packet>): (p: seq<nat>) {
    if ch == [] then []
    else (if ch[0].Data? then [ch[0].payload] else []) + Payloads(ch[1..])
  }

  /** Sockets whose closing packet has been both sent and consumed. */
  function Consumed(ended: set<nat>, channels: seq<seq<Packet>>): (r: set<nat>) {
    set i | i in ended && 0 <= i < |channels| && channels[i] == []
  }

  function AckedOn(n: nat, s: State): (r: set<nat>) {
    if s.peerShut then Sockets(n) - s.ackLeft else {}
  }

  ghost predicate ChannelInv(n: nat, s: State)
    requires Shaped(n, s)
  {
    && s.closer.ownsId != s.peer.ownsId
    && s.closedOn <= Sockets(n) && s.ackLeft <= Sockets(n)
    && (s.closedOn != {} ==> s.phase.NullRegistered?)
    && (s.ackLeft != {} ==> s.peerShut)
    && (forall i :: 0 <= i < n ==> Flows(s.toPeer[i], i in s.closedOn, Close))
    && (forall i :: 0 <= i < n ==> Flows(s.toCloser[i], i in AckedOn(n, s), Ack))
    && (forall i :: 0 <= i < n ==> s.sent[i] == s.peer.received[i] + Payloads(s.toPeer[i]))
  }

  ghost predicate PeerInv(n: nat, s: State) {
    var e := s.peer;
    && (e.registrations == [] || (e.registrations == [Callbacks] && !e.has && !s.peerShut))
    && !e.oneSided && !e.assertFailed
    && e.substreams <= 1
    && (e.substreams == 1 && !s.peerShut ==> e.has)
    && (e.disconnected ==> s.peerShut)
    && e.freed == (if s.peerShut && e.ownsId then 1 else 0)
    && (if s.peerShut then e.count == 0 && !e.has && Consumed(s.closedOn, s.toPeer) == Sockets(n)
        else e.count == |Consumed(s.closedOn, s.toPeer)| < n)
  }

  ghost predicate CloserInv(n: nat, s: State) {
    var e := s.closer;
    && e.substreams == 0 && !e.assertFailed
    && e.freed == (if s.closerShut && e.ownsId then 1 else 0)
    && (if s.phase.NullRegistered? then
          || (e.registrations == [Null] && e.has)
          || (e.registrations == [Callbacks, Null] && !e.has)
          || (e.registrations == [] && !e.has && (s.closerShut || e.oneSided))
        else if e.has then e.registrations == [] else e.registrations == [Callbacks])
    && (if s.closerShut
        then e.count == 0 && s.peerShut && Consumed(AckedOn(n, s), s.toCloser) == Sockets(n)
        else e.count == |Consumed(AckedOn(n, s), s.toCloser)| < n)
  }

  ghost predicate Inv(n: nat, s: State) {
    Shaped(n, s) && ChannelInv(n, s) && PeerInv(n, s) && CloserInv(n, s)
  }

  // ----- small facts -----

  lemma {:induction false} PayloadsOfPush(ch: seq<Packet>, p: Packet)
    ensures Payloads(ch + [p]) == Payloads(ch) + (if p.Data? then [p.payload] else [])
    decreases |ch|
  {
    if ch == [] {
      assert ch + [p] == [p];
    } else {
      var head := if ch[0].Data? then [ch[0].payload] else [];
      var tail := if p.Data? then [p.payload] else [];
      PayloadsOfPush(ch[1..], p);
      assert (ch + [p])[1..] == ch[1..] + [p];
      assert Payloads(ch + [p]) == head + (Payloads(ch[1..]) + tail);
    }
  }

  /** What taking the front packet off a channel leaves behind. */
  lemma FlowsOfPop(ch: seq<Packet>, ended: bool, last: Packet)
    requires ch != [] && Flows(ch, ended, last) && !last.Data?
    ensures Flows(ch[1..], ended, last)
    ensures ch[0].Data? || ch[0] == last
    ensures ch[0] == last ==> ended && ch[1..] == []
    ensures ch[0].Data? && ended ==> ch[1..] != []
  {
    if ended {
      if |ch| > 1 {
        assert ch[..|ch| - 1][0] == ch[0];
        assert ch[1..][..|ch| - 2] == ch[..|ch| - 1][1..];
      }
    }
  }

  lemma FlowsOfPush(ch: seq<Packet>, p: Packet, last: Packet)
    requires Flows(ch, false, last)
    ensures p.Data? ==> Flows(ch + [p], false, last)
    ensures p == last ==> Flows(ch + [p], true, last)
  {
    assert (ch + [p])[..|ch|] == ch;
  }

  lemma ConsumedOfPop(ended: set<nat>, channels: seq<seq<Packet>>, i: nat)
    requires i < |channels| && channels[i] != []
    ensures var rest := channels[i := channels[i][1..]];
            Consumed(ended, rest) == if i in ended && rest[i] == [] then Consumed(ended, channels) + {i}
                                     else Consumed(ended, channels)
    ensures i !in Consumed(ended, channels)
  {
  }

  lemma ConsumedOfPush(ended: set<nat>, ended': set<nat>, channels: seq<seq<Packet>>, i: nat, p: Packet)
    requires i < |channels| && i !in ended
    requires ended' == ended || ended' == ended + {i}
    ensures Consumed(ended', Push(channels, i, p)) == Consumed(ended, channels)
  {
  }

  lemma FullSubset(a: set<nat>, n: nat)
    requires a <= Sockets(n) && |a| >= n
    ensures a == Sockets(n)
  {
    var rest := Sockets(n) - a;
    assert Sockets(n) == a + rest;
  }

  /** The counter reaches n exactly when the n-th packet is consumed. */
  lemma CountingDown(n: nat, e: Endpoint, close: bool)
    requires 0 < n && e.count < n
    ensures ReceiveControl(n, e, close)
         == if e.count + 1 == n then (ShutDown(e.(count := 0), close), true)
            else (e.(count := e.count + 1), false)
  {
    assert e.count == 0 ==> e.(count := 0) == e;
  }

  lemma PayloadsOfPop(ch: seq<Packet>)
    requires ch != []
    ensures Payloads(ch) == (if ch[0].Data? then [ch[0].payload] else []) + Payloads(ch[1..])
  {
  }

  lemma CloserUntouched(n: nat, s: State, s': State)
    requires Shaped(n, s) && Shaped(n, s') && CloserInv(n, s)
    requires s'.closer == s.closer && s'.phase == s.phase && s'.closerShut == s.closerShut
    requires s'.toCloser == s.toCloser && AckedOn(n, s') == AckedOn(n, s) && (s.peerShut ==> s'.peerShut)
    ensures CloserInv(n, s')
  {
  }

  lemma PeerTakesData(n: nat, s: State, i: nat)
    requires Inv(n, s) && i < n && s.toPeer[i] != [] && s.ackLeft == {} && s.toPeer[i][0].Data?
    ensures Inv(n, PeerReceives(n, s, i))
  {
    hide Flows, Payloads, CloserInv, Sockets;
    var s' := PeerReceives(n, s, i);
    FlowsOfPop(s.toPeer[i], i in s.closedOn, Close);
    ConsumedOfPop(s.closedOn, s.toPeer, i);
    PayloadsOfPop(s.toPeer[i]);
    CommitCases(s.peer);
    assert !s.peerShut;
    assert CloserInv(n, s') by {
      CloserUntouched(n, s, s');
    }
    assert s'.peer.received[i] == s.peer.received[i] + [s.toPeer[i][0].payload];
    assert s'.peer.received[i] + Payloads(s'.toPeer[i]) == s.peer.received[i] + Payloads(s.toPeer[i]);
  }

  /** A packet on its way to the peer means that the peer has not shut the stream. */
  lemma PeerStillOpen(n: nat, s: State, i: nat)
    requires Inv(n, s) && i < n && s.toPeer[i] != []
    ensures !s.peerShut
  {
    hide Flows, Payloads, CloserInv, Sockets;
    assert i in Sockets(n) && i !in Consumed(s.closedOn, s.toPeer);
  }

  lemma PeerTakesClose(n: nat, s: State, i: nat)
    requires Inv(n, s) && i < n && s.toPeer[i] != [] && s.ackLeft == {} && s.toPeer[i][0].Close?
    ensures Inv(n, PeerReceives(n, s, i))
  {
    hide ChannelInv, PeerInv, CloserInv, ReceiveControl;
    CloseKeepsChannels(n, s, i);
    PeerCountsClose(n, s, i);
  }

  lemma CloseKeepsChannels(n: nat, s: State, i: nat)
    requires Inv(n, s) && i < n && s.toPeer[i] != [] && s.ackLeft == {} && s.toPeer[i][0].Close?
    ensures var s' := PeerReceives(n, s, i);
            Shaped(n, s') && ChannelInv(n, s') && CloserInv(n, s')
  {
    hide Flows, Payloads, CloserInv, Sockets, ReceiveControl;
    var s' := PeerReceives(n, s, i);
    FlowsOfPop(s.toPeer[i], i in s.closedOn, Close);
    PayloadsOfPop(s.toPeer[i]);
    PeerStillOpen(n, s, i);
    CountingDown(n, s.peer, true);
    assert AckedOn(n, s') == AckedOn(n, s) == {};
    CloserUntouched(n, s, s');
  }

  lemma PeerCountsClose(n: nat, s: State, i: nat)
    requires Inv(n, s) && i < n && s.toPeer[i] != [] && s.ackLeft == {} && s.toPeer[i][0].Close?
    ensures PeerInv(n, PeerReceives(n, s, i))
  {
    hide Flows, Payloads, CloserInv, Sockets, ReceiveControl;
    var s' := PeerReceives(n, s, i);
    FlowsOfPop(s.toPeer[i], i in s.closedOn, Close);
    ConsumedOfPop(s.closedOn, s.toPeer, i);
    CommitCases(s.peer);
    CommitCases(s.peer.(count := 0));
    PeerStillOpen(n, s, i);
    CountingDown(n, s.peer, true);
    if s.peer.count + 1 == n {
      FullSubset(Consumed(s.closedOn, s'.toPeer), n);
    }
  }

  lemma CloserTakesData(n: nat, s: State, i: nat)
    requires Inv(n, s) && i < n && s.toCloser[i] != [] && s.toCloser[i][0].Data?
    ensures Inv(n, CloserReceives(n, s, i))
  {
    hide Flows, Payloads, Sockets;
    var s' := CloserReceives(n, s, i);
    FlowsOfPop(s.toCloser[i], i in AckedOn(n, s), Ack);
    ConsumedOfPop(AckedOn(n, s), s.toCloser, i);
    assert !s.closerShut;
    CommitCases(s.closer);
  }

  /** A packet on its way to the closer means that the closer has not had all its acks. */
  lemma CloserStillOpen(n: nat, s: State, i: nat)
    requires Inv(n, s) && i < n && s.toCloser[i] != []
    ensures !s.closerShut
  {
    hide Flows, Payloads, PeerInv, Sockets;
    assert i in Sockets(n) && i !in Consumed(AckedOn(n, s), s.toCloser);
  }

  lemma CloserTakesAck(n: nat, s: State, i: nat)
    requires Inv(n, s) && i < n && s.toCloser[i] != [] && s.toCloser[i][0].Ack?
    ensures Inv(n, CloserReceives(n, s, i))
  {
    hide ChannelInv, PeerInv, CloserInv, ReceiveControl;
    AckKeepsChannels(n, s, i);
    CloserCountsAck(n, s, i);
  }

  lemma AckKeepsChannels(n: nat, s: State, i: nat)
    requires Inv(n, s) && i < n && s.toCloser[i] != [] && s.toCloser[i][0].Ack?
    ensures var s' := CloserReceives(n, s, i);
            Shaped(n, s') && ChannelInv(n, s') && PeerInv(n, s')
  {
    hide Flows, Payloads, Sockets, ReceiveControl;
    FlowsOfPop(s.toCloser[i], i in AckedOn(n, s), Ack);
    CloserStillOpen(n, s, i);
    CountingDown(n, s.closer, false);
  }

  /** An Ack has been both sent and, now, consumed on its socket. */
  lemma AckIsConsumed(n: nat, s: State, i: nat)
    requires Inv(n, s) && i < n && s.toCloser[i] != [] && s.toCloser[i][0].Ack?
    ensures s.peerShut && i !in Consumed(AckedOn(n, s), s.toCloser)
    ensures var after := Consumed(AckedOn(n, s), s.toCloser[i := s.toCloser[i][1..]]);
            after == Consumed(AckedOn(n, s), s.toCloser) + {i} && after <= Sockets(n)
  {
    hide Flows, Payloads, Sockets, PeerInv, CloserInv;
    FlowsOfPop(s.toCloser[i], i in AckedOn(n, s), Ack);
    ConsumedOfPop(AckedOn(n, s), s.toCloser, i);
  }

  lemma CloserCountsAck(n: nat, s: State, i: nat)
    requires Inv(n, s) && i < n && s.toCloser[i] != [] && s.toCloser[i][0].Ack?
    ensures CloserInv(n, CloserReceives(n, s, i))
  {
    hide ChannelInv, Sockets, ReceiveControl, PeerInv, Consumed;
    var s' := CloserReceives(n, s, i);
    AckIsConsumed(n, s, i);
    CloserStillOpen(n, s, i);
    CountingDown(n, s.closer, false);
    if s.closer.count + 1 == n {
      FullSubset(Consumed(AckedOn(n, s), s'.toCloser), n);
    }
  }

  lemma CommitCases(e: Endpoint)
    ensures e.registrations == [] ==> Commit(e) == e
    ensures e.registrations == [Callbacks] ==> Commit(e) == e.(registrations := [], has := true)
    ensures e.registrations == [Null] && e.has ==>
              Commit(e) == e.(registrations := [], has := false, oneSided := true)
    ensures e.registrations == [Callbacks, Null] ==>
              Commit(e) == e.(registrations := [], has := false, oneSided := true)
  {
    if e.registrations == [Callbacks, Null] {
      var f := CommitOne(e, Callbacks).(registrations := [Null]);
      assert Commit(e) == Commit(f);
      assert Commit(f) == Commit(CommitOne(f, Null).(registrations := []));
    }
  }

  lemma PushToPeer(n: nat, s: State, i: nat, p: Packet, s': State)
    requires Inv(n, s) && i < n && i !in s.closedOn && s'.toPeer == Push(s.toPeer, i, p)
    requires s' == s.(toPeer := s'.toPeer, sent := s'.sent, closedOn := s'.closedOn)
    requires if p.Data? then s'.closedOn == s.closedOn && s'.sent == s.sent[i := s.sent[i] + [p.payload]]
             else p == Close && s.phase.NullRegistered? && s'.closedOn == s.closedOn + {i} && s'.sent == s.sent
    ensures Inv(n, s')
  {
    hide Flows, Payloads, CloserInv, Sockets;
    FlowsOfPush(s.toPeer[i], p, Close);
    PayloadsOfPush(s.toPeer[i], p);
    ConsumedOfPush(s.closedOn, s'.closedOn, s.toPeer, i, p);
    CloserUntouched(n, s, s');
    assert i !in Consumed(s.closedOn, s.toPeer);
    assert s'.sent[i] == s'.peer.received[i] + Payloads(s'.toPeer[i]);
  }

  lemma PushToCloser(n: nat, s: State, i: nat, p: Packet, s': State)
    requires Inv(n, s) && i < n && i !in AckedOn(n, s)
    requires s' == s.(toCloser := Push(s.toCloser, i, p), ackLeft := s'.ackLeft)
    requires if p.Data? then s'.ackLeft == s.ackLeft else p == Ack && i in s.ackLeft && s'.ackLeft == s.ackLeft - {i}
    ensures Inv(n, s')
  {
    hide Flows, Payloads, Sockets;
    FlowsOfPush(s.toCloser[i], p, Ack);
    assert p.Ack? ==> AckedOn(n, s') == AckedOn(n, s) + {i};
    ConsumedOfPush(AckedOn(n, s), AckedOn(n, s'), s.toCloser, i, p);
    assert i !in Consumed(AckedOn(n, s), s.toCloser);
  }

  lemma StepPreserves(n: nat, s: State, a: Action)
    requires Inv(n, s) && Step(n, s, a).Some?
    ensures Inv(n, Step(n, s, a).value)
  {
    hide Flows, Payloads, Sockets, ReceiveControl, ReceiveData, Consumed;
    var s' := Step(n, s, a).value;
    match a
    case Send(i, payload) => PushToPeer(n, s, i, Data(payload), s');
    case BroadcastClose(i) => PushToPeer(n, s, i, Close, s');
    case Reply(i, payload) => PushToCloser(n, s, i, Data(payload), s');
    case BroadcastAck(i) => PushToCloser(n, s, i, Ack, s');
    case CloseGate =>
    case RegisterNull =>
    case CloserCommit => CommitCases(s.closer);
    case PeerCommit => CommitCases(s.peer);
    case CloserReceive(i) =>
      FlowsOfPop(s.toCloser[i], i in AckedOn(n, s), Ack);
      if s.toCloser[i][0].Data? {
        CloserTakesData(n, s, i);
      } else {
        CloserTakesAck(n, s, i);
      }
    case PeerReceive(i) =>
      FlowsOfPop(s.toPeer[i], i in s.closedOn, Close);
      if s.toPeer[i][0].Data? {
        PeerTakesData(n, s, i);
      } else {
        PeerTakesClose(n, s, i);
      }
  }

  lemma {:induction false} RunPreserves(n: nat, s: State, actions: seq<Action>)
    requires Inv(n, s) && Run(n, s, actions).Some?
    ensures Inv(n, Run(n, s, actions).value)
    decreases |actions|
  {
    if actions != [] {
      StepPreserves(n, s, actions[0]);
      RunPreserves(n, Step(n, s, actions[0]).value, actions[1..]);
    }
  }

  lemma Reachable(n: nat, start: State, actions: seq<Action>, s: State)
    requires Initial(n, start) && Run(n, start, actions) == Some(s)
    ensures Inv(n, s)
  {
    assert Consumed(start.closedOn, start.toPeer) == {};
    assert Consumed(AckedOn(n, start), start.toCloser) == {};
    RunPreserves(n, start, actions);
  }

  // ----- what the protocol promises -----

  /** Every payload sent before the close has reached the peer's callback, on each
      socket in the order sent, by the time that callback is told Disconnected. */
  lemma DeliveredBeforeDisconnected(n: nat, start: State, actions: seq<Action>, s: State)
    requires Initial(n, start) && Run(n, start, actions) == Some(s)
    requires s.peer.disconnected
    ensures |s.sent| == |s.peer.received| == n && s.peer.received == s.sent
  {
    Reachable(n, start, actions, s);
    AllReceived(n, s);
  }

  lemma AllReceived(n: nat, s: State)
    requires Inv(n, s) && s.peerShut
    ensures |s.sent| == |s.peer.received| == n && s.peer.received == s.sent
  {
    forall i | 0 <= i < n ensures s.peer.received[i] == s.sent[i] {
      assert i in Consumed(s.closedOn, s.toPeer);
    }
  }

  /** At all times the peer has a prefix of what was sent on each socket, the closer is
      never offered the stream as a new substream, the peer at most once, and the
      assertion in `ioReactorThreadCommitCallback` holds. */
  lemma NoSpuriousSubstream(n: nat, start: State, actions: seq<Action>, s: State)
    requires Initial(n, start) && Run(n, start, actions) == Some(s)
    ensures s.closer.substreams == 0 && s.peer.substreams <= 1
    ensures !s.closer.assertFailed && !s.peer.assertFailed
    ensures |s.sent| == |s.peer.received| == n && forall i :: 0 <= i < n ==> s.peer.received[i] <= s.sent[i]
  {
    Reachable(n, start, actions, s);
  }

  /** The closer gives an id of its own up for reuse at most once, and only when no
      packet of the stream is left on any socket in either direction and the peer
      has forgotten the stream. */
  lemma IdIsFreedSafely(n: nat, start: State, actions: seq<Action>, s: State)
    requires Initial(n, start) && Run(n, start, actions) == Some(s)
    ensures s.closer.freed + s.peer.freed <= 1
    ensures 0 < s.closer.freed ==>
              && !s.peer.has
              && (forall i :: 0 <= i < |s.toPeer| ==> s.toPeer[i] == [])
              && (forall i :: 0 <= i < |s.toCloser| ==> s.toCloser[i] == [])
  {
    Reachable(n, start, actions, s);
    if 0 < s.closer.freed {
      forall i | 0 <= i < n ensures s.toPeer[i] == [] && s.toCloser[i] == [] {
        assert i in Consumed(s.closedOn, s.toPeer);
        assert i in Consumed(AckedOn(n, s), s.toCloser);
      }
    }
  }

  lemma ShutMeansRegistered(n: nat, s: State)
    requires Inv(n, s) && s.peerShut
    ensures s.phase.NullRegistered?
  {
    hide Flows, Payloads, Sockets;
    assert 0 in Sockets(n);
    assert 0 in Consumed(s.closedOn, s.toPeer);
  }

  /** Once it has had its last Ack, all that can still happen to the closer is that a
      waiting registration is committed. */
  lemma ShutCloserIsQuiet(n: nat, s: State, a: Action)
    requires Inv(n, s) && s.closerShut && Step(n, s, a).Some?
    ensures var s' := Step(n, s, a).value;
            s'.closerShut && (s'.closer == s.closer || s'.closer == Commit(s.closer))
  {
    hide Flows, Payloads, Sockets, ReceiveControl, ReceiveData;
    if a.CloserReceive? {
      CloserStillOpen(n, s, a.socket);
    }
    ShutMeansRegistered(n, s);
  }

  lemma {:induction false} ShutCloserStaysQuiet(n: nat, s: State, actions: seq<Action>, t: State)
    requires Inv(n, s) && s.closerShut && Run(n, s, actions) == Some(t)
    ensures t.closer == s.closer || t.closer == Commit(s.closer)
    decreases |actions|
  {
    hide Inv, Step;
    if actions != [] {
      var next := Step(n, s, actions[0]).value;
      StepPreserves(n, s, actions[0]);
      ShutCloserIsQuiet(n, s, actions[0]);
      ShutCloserStaysQuiet(n, next, actions[1..], t);
    }
  }

  /** mOneSidedClosingStreams is meant for streams that are closed and not yet
      acknowledged.  Whether the last Ack really takes the stream out for good depends
      on the NULL registration having been committed before it: if it was, the mark is
      gone in every later state t; if it is still waiting, the first commit after t, or
      before it, puts the stream back in. */
  lemma MarkAfterLastAck(n: nat, start: State, actions: seq<Action>, s: State, i: nat, s': State,
                         later: seq<Action>, t: State)
    requires Initial(n, start) && Run(n, start, actions) == Some(s)
    requires !s.closerShut && Step(n, s, CloserReceive(i)) == Some(s') && s'.closerShut
    requires Run(n, s', later) == Some(t)
    ensures !s'.closer.oneSided
    ensures s.closer.registrations == [] ==> !t.closer.oneSided
    ensures Commit(t.closer).oneSided <==> s.closer.registrations != []
    ensures t.closer.oneSided ==> t.closer.registrations == []
  {
    LastAckClearsMark(n, start, actions, s, i, s');
    Reachable(n, start, actions, s);
    StepPreserves(n, s, CloserReceive(i));
    ShutCloserStaysQuiet(n, s', later, t);
  }

  lemma LastAckClearsMark(n: nat, start: State, actions: seq<Action>, s: State, i: nat, s': State)
    requires Initial(n, start) && Run(n, start, actions) == Some(s)
    requires !s.closerShut && Step(n, s, CloserReceive(i)) == Some(s') && s'.closerShut
    ensures !s'.closer.oneSided && s'.closer.registrations == s.closer.registrations
    ensures Commit(s'.closer).oneSided <==> s.closer.registrations != []
  {
    hide Flows, Payloads, Sockets;
    Reachable(n, start, actions, s);
    StepPreserves(n, s, CloserReceive(i));
    FlowsOfPop(s.toCloser[i], i in AckedOn(n, s), Ack);
    CountingDown(n, s.closer, false);
    CommitCases(s'.closer);
    ShutMeansRegistered(n, Step(n, s, CloserReceive(i)).value);
  }

  lemma {:induction false} RunAppends(n: nat, s: State, xs: seq<Action>, a: Action)
    requires Run(n, s, xs).Some?
    ensures Run(n, s, xs + [a]) == Step(n, Run(n, s, xs).value, a)
    decreases |xs|
  {
    hide Step;
    if xs == [] {
      assert xs + [a] == [a];
    } else {
      assert (xs + [a])[1..] == xs[1..] + [a];
      RunAppends(n, Step(n, s, xs[0]).value, xs[1..], a);
    }
  }

  /** Extends a run by one action. */
  lemma Extend(n: nat, start: State, xs: seq<Action>, s: State, a: Action)
    returns (ys: seq<Action>, s': State)
    requires Run(n, start, xs) == Some(s) && Step(n, s, a).Some?
    ensures Run(n, start, ys) == Some(s') && Some(s') == Step(n, s, a)
  {
    ys, s' := xs + [a], Step(n, s, a).value;
    RunAppends(n, start, xs, a);
  }

  lemma CloseIsSent() returns (start: State, actions: seq<Action>, s: State)
    ensures Initial(1, start) && Run(1, start, actions) == Some(s) && Shaped(1, s)
    ensures s.toPeer[0] == [Close] && s.toCloser == [[]] && s.ackLeft == {}
    ensures s.closer.registrations == [Null] && s.closer.has && !s.closer.oneSided
    ensures s.closer.count == s.peer.count == 0
  {
    var e := Endpoint(true, [], false, 0, true, true, [[]], false, 0, 0, false);
    start := State(e, e.(ownsId := false), Open, {}, {}, false, false, [[]], [[]], [[]]);
    actions, s := [], start;
    assert Run(1, start, actions) == Some(s);
    hide Run;
    actions, s := Extend(1, start, actions, s, CloseGate);
    actions, s := Extend(1, start, actions, s, RegisterNull);
    actions, s := Extend(1, start, actions, s, BroadcastClose(0));
    assert s.toPeer[0] == [Close];
  }

  /** A close on one socket during which nothing else arrives: the mark comes back. */
  lemma MarkCanComeBack() returns (start: State, actions: seq<Action>, s: State)
    ensures Initial(1, start) && Run(1, start, actions) == Some(s)
    ensures s.closerShut && !s.closer.oneSided && Commit(s.closer).oneSided
  {
    hide Run, Initial;
    start, actions, s := CloseIsSent();
    actions, s := Extend(1, start, actions, s, PeerReceive(0));
    assert s.ackLeft == Sockets(1) && 0 in s.ackLeft;
    actions, s := Extend(1, start, actions, s, BroadcastAck(0));
    assert s.toCloser[0] == [Ack];
    actions, s := Extend(1, start, actions, s, CloserReceive(0));
    CommitCases(s.closer);
  }
}
