/** A close comes to an end, and the peer is told (libcore/src/network/MultiplexedSocket.cpp). */
module CloseProgress {
  import opened Options
  import opened StreamClose

  // ----- who is told -----

  ghost predicate KnewAtStart(start: State) { start.peer.has || start.peer.registrations != [] }

  /** Some payload has reached the peer. */
  ghost predicate Heard(s: State) { exists i :: 0 <= i < |s.peer.received| && s.peer.received[i] != [] }

  /** What the peer knows of the stream, and what it has been told; `knew` says whether it
      knew of the stream from the start. */
  ghost predicate Informed(knew: bool, s: State) {
    var e := s.peer;
    && !s.closer.disconnected
    && e.substreams == (if !knew && Heard(s) then 1 else 0)
    && (!knew ==> e.registrations == [])
    && (!s.peerShut ==> (e.has || e.registrations != [] <==> knew || Heard(s)))
    && (e.disconnected <==> s.peerShut && (knew || Heard(s)))
    && (e.gateOpen <==> !e.disconnected)
  }

  lemma PeerDataInforms(n: nat, knew: bool, s: State, i: nat)
    requires Inv(n, s) && Informed(knew, s) && i < n && s.toPeer[i] != [] && s.toPeer[i][0].Data?
    ensures Informed(knew, PeerReceives(n, s, i))
  {
    hide ChannelInv, CloserInv, Sockets, Payloads;
    PeerStillOpen(n, s, i);
    CommitCases(s.peer);
    var s' := PeerReceives(n, s, i);
    assert s'.peer.received[i] != [];
  }

  lemma PeerCloseInforms(n: nat, knew: bool, s: State, i: nat)
    requires Inv(n, s) && Informed(knew, s) && i < n && s.toPeer[i] != [] && s.toPeer[i][0].Close?
    ensures Informed(knew, PeerReceives(n, s, i))
  {
    hide ChannelInv, CloserInv, Sockets, Payloads, ReceiveControl;
    PeerStillOpen(n, s, i);
    CountingDown(n, s.peer, true);
    CommitCases(s.peer.(count := 0));
    var s' := PeerReceives(n, s, i);
    assert s'.peer.received == s.peer.received;
  }

  lemma CloserIsNotTold(n: nat, s: State, i: nat)
    requires Inv(n, s) && i < n && s.toCloser[i] != []
    ensures var s' := CloserReceives(n, s, i);
            s'.closer.disconnected == s.closer.disconnected && s'.peer == s.peer && s'.peerShut == s.peerShut
  {
    hide Sockets, Payloads, Flows, PeerInv, CloserInv;
    FlowsOfPop(s.toCloser[i], i in AckedOn(n, s), Ack);
  }

  lemma StepInforms(n: nat, knew: bool, s: State, a: Action)
    requires Inv(n, s) && Informed(knew, s) && Step(n, s, a).Some?
    ensures Informed(knew, Step(n, s, a).value)
  {
    hide Sockets, Payloads, Flows, CloserInv, CloserReceives, PeerReceives;
    match a
    case PeerReceive(i) =>
      FlowsOfPop(s.toPeer[i], i in s.closedOn, Close);
      if s.toPeer[i][0].Data? {
        PeerDataInforms(n, knew, s, i);
      } else {
        PeerCloseInforms(n, knew, s, i);
      }
    case PeerCommit => CommitCases(s.peer);
    case CloserReceive(i) => CloserIsNotTold(n, s, i);
    case _ =>
  }

  lemma {:induction false} RunInforms(n: nat, knew: bool, s: State, actions: seq<Action>)
    requires Inv(n, s) && Informed(knew, s) && Run(n, s, actions).Some?
    ensures Informed(knew, Run(n, s, actions).value)
    decreases |actions|
  {
    hide Inv, Informed, Step;
    if actions != [] {
      StepInforms(n, knew, s, actions[0]);
      StepPreserves(n, s, actions[0]);
      RunInforms(n, knew, Step(n, s, actions[0]).value, actions[1..]);
    }
  }

  lemma ReachableInformed(n: nat, start: State, actions: seq<Action>, s: State)
    requires Initial(n, start) && Run(n, start, actions) == Some(s)
    ensures Inv(n, s) && Informed(KnewAtStart(start), s)
  {
    Reachable(n, start, [], start);
    Reachable(n, start, actions, s);
    assert !Heard(start);
    RunInforms(n, KnewAtStart(start), start, actions);
  }

  /** When the peer has had its last Close, it has been told Disconnected, and its gate is
      shut, if and only if it ever knew the stream: it knew it from the start, or
      something was sent on it.  Before that it is not told; the closer never is; and a
      peer is offered the stream as a new substream if and only if it learnt of it from
      a packet. */
  lemma ToldIfAndOnlyIfKnown(n: nat, start: State, actions: seq<Action>, s: State)
    requires Initial(n, start) && Run(n, start, actions) == Some(s)
    ensures s.peerShut ==>
              (s.peer.disconnected <==> KnewAtStart(start) || exists i :: 0 <= i < |s.sent| && s.sent[i] != [])
    ensures !s.peerShut ==> !s.peer.disconnected
    ensures s.peer.gateOpen <==> !s.peer.disconnected
    ensures s.peer.substreams == if !KnewAtStart(start) && Heard(s) then 1 else 0
    ensures !s.closer.disconnected
  {
    hide Run;
    ReachableInformed(n, start, actions, s);
    if s.peerShut {
      AllReceived(n, s);
    }
  }

  // ----- the end of a close -----

  function Length(channels: seq<seq<Packet>>): nat {
    if channels == [] then 0 else |channels[0]| + Length(channels[1..])
  }

  lemma {:induction false} LengthUpdate(channels: seq<seq<Packet>>, i: nat, ch: seq<Packet>)
    requires i < |channels|
    ensures Length(channels[i := ch]) == Length(channels) - |channels[i]| + |ch|
    decreases |channels|
  {
    if i == 0 {
      assert channels[i := ch][1..] == channels[1..];
    } else {
      assert channels[i := ch][1..] == channels[1..][i - 1 := ch];
      LengthUpdate(channels[1..], i - 1, ch);
    }
  }

  function PhaseWeight(phase: Phase): nat {
    match phase case Open => 2 case GateClosed => 1 case NullRegistered => 0
  }

  ghost function Rank(n: nat, s: State): nat {
    PhaseWeight(s.phase) + 2 * |Sockets(n) - s.closedOn| + Length(s.toPeer)
    + (if s.peerShut then 2 * |s.ackLeft| else 2 * n) + Length(s.toCloser)
  }

  ghost predicate Empty(channels: seq<seq<Packet>>) { forall i :: 0 <= i < |channels| ==> channels[i] == [] }

  ghost predicate Finished(s: State) { s.peerShut && s.closerShut && Empty(s.toPeer) && Empty(s.toCloser) }

  predicate Closing(a: Action) { !a.Send? && !a.Reply? }

  ghost predicate StepsDown(n: nat, s: State, a: Action, s': State) {
    Closing(a) && Step(n, s, a) == Some(s') && Rank(n, s') < Rank(n, s) && s'.sent == s.sent
  }

  lemma ClosingBegins(n: nat, s: State) returns (a: Action, s': State)
    requires Shaped(n, s) && !s.phase.NullRegistered?
    ensures StepsDown(n, s, a, s')
  {
    hide Sockets, Length;
    a := if s.phase.Open? then CloseGate else RegisterNull;
    s' := Step(n, s, a).value;
  }

  lemma ClosingSends(n: nat, s: State, i: nat) returns (s': State)
    requires Shaped(n, s) && s.phase.NullRegistered? && i in Sockets(n) - s.closedOn
    ensures StepsDown(n, s, BroadcastClose(i), s')
  {
    hide Length;
    s' := Step(n, s, BroadcastClose(i)).value;
    LengthUpdate(s.toPeer, i, s.toPeer[i] + [Close]);
    assert Sockets(n) - s'.closedOn == (Sockets(n) - s.closedOn) - {i};
  }

  lemma SomeSocketIsLeft(n: nat, s: State) returns (i: nat)
    requires Inv(n, s) && s.closedOn != Sockets(n)
    ensures i in Sockets(n) - s.closedOn
  {
    hide Sockets, Flows, Payloads, PeerInv, CloserInv;
    assert Sockets(n) == s.closedOn + (Sockets(n) - s.closedOn);
    i :| i in Sockets(n) - s.closedOn;
  }

  lemma AckSends(n: nat, s: State) returns (a: Action, s': State)
    requires Inv(n, s) && s.ackLeft != {}
    ensures StepsDown(n, s, a, s')
  {
    hide Sockets, Flows, Payloads, PeerInv, CloserInv, Length;
    var i :| i in s.ackLeft;
    a := BroadcastAck(i);
    s' := Step(n, s, a).value;
    LengthUpdate(s.toCloser, i, s.toCloser[i] + [Ack]);
  }

  lemma PeerTakes(n: nat, s: State, i: nat) returns (s': State)
    requires Inv(n, s) && s.ackLeft == {} && i < n && s.toPeer[i] != []
    ensures StepsDown(n, s, PeerReceive(i), s')
  {
    hide ChannelInv, PeerInv, CloserInv, Length, ReceiveControl, ReceiveData;
    PeerStillOpen(n, s, i);
    s' := PeerReceives(n, s, i);
    LengthUpdate(s.toPeer, i, s.toPeer[i][1..]);
  }

  lemma CloserTakes(n: nat, s: State, i: nat) returns (s': State)
    requires Inv(n, s) && i < n && s.toCloser[i] != []
    ensures StepsDown(n, s, CloserReceive(i), s')
  {
    hide ChannelInv, PeerInv, CloserInv, Length, ReceiveControl, ReceiveData, Sockets;
    s' := CloserReceives(n, s, i);
    LengthUpdate(s.toCloser, i, s.toCloser[i][1..]);
  }

  /** With every Close and Ack sent and nothing left on the sockets, both sides are done. */
  lemma NothingLeft(n: nat, s: State)
    requires Inv(n, s) && s.closedOn == Sockets(n) && s.ackLeft == {} && Empty(s.toPeer) && Empty(s.toCloser)
    ensures Finished(s)
  {
    hide Flows, Payloads;
    assert Consumed(s.closedOn, s.toPeer) == Sockets(n);
    assert s.peerShut;
    assert AckedOn(n, s) == Sockets(n);
    assert Consumed(AckedOn(n, s), s.toCloser) == Sockets(n);
  }

  lemma NextStep(n: nat, s: State) returns (a: Action, s': State)
    requires Inv(n, s) && !Finished(s)
    ensures StepsDown(n, s, a, s')
  {
    hide StepsDown, Finished, ChannelInv, PeerInv, CloserInv;
    if !s.phase.NullRegistered? {
      a, s' := ClosingBegins(n, s);
    } else if s.closedOn != Sockets(n) {
      var i := SomeSocketIsLeft(n, s);
      a := BroadcastClose(i);
      s' := ClosingSends(n, s, i);
    } else if s.ackLeft != {} {
      a, s' := AckSends(n, s);
    } else if i: nat :| i < n && s.toPeer[i] != [] {
      a := PeerReceive(i);
      s' := PeerTakes(n, s, i);
    } else if i: nat :| i < n && s.toCloser[i] != [] {
      a := CloserReceive(i);
      s' := CloserTakes(n, s, i);
    } else {
      NothingLeft(n, s);
      assert false;
    }
  }

  ghost predicate OnlyClosing(actions: seq<Action>) { forall i :: 0 <= i < |actions| ==> Closing(actions[i]) }

  lemma {:induction false} Completes(n: nat, s: State) returns (actions: seq<Action>, t: State)
    requires Inv(n, s)
    ensures Run(n, s, actions) == Some(t) && OnlyClosing(actions)
    ensures Inv(n, t) && Finished(t) && t.sent == s.sent
    decreases Rank(n, s)
  {
    hide Inv, Finished, Rank, Step, Closing;
    if Finished(s) {
      actions, t := [], s;
    } else {
      var a, s' := NextStep(n, s);
      StepPreserves(n, s, a);
      var rest;
      rest, t := Completes(n, s');
      actions := [a] + rest;
      assert actions[1..] == rest;
    }
  }

  /** From every reachable state the close can run to its end without another payload:
      both sides are done, no packet of the stream is left, the peer has been given
      everything sent, and told if and only if it knew the stream, and the side that
      owns the id has given it up for reuse, once. */
  lemma CloseCompletes(n: nat, start: State, actions: seq<Action>, s: State) returns (more: seq<Action>, t: State)
    requires Initial(n, start) && Run(n, start, actions) == Some(s)
    ensures Run(n, s, more) == Some(t) && OnlyClosing(more)
    ensures Finished(t) && t.peer.received == s.sent
    ensures t.peer.disconnected <==> KnewAtStart(start) || exists i :: 0 <= i < |s.sent| && s.sent[i] != []
    ensures t.closer.freed == (if t.closer.ownsId then 1 else 0) && t.peer.freed == (if t.closer.ownsId then 0 else 1)
  {
    hide Run, Initial;
    ReachableInformed(n, start, actions, s);
    more, t := Completes(n, s);
    RunInforms(n, KnewAtStart(start), s, more);
    AllReceived(n, t);
  }

  /** Whatever is sent before the close, on any socket, reaches the peer. */
  lemma SentIsDelivered(n: nat, start: State, actions: seq<Action>, s: State, i: nat, payload: nat)
    returns (more: seq<Action>, t: State)
    requires Initial(n, start) && Run(n, start, actions) == Some(s) && s.phase.Open? && i < n
    ensures Run(n, s, [Send(i, payload)] + more) == Some(t) && OnlyClosing(more) && |s.sent| == n
    ensures Finished(t) && t.peer.received == s.sent[i := s.sent[i] + [payload]] && t.peer.disconnected
  {
    hide Initial, PeerInv, CloserInv, Flows, Payloads;
    ReachableInformed(n, start, actions, s);
    var s' := Step(n, s, Send(i, payload)).value;
    StepPreserves(n, s, Send(i, payload));
    StepInforms(n, KnewAtStart(start), s, Send(i, payload));
    more, t := Completes(n, s');
    RunInforms(n, KnewAtStart(start), s', more);
    AllReceived(n, t);
    assert ([Send(i, payload)] + more)[1..] == more;
    assert t.peer.received[i] != [];
  }

  // ----- the other direction -----

  /** Until it has unregistered, the closer is given everything on its way to it. */
  lemma {:induction false} CloserHears(n: nat, s: State, i: nat) returns (actions: seq<Action>, t: State)
    requires Inv(n, s) && !s.phase.NullRegistered? && i < n
    ensures Run(n, s, actions) == Some(t) && Shaped(n, t)
    ensures t.closer.received[i] == s.closer.received[i] + Payloads(s.toCloser[i])
    decreases |s.toCloser[i]|
  {
    hide Flows, PeerInv, Sockets;
    if s.toCloser[i] == [] {
      actions, t := [], s;
      assert s.closer.received[i] + [] == s.closer.received[i];
    } else {
      var s' := CloserReceives(n, s, i);
      HearsNext(n, s, i);
      StepPreserves(n, s, CloserReceive(i));
      var rest;
      rest, t := CloserHears(n, s', i);
      actions := [CloserReceive(i)] + rest;
      assert actions[1..] == rest;
    }
  }

  lemma HearsNext(n: nat, s: State, i: nat)
    requires Inv(n, s) && !s.phase.NullRegistered? && i < n && s.toCloser[i] != []
    ensures var s' := CloserReceives(n, s, i);
            && s'.phase == s.phase && |s'.toCloser[i]| < |s.toCloser[i]|
            && s'.closer.received[i] + Payloads(s'.toCloser[i]) == s.closer.received[i] + Payloads(s.toCloser[i])
  {
    hide Flows, Payloads, Sockets;
    FlowsOfPop(s.toCloser[i], i in AckedOn(n, s), Ack);
    NotShutBeforeClose(n, s);
    PayloadsOfPop(s.toCloser[i]);
    CommitCases(s.closer);
    var p := s.toCloser[i][0].payload;
    assert s.closer.received[i] + [p] + Payloads(s.toCloser[i][1..])
        == s.closer.received[i] + ([p] + Payloads(s.toCloser[i][1..]));
  }

  lemma NotShutBeforeClose(n: nat, s: State)
    requires Inv(n, s) && !s.phase.NullRegistered?
    ensures !s.peerShut
  {
    if s.peerShut {
      ShutMeansRegistered(n, s);
    }
  }

  /** A reply the peer sends while the closer has not unregistered reaches the closer. */
  lemma ReplyIsHeard(n: nat, start: State, actions: seq<Action>, s: State, i: nat, payload: nat)
    returns (more: seq<Action>, t: State)
    requires Initial(n, start) && Run(n, start, actions) == Some(s) && !s.phase.NullRegistered? && i < n
    requires KnewAtStart(start) || Heard(s)
    ensures Run(n, s, [Reply(i, payload)] + more) == Some(t) && Shaped(n, t) && Shaped(n, s)
    ensures t.closer.received[i] == s.closer.received[i] + Payloads(s.toCloser[i]) + [payload]
  {
    hide Initial, Flows, Payloads, CloserInv, Sockets;
    ReachableInformed(n, start, actions, s);
    NotShutBeforeClose(n, s);
    var s' := Step(n, s, Reply(i, payload)).value;
    StepPreserves(n, s, Reply(i, payload));
    PayloadsOfPush(s.toCloser[i], Data(payload));
    more, t := CloserHears(n, s', i);
    assert ([Reply(i, payload)] + more)[1..] == more;
    assert s.closer.received[i] + (Payloads(s.toCloser[i]) + [payload])
        == s.closer.received[i] + Payloads(s.toCloser[i]) + [payload];
  }

  /** Either side's waiting callbacks can be committed at any time. */
  lemma CommitsTakeEffect(n: nat, start: State, actions: seq<Action>, s: State) returns (t: State, u: State)
    requires Initial(n, start) && Run(n, start, actions) == Some(s)
    ensures Run(n, s, [CloserCommit]) == Some(t) && Run(n, s, [PeerCommit]) == Some(u)
    ensures t.closer.registrations == [] && (t.closer.has <==> !s.phase.NullRegistered?)
    ensures u.peer.registrations == [] && (u.peer.has <==> !s.peerShut && (KnewAtStart(start) || Heard(s)))
  {
    hide Initial, ChannelInv;
    ReachableInformed(n, start, actions, s);
    CommitCases(s.closer);
    CommitCases(s.peer);
    t, u := s.(closer := Commit(s.closer)), s.(peer := Commit(s.peer));
    assert [CloserCommit][1..] == [] && [PeerCommit][1..] == [];
  }
}
