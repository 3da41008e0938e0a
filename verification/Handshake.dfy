/** Setting up the sockets of one connection
    (libcore/src/network/ASIOConnectAndHandshake.cpp): every socket either fails to
    connect or delivers the peer's header, in any order, and one counter decides what
    the connection is told. */
module Handshake {

  type Header = nat

  datatype Outcome = Received(socket: nat, header: Header) | Unreachable(socket: nat)

  datatype Callback = ConnectedCallback | ConnectionFailedCallback(socket: nat)

  // ----- what the connection should be told -----

  /** Headers all alike. */
  predicate Uniform(outcomes: seq<Outcome>) {
    && (forall i :: 0 <= i < |outcomes| ==> outcomes[i].Received?)
    && (forall i :: 0 <= i < |outcomes| ==> outcomes[i].header == outcomes[0].header)
  }

  /** The first outcome that breaks uniformity. */
  ghost predicate FirstToFail(outcomes: seq<Outcome>, k: nat) {
    k < |outcomes| && Uniform(outcomes[..k]) && !Uniform(outcomes[..k + 1])
  }

  /** The sockets that are read from: those that delivered the common header before
      anything went wrong, in the order they did. */
  ghost predicate ReadFrom(outcomes: seq<Outcome>, reading: seq<nat>) {
    if Uniform(outcomes) then AreSockets(outcomes, reading)
    else exists k: nat :: FirstToFail(outcomes, k) && AreSockets(outcomes[..k], reading)
  }

  predicate AreSockets(outcomes: seq<Outcome>, reading: seq<nat>) {
    |reading| == |outcomes| && forall i :: 0 <= i < |outcomes| ==> reading[i] == outcomes[i].socket
  }

  ghost predicate Told(sockets: nat, outcomes: seq<Outcome>, log: seq<Callback>) {
    if Uniform(outcomes) then log == if 0 < sockets == |outcomes| then [ConnectedCallback] else []
    else exists k: nat :: FirstToFail(outcomes, k) && log == [ConnectionFailedCallback(outcomes[k].socket)]
  }

  // ----- the counter -----

  class ConnectAndHandshake {
    const numSockets: nat
    var mFinishedCheckCount: int
    var mFirstReceivedHeader: Header
    var log: seq<Callback>
    /** Sockets that have been given a read buffer. */
    var reading: seq<nat>

    ghost predicate Valid(seen: seq<Outcome>)
      reads this
    {
      && |seen| <= numSockets
      && mFinishedCheckCount == (if Uniform(seen) then numSockets - |seen| else -|seen|)
      && (seen != [] && Uniform(seen) ==> mFirstReceivedHeader == seen[0].header)
      && Told(numSockets, seen, log)
      && ReadFrom(seen, reading)
    }

    constructor (sockets: nat)
      ensures Valid([]) && numSockets == sockets
    {
      numSockets, mFinishedCheckCount, mFirstReceivedHeader := sockets, sockets, 0;
      log, reading := [], [];
    }

    method CheckHeaderContents(whichSocket: nat, buffer: Header, ghost seen: seq<Outcome>)
      requires Valid(seen) && |seen| < numSockets
      modifies this
      ensures Valid(seen + [Received(whichSocket, buffer)])
    {
      ghost var all := seen + [Received(whichSocket, buffer)];
      Extended(numSockets, seen, all[|seen|], log);
      ReadingExtended(seen, all[|seen|], reading);
      hide Told, ReadFrom;
      if mFinishedCheckCount == numSockets {
        mFirstReceivedHeader := buffer;
      }
      if mFinishedCheckCount >= 1 {
        if mFirstReceivedHeader != buffer {
          log := log + [ConnectionFailedCallback(whichSocket)];
          mFinishedCheckCount := mFinishedCheckCount - numSockets;
          mFinishedCheckCount := mFinishedCheckCount - 1;
        } else {
          mFinishedCheckCount := mFinishedCheckCount - 1;
          if mFinishedCheckCount == 0 {
            log := log + [ConnectedCallback];
          }
          reading := reading + [whichSocket];
        }
      } else {
        mFinishedCheckCount := mFinishedCheckCount - 1;
      }
    }

    /** `connectToIPAddress` with an error and no address left to try. */
    method ConnectFailed(whichSocket: nat, ghost seen: seq<Outcome>)
      requires Valid(seen) && |seen| < numSockets
      modifies this
      ensures Valid(seen + [Unreachable(whichSocket)])
    {
      Extended(numSockets, seen, Unreachable(whichSocket), log);
      ReadingExtended(seen, Unreachable(whichSocket), reading);
      hide Told, ReadFrom;
      if mFinishedCheckCount >= 1 {
        mFinishedCheckCount := mFinishedCheckCount - numSockets;
        mFinishedCheckCount := mFinishedCheckCount - 1;
        log := log + [ConnectionFailedCallback(whichSocket)];
      } else {
        mFinishedCheckCount := mFinishedCheckCount - 1;
      }
    }
  }

  /** What one more outcome adds. */
  lemma Extended(sockets: nat, seen: seq<Outcome>, o: Outcome, log: seq<Callback>)
    requires |seen| < sockets && Told(sockets, seen, log)
    ensures var all := seen + [o];
            && (Uniform(all) <==> Uniform(seen) && o.Received? && (seen != [] ==> o.header == seen[0].header))
            && (!Uniform(seen) ==> Told(sockets, all, log))
            && (Uniform(seen) && !Uniform(all) ==> Told(sockets, all, log + [ConnectionFailedCallback(o.socket)]))
            && (Uniform(all) ==> Told(sockets, all, if |all| == sockets then log + [ConnectedCallback] else log))
  {
    var all := seen + [o];
    assert forall i :: 0 <= i < |seen| ==> all[i] == seen[i];
    assert all[|seen|] == o && all[..|seen|] == seen && all[..|all|] == all;
    if !Uniform(seen) {
      var k: nat :| FirstToFail(seen, k) && log == [ConnectionFailedCallback(seen[k].socket)];
      assert all[..k] == seen[..k] && all[..k + 1] == seen[..k + 1];
      assert FirstToFail(all, k);
    } else if !Uniform(all) {
      assert FirstToFail(all, |seen|);
    }
  }

  lemma ReadingExtended(seen: seq<Outcome>, o: Outcome, reading: seq<nat>)
    requires ReadFrom(seen, reading)
    ensures ReadFrom(seen + [o], if Uniform(seen + [o]) then reading + [o.socket] else reading)
  {
    var all := seen + [o];
    assert forall i :: 0 <= i < |seen| ==> all[i] == seen[i];
    assert all[..|seen|] == seen && all[..|all|] == all;
    if !Uniform(seen) {
      var k: nat :| FirstToFail(seen, k) && AreSockets(seen[..k], reading);
      assert all[..k] == seen[..k] && all[..k + 1] == seen[..k + 1];
      assert FirstToFail(all, k);
    } else if !Uniform(all) {
      assert FirstToFail(all, |seen|);
    }
  }

  /** One outcome for each socket, in any order: the connection hears that it is
      connected if every socket delivered the same header, and otherwise hears of
      exactly one failure, the first. */
  method Connect(outcomes: seq<Outcome>) returns (log: seq<Callback>, reading: seq<nat>)
    ensures Told(|outcomes|, outcomes, log)
    ensures ReadFrom(outcomes, reading)
  {
    hide Told, Uniform, ReadFrom;
    var c := new ConnectAndHandshake(|outcomes|);
    var i := 0;
    while i < |outcomes|
      invariant 0 <= i <= |outcomes| && c.numSockets == |outcomes|
      invariant c.Valid(outcomes[..i])
    {
      match outcomes[i] {
        case Received(socket, header) => c.CheckHeaderContents(socket, header, outcomes[..i]);
        case Unreachable(socket) => c.ConnectFailed(socket, outcomes[..i]);
      }
      assert outcomes[..i + 1] == outcomes[..i] + [outcomes[i]];
      i := i + 1;
    }
    assert outcomes[..i] == outcomes;
    log, reading := c.log, c.reading;
  }
}
