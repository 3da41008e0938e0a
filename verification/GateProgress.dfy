/** The send gate lets everybody through in the end: senders come out, and closers return
    as soon as the senders that were inside are out (libcore/src/network/TCPStream.cpp). */
module GateProgress {
  import opened Options
  import opened Counting
  import opened SendGate

  /** A waiting closer returns at its next look if and only if no sender is counted. */
  lemma CloserReturnsOnceDrained(limit: nat, actions: seq<Action>, s: State, t: Thread)
    requires limit <= 3 && Run(limit, INITIAL, actions) == Some(s)
    requires t in s.pcs && s.pcs[t].Draining?
    ensures AdvanceThread(s, t).pcs[t].CloserDone? <==> Counted(s.pcs) == {}
  {
    hide Run, Counted;
    Reachable(limit, actions, s);
    DrainedWord(s, t);
  }

  lemma DrainedWord(s: State, t: Thread)
    requires Inv(s) && t in s.pcs && s.pcs[t].Draining?
    ensures AdvanceThread(s, t).pcs[t].CloserDone? <==> Counted(s.pcs) == {}
  {
    hide Counted, Senders, Closers, Openers;
    WordBits(s);
  }

  function Weight(pc: Pc): nat {
    match pc
    case Sender => 2
    case Inside => 1
    case Refused => 1
    case SenderDone => 0
    case Closer => 3
    case SawOpen => 2
    case Draining => 1
    case CloserDone => 0
  }

  ghost function Rank(s: State): nat { Total(s.pcs, Weight) }

  predicate Done(pc: Pc) { pc.SenderDone? || pc.CloserDone? }

  ghost predicate AllDone(s: State) { forall t :: t in s.pcs ==> Done(s.pcs[t]) }

  lemma NextStep(s: State) returns (t: Thread)
    requires Inv(s) && !AllDone(s)
    ensures t in s.pcs && !Done(s.pcs[t]) && Rank(AdvanceThread(s, t)) < Rank(s)
    ensures AdvanceThread(s, t).pcs.Keys == s.pcs.Keys
  {
    hide Total;
    if u :| u in s.pcs && !Done(s.pcs[u]) && !s.pcs[u].Draining? {
      t := u;
    } else {
      t :| t in s.pcs && !Done(s.pcs[t]);
      assert Counted(s.pcs) == {};
      DrainedWord(s, t);
    }
    TotalUpdate(s.pcs, Weight, t, AdvanceThread(s, t).pcs[t]);
  }

  ghost predicate NobodyNew(actions: seq<Action>) { forall i :: 0 <= i < |actions| ==> actions[i].Advance? }

  lemma {:induction false} Completes(limit: nat, s: State) returns (actions: seq<Action>, s': State)
    requires limit <= 3 && Inv(s)
    ensures Run(limit, s, actions) == Some(s') && NobodyNew(actions)
    ensures Inv(s') && AllDone(s') && s'.pcs.Keys == s.pcs.Keys
    decreases Rank(s)
  {
    hide Inv, Rank, AdvanceThread;
    if AllDone(s) {
      actions, s' := [], s;
    } else {
      var t := NextStep(s);
      AdvancePreserves(s, t);
      var rest;
      rest, s' := Completes(limit, AdvanceThread(s, t));
      actions := [Advance(t)] + rest;
      assert actions[1..] == rest;
    }
  }

  /** From every reachable state all the threads there can finish, with no new ones; the
      word is then a bare number of closes. */
  lemma EverybodyFinishes(limit: nat, actions: seq<Action>, s: State) returns (more: seq<Action>, s': State)
    requires limit <= 3 && Run(limit, INITIAL, actions) == Some(s)
    ensures Run(limit, s, more) == Some(s') && NobodyNew(more)
    ensures AllDone(s') && s'.pcs.Keys == s.pcs.Keys && s'.word == s'.raised * CLOSING
  {
    hide Run;
    Reachable(limit, actions, s);
    more, s' := Completes(limit, s);
    assert Counted(s'.pcs) == {};
  }

  /** While nobody closes the stream, a new sender is let in at once, however many
      others are inside. */
  lemma OpenGateAdmits(limit: nat, actions: seq<Action>, s: State, t: Thread) returns (s': State)
    requires limit <= 3 && Run(limit, INITIAL, actions) == Some(s) && s.raised == 0
    requires t !in s.pcs && |Senders(s.pcs)| + 1 < CLOSING
    ensures Run(limit, s, [NewSender(t), Advance(t)]) == Some(s') && s'.pcs == s.pcs[t := Inside]
  {
    hide Counted, Senders, Closers, Openers;
    var e := s.(pcs := s.pcs[t := SendGate.Sender]);
    assert Step(limit, s, NewSender(t)) == Some(e);
    var xs := Extend(limit, actions, s, NewSender(t), e);
    ThreeClosersAreSafe(limit);
    s' := AdvanceThread(e, t);
    TwoSteps(limit, s, NewSender(t), e, Advance(t), s');
  }

  /** A new closer, as long as fewer than three are at work, gets to close the gate. */
  lemma NewCloserCloses(limit: nat, actions: seq<Action>, s: State, t: Thread) returns (more: seq<Action>, s': State)
    requires limit <= 3 && Run(limit, INITIAL, actions) == Some(s)
    requires t !in s.pcs && |Closers(s.pcs)| < limit
    ensures Run(limit, s, [NewCloser(t)] + more) == Some(s') && NobodyNew(more)
    ensures t in s'.pcs && s'.pcs[t].CloserDone? && 0 < s'.raised
  {
    Reachable(limit, actions, s);
    var e := s.(pcs := s.pcs[t := SendGate.Closer]);
    StepPreserves(limit, s, NewCloser(t));
    more, s' := Completes(limit, e);
    assert ([NewCloser(t)] + more)[1..] == more;
    CloserStaysCloser(limit, e, more, s', t);
  }

  lemma TwoSteps(limit: nat, s: State, a: Action, e: State, b: Action, s': State)
    requires Step(limit, s, a) == Some(e) && Step(limit, e, b) == Some(s')
    ensures Run(limit, s, [a, b]) == Some(s')
  {
    hide Step;
    assert [a, b][1..] == [b] && [b][1..] == [];
    assert Run(limit, e, [b]) == Some(s');
  }

  predicate ClosingPc(pc: Pc) { IsCloser(pc) || pc.CloserDone? }

  lemma {:induction false} CloserStaysCloser(limit: nat, s: State, actions: seq<Action>, s': State, t: Thread)
    requires Run(limit, s, actions) == Some(s') && t in s.pcs && ClosingPc(s.pcs[t])
    ensures t in s'.pcs && ClosingPc(s'.pcs[t])
    decreases |actions|
  {
    hide Senders, Closers, Plus, ClosingBits;
    if actions != [] {
      CloserStaysCloser(limit, Step(limit, s, actions[0]).value, actions[1..], s', t);
    }
  }
}
