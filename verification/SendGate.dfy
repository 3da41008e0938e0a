/** Closing a stream against concurrent sends: the guard in `TCPStream::send` and
    `closeSendStatus` (libcore/src/network/TCPStream.cpp).  Senders count themselves
    in and out of one 32-bit word; closers add to its top bits and wait for the count
    to drain. */
module SendGate {
  import opened Options
  import opened Counting

  const CLOSING := 0x2000_0000
  const WORD := 0x1_0000_0000

  /** The two bits `sendStatus & (3 * SendStatusClosing)`. */
  function ClosingBits(w: nat): nat { w / CLOSING % 4 }

  function Plus(w: nat, k: int): nat { (w + k) % WORD }

  type Thread = nat

  datatype Pc =
    | Sender                // about to increment
    | Inside                // found the gate open: inside sendBytes
    | Refused               // found it closed
    | SenderDone
    | Closer                // about to read the word
    | SawOpen               // read it without closing bits, about to add
    | Draining              // waiting for a bare multiple of CLOSING
    | CloserDone

  /** `raised` counts the additions of CLOSING; no step reads it. */
  datatype State = State(word: nat, pcs: map<Thread, Pc>, raised: nat)

  datatype Action = NewSender(thread: Thread) | NewCloser(thread: Thread) | Advance(thread: Thread)

  const INITIAL := State(0, map[], 0)

  predicate IsCounted(pc: Pc) { pc.Inside? || pc.Refused? }

  predicate IsSender(pc: Pc) { pc.Sender? || pc.Inside? || pc.Refused? }

  predicate IsCloser(pc: Pc) { pc.Closer? || pc.SawOpen? || pc.Draining? }

  function Counted(pcs: map<Thread, Pc>): set<Thread> { set t | t in pcs && IsCounted(pcs[t]) }

  function Senders(pcs: map<Thread, Pc>): set<Thread> { set t | t in pcs && IsSender(pcs[t]) }

  function Closers(pcs: map<Thread, Pc>): set<Thread> { set t | t in pcs && IsCloser(pcs[t]) }

  function Openers(pcs: map<Thread, Pc>): set<Thread> { set t | t in pcs && pcs[t].SawOpen? }

  /** One atomic step when at most `limit` closers may be at work at once. */
  function Step(limit: nat, s: State, a: Action): Option<State> {
    match a
    case NewSender(t) =>
      if t in s.pcs || |Senders(s.pcs)| + 1 >= CLOSING then None
      else Some(s.(pcs := s.pcs[t := Sender]))
    case NewCloser(t) =>
      if t in s.pcs || |Closers(s.pcs)| >= limit then None
      else Some(s.(pcs := s.pcs[t := Closer]))
    case Advance(t) =>
      if t !in s.pcs || s.pcs[t].SenderDone? || s.pcs[t].CloserDone? then None else Some(AdvanceThread(s, t))
  }

  function AdvanceThread(s: State, t: Thread): State
    requires t in s.pcs && !s.pcs[t].SenderDone? && !s.pcs[t].CloserDone?
  {
    match s.pcs[t]
    case Sender =>
      var w := Plus(s.word, 1);
      s.(word := w, pcs := s.pcs[t := if ClosingBits(w) == 0 then Inside else Refused])
    case Inside => s.(word := Plus(s.word, -1), pcs := s.pcs[t := SenderDone])
    case Refused => s.(word := Plus(s.word, -1), pcs := s.pcs[t := SenderDone])
    case Closer => s.(pcs := s.pcs[t := if ClosingBits(s.word) == 0 then SawOpen else Draining])
    case SawOpen => s.(word := Plus(s.word, CLOSING), pcs := s.pcs[t := Draining], raised := s.raised + 1)
    case Draining =>
      if s.word == CLOSING || s.word == 2 * CLOSING || s.word == 3 * CLOSING
      then s.(pcs := s.pcs[t := CloserDone]) else s
  }

  function Run(limit: nat, s: State, actions: seq<Action>): Option<State>
    decreases |actions|
  {
    if actions == [] then Some(s)
    else match Step(limit, s, actions[0])
      case None => None
      case Some(s') => Run(limit, s', actions[1..])
  }

  // ----- the invariant -----

  ghost predicate Inv(s: State) {
    && |Senders(s.pcs)| < CLOSING
    && s.word == |Counted(s.pcs)| + s.raised * CLOSING
    && (s.raised == 0 ==> |Closers(s.pcs)| <= 3)
    && s.raised + |Openers(s.pcs)| <= 3
    && (forall t :: t in s.pcs && (s.pcs[t].Draining? || s.pcs[t].CloserDone?) ==> 0 < s.raised)
    && (forall t, u :: t in s.pcs && u in s.pcs && s.pcs[t].CloserDone? ==> !s.pcs[u].Inside?)
  }

  lemma Sizes(pcs: map<Thread, Pc>)
    ensures |Counted(pcs)| <= |Senders(pcs)| && |Openers(pcs)| <= |Closers(pcs)|
  {
    SubsetSize(Counted(pcs), Senders(pcs));
    SubsetSize(Openers(pcs), Closers(pcs));
  }

  /** The closing bits show how often the gate was raised. */
  lemma WordBits(s: State)
    requires Inv(s)
    ensures |Counted(s.pcs)| < CLOSING && s.raised <= 3
    ensures ClosingBits(s.word) == s.raised
  {
    Sizes(s.pcs);
  }

  function One(b: bool): nat { if b then 1 else 0 }

  lemma SameOthers(a: set<Thread>, b: set<Thread>, t: Thread)
    requires forall u :: u != t ==> (u in a <==> u in b)
    ensures |b| == |a| - One(t in a) + One(t in b)
  {
    assert a - {t} == b - {t};
    assert a == if t in a then (a - {t}) + {t} else a - {t};
    assert b == if t in b then (b - {t}) + {t} else b - {t};
  }

  lemma UpdateSizes(pcs: map<Thread, Pc>, t: Thread, pc: Pc)
    requires t in pcs
    ensures |Counted(pcs[t := pc])| == |Counted(pcs)| - One(IsCounted(pcs[t])) + One(IsCounted(pc))
    ensures |Openers(pcs[t := pc])| == |Openers(pcs)| - One(pcs[t].SawOpen?) + One(pc.SawOpen?)
    ensures |Senders(pcs[t := pc])| == |Senders(pcs)| - One(IsSender(pcs[t])) + One(IsSender(pc))
    ensures |Closers(pcs[t := pc])| == |Closers(pcs)| - One(IsCloser(pcs[t])) + One(IsCloser(pc))
  {
    var p := pcs[t := pc];
    SameOthers(Counted(pcs), Counted(p), t);
    SameOthers(Openers(pcs), Openers(p), t);
    SameOthers(Senders(pcs), Senders(p), t);
    SameOthers(Closers(pcs), Closers(p), t);
  }

  lemma NobodyCounted(s: State)
    requires |Counted(s.pcs)| == 0
    ensures forall u :: u in s.pcs ==> !s.pcs[u].Inside?
  {
    assert forall u :: u in s.pcs && s.pcs[u].Inside? ==> u in Counted(s.pcs);
  }

  lemma AdvancePreserves(s: State, t: Thread)
    requires Inv(s) && t in s.pcs && !s.pcs[t].SenderDone? && !s.pcs[t].CloserDone?
    ensures Inv(AdvanceThread(s, t))
  {
    hide Counted, Senders, Closers, Openers;
    var s' := AdvanceThread(s, t);
    WordBits(s);
    Sizes(s.pcs);
    Sizes(s'.pcs);
    UpdateSizes(s.pcs, t, s'.pcs[t]);
    if s.pcs[t].Draining? && s'.pcs[t].CloserDone? {
      NobodyCounted(s);
    }
    if s.pcs[t].Sender? {
      assert ClosingBits(s'.word) == s.raised;
    }
  }

  lemma StepPreserves(limit: nat, s: State, a: Action)
    requires limit <= 3 && Inv(s) && Step(limit, s, a).Some?
    ensures Inv(Step(limit, s, a).value)
  {
    match a
    case Advance(t) => AdvancePreserves(s, t);
    case NewSender(t) => NewThreadPreserves(s, t, Sender);
    case NewCloser(t) => NewThreadPreserves(s, t, Closer);
  }

  lemma NewThreadPreserves(s: State, t: Thread, pc: Pc)
    requires Inv(s) && t !in s.pcs
    requires (pc.Sender? && |Senders(s.pcs)| + 1 < CLOSING) || (pc.Closer? && |Closers(s.pcs)| < 3)
    ensures Inv(s.(pcs := s.pcs[t := pc]))
  {
    var p := s.pcs[t := pc];
    SameOthers(Counted(s.pcs), Counted(p), t);
    SameOthers(Openers(s.pcs), Openers(p), t);
    SameOthers(Senders(s.pcs), Senders(p), t);
    SameOthers(Closers(s.pcs), Closers(p), t);
  }

  lemma {:induction false} RunPreserves(limit: nat, s: State, actions: seq<Action>)
    requires limit <= 3 && Inv(s) && Run(limit, s, actions).Some?
    ensures Inv(Run(limit, s, actions).value)
    decreases |actions|
  {
    if actions != [] {
      StepPreserves(limit, s, actions[0]);
      RunPreserves(limit, Step(limit, s, actions[0]).value, actions[1..]);
    }
  }

  lemma Reachable(limit: nat, actions: seq<Action>, s: State)
    requires limit <= 3 && Run(limit, INITIAL, actions) == Some(s)
    ensures Inv(s)
  {
    assert Senders(INITIAL.pcs) == {} && Counted(INITIAL.pcs) == {};
    assert Closers(INITIAL.pcs) == {} && Openers(INITIAL.pcs) == {};
    RunPreserves(limit, INITIAL, actions);
  }

  // ----- what close() relies on -----

  /** Once some `closeSendStatus` has returned, no send is in progress, now or at any
      later point of the run. */
  lemma CloseExcludesSends(limit: nat, actions: seq<Action>, s: State, closer: Thread)
    requires limit <= 3 && Run(limit, INITIAL, actions) == Some(s)
    requires closer in s.pcs && s.pcs[closer].CloserDone?
    ensures forall t :: t in s.pcs ==> !s.pcs[t].Inside?
  {
    Reachable(limit, actions, s);
  }

  /** An open gate admits everybody and a raised one nobody: in every run, a sender that
      increments is let in if CLOSING has not been added yet, and refused otherwise. */
  ghost predicate GateHolds(limit: nat) {
    forall actions, s, t ::
      Run(limit, INITIAL, actions) == Some(s) && t in s.pcs && s.pcs[t].Sender?
      ==> AdvanceThread(s, t).pcs[t] == if s.raised == 0 then Inside else Refused
  }

  lemma ThreeClosersAreSafe(limit: nat)
    requires limit <= 3
    ensures GateHolds(limit)
  {
    forall actions, s, t | Run(limit, INITIAL, actions) == Some(s) && t in s.pcs && s.pcs[t].Sender?
      ensures AdvanceThread(s, t).pcs[t] == if s.raised == 0 then Inside else Refused
    {
      Reachable(limit, actions, s);
      WordBits(s);
      AdvancePreserves(s, t);
      WordBits(AdvanceThread(s, t));
    }
  }

  lemma {:induction false} RunAppends(limit: nat, s: State, xs: seq<Action>, a: Action)
    requires Run(limit, s, xs).Some?
    ensures Run(limit, s, xs + [a]) == Step(limit, Run(limit, s, xs).value, a)
    decreases |xs|
  {
    if xs == [] {
      assert xs + [a] == [a];
    } else {
      assert (xs + [a])[1..] == xs[1..] + [a];
      RunAppends(limit, Step(limit, s, xs[0]).value, xs[1..], a);
    }
  }

  /** Extends a run by one action that leads to `s'`. */
  lemma Extend(limit: nat, xs: seq<Action>, s: State, a: Action, s': State) returns (ys: seq<Action>)
    requires Run(limit, INITIAL, xs) == Some(s) && Step(limit, s, a) == Some(s')
    ensures Run(limit, INITIAL, ys) == Some(s')
  {
    ys := xs + [a];
    RunAppends(limit, INITIAL, xs, a);
  }

  /** Four closers that all read the word before any of them adds wrap the closing
      bits around to zero, and the next sender walks in. */
  lemma FourClosersReopenTheGate(limit: nat)
    requires 4 <= limit
    ensures !GateHolds(limit)
  {
    hide Run;
    var xs, s := FourClosersEnter(limit);
    xs, s := AllAdvance(limit, xs, s);
    assert s == State(0, s.pcs, 0) && forall t :: t in s.pcs ==> s.pcs[t] == SawOpen;
    xs, s := AllAdvance(limit, xs, s);
    assert s.word == 4 * CLOSING && forall t :: t in s.pcs ==> s.pcs[t] == Draining;
    assert Senders(s.pcs) == {};
    var s' := s.(pcs := s.pcs[4 := Sender]);
    xs := Extend(limit, xs, s, NewSender(4), s');
    assert AdvanceThread(s', 4).pcs[4].Inside?;
  }

  lemma CloserEnters(limit: nat, xs: seq<Action>, s: State, t: Thread) returns (ys: seq<Action>, s': State)
    requires Run(limit, INITIAL, xs) == Some(s) && t !in s.pcs && |Closers(s.pcs)| < limit
    ensures Run(limit, INITIAL, ys) == Some(s') && s' == s.(pcs := s.pcs[t := Closer])
    ensures |Closers(s'.pcs)| == |Closers(s.pcs)| + 1
  {
    hide Run, AdvanceThread;
    s' := s.(pcs := s.pcs[t := Closer]);
    ys := Extend(limit, xs, s, NewCloser(t), s');
    SameOthers(Closers(s.pcs), Closers(s'.pcs), t);
  }

  lemma FourClosersEnter(limit: nat) returns (xs: seq<Action>, s: State)
    requires 4 <= limit
    ensures Run(limit, INITIAL, xs) == Some(s) && s == State(0, s.pcs, 0)
    ensures s.pcs.Keys == {0, 1, 2, 3} && forall t :: t in s.pcs ==> s.pcs[t] == Closer
  {
    assert Run(limit, INITIAL, []) == Some(INITIAL);
    assert Closers(INITIAL.pcs) == {};
    hide Run, Step, Closers;
    xs, s := CloserEnters(limit, [], INITIAL, 0);
    xs, s := CloserEnters(limit, xs, s, 1);
    xs, s := CloserEnters(limit, xs, s, 2);
    xs, s := CloserEnters(limit, xs, s, 3);
  }

  /** Threads 0 to 3 take one step each. */
  lemma AllAdvance(limit: nat, xs: seq<Action>, s: State) returns (ys: seq<Action>, s': State)
    requires Run(limit, INITIAL, xs) == Some(s) && s.pcs.Keys == {0, 1, 2, 3} && s.word == 0
    requires (forall t :: t in s.pcs ==> s.pcs[t] == Closer) || (forall t :: t in s.pcs ==> s.pcs[t] == SawOpen)
    ensures Run(limit, INITIAL, ys) == Some(s') && s'.pcs.Keys == {0, 1, 2, 3}
    ensures s.pcs[0] == Closer ==> s' == State(0, s'.pcs, s.raised) && forall t :: t in s'.pcs ==> s'.pcs[t] == SawOpen
    ensures s.pcs[0] == SawOpen ==>
              s' == State(4 * CLOSING, s'.pcs, s.raised + 4) && forall t :: t in s'.pcs ==> s'.pcs[t] == Draining
  {
    hide Run;
    var a := AdvanceThread(s, 0);
    var b := AdvanceThread(a, 1);
    var c := AdvanceThread(b, 2);
    s' := AdvanceThread(c, 3);
    ys := Extend(limit, xs, s, Advance(0), a);
    ys := Extend(limit, ys, a, Advance(1), b);
    ys := Extend(limit, ys, b, Advance(2), c);
    ys := Extend(limit, ys, c, Advance(3), s');
  }

  /** Three is exactly the number of simultaneous closers the gate is good for. */
  lemma GateLimit(limit: nat)
    ensures GateHolds(limit) <==> limit <= 3
  {
    if limit <= 3 {
      ThreeClosersAreSafe(limit);
    } else {
      FourClosersReopenTheGate(limit);
    }
  }
}
