/** Requests made before or during a connect all get through: from every reachable state
    the threads that are there can finish (libcore/src/network/MultiplexedSocket.cpp). */
module ConnectProgress {
  import opened Options
  import opened CallOrder
  import opened Counting
  import opened PreConnection

  function Weight(pc: Pc): nat {
    match pc
    case Entered => 8
    case WantLock => 7
    case Locked => 6
    case LockedConnected => 2
    case LockedQueued => 1
    case Direct => 1
    case Returned => 0
  }

  /** How far the reactor is from resting in phase CONNECTED. */
  function ReactorWeight(r: ReactorPc, phase: Phase): nat {
    match r
    case Resting => if phase.Connected? then 0 else 20
    case WantSwap => 19
    case SwapLocked => 18
    case SwapDone(_) => 17
    case Flushing(_) => 16
    case WantFinal => 5
    case FinalLocked => 4
    case Draining(_) => 3
    case FinalDone => 2
  }

  ghost function Rank(s: State): nat {
    Total(s.pcs, Weight) + ReactorWeight(s.reactor, s.phase) + |Held(s)| + 2 * |StillWaiting(s)|
  }

  ghost predicate Quiet(s: State) {
    s.phase.Connected? && s.reactor.Resting? && forall c :: c in s.pcs ==> s.pcs[c].Returned?
  }

  ghost predicate StepsDown(s: State, a: Action, s': State) {
    && !a.Make? && Step(s, a) == Some(s')
    && Rank(s') < Rank(s) && s'.pcs.Keys == s.pcs.Keys && s.forwarded <= s'.forwarded
  }

  lemma ReactorSteps(s: State) returns (s': State)
    requires PhaseInv(s) && !(s.phase.Connected? && s.reactor.Resting?)
    requires s.lock.Free? || ReactorHolds(s.reactor)
    ensures StepsDown(s, Proceed(true), s')
  {
    hide Total;
    s' := AdvanceReactor(s, true).value;
  }

  lemma SenderSteps(s: State, c: Call) returns (s': State)
    requires PhaseInv(s) && LockInv(s) && c in s.pcs && !s.pcs[c].Returned?
    requires s.lock.Free? || s.lock == Sender(c)
    ensures StepsDown(s, Advance(c), s')
  {
    hide Total;
    s' := AdvanceSender(s, c).value;
    SenderFrame(s, c);
    TotalUpdate(s.pcs, Weight, c, s'.pcs[c]);
  }

  lemma NextStep(s: State) returns (a: Action, s': State)
    requires Inv(s) && !Quiet(s)
    ensures StepsDown(s, a, s')
  {
    hide StepsDown, PlaceInv, OrderInv;
    if s.lock.Sender? {
      a := Advance(s.lock.call);
      s' := SenderSteps(s, s.lock.call);
    } else if !(s.phase.Connected? && s.reactor.Resting?) {
      a := Proceed(true);
      s' := ReactorSteps(s);
    } else {
      var c :| c in s.pcs && !s.pcs[c].Returned?;
      a := Advance(c);
      s' := SenderSteps(s, c);
    }
  }

  ghost predicate NoneMade(actions: seq<Action>) { forall i :: 0 <= i < |actions| ==> !actions[i].Make? }

  lemma {:induction false} Completes(s: State) returns (actions: seq<Action>, t: State)
    requires Inv(s)
    ensures Run(s, actions) == Some(t) && NoneMade(actions)
    ensures Inv(t) && Quiet(t) && t.pcs.Keys == s.pcs.Keys && s.forwarded <= t.forwarded
    decreases Rank(s)
  {
    hide Inv, Quiet, Rank, Step, Order;
    if Quiet(s) {
      actions, t := [], s;
    } else {
      var a, s' := NextStep(s);
      StepPreserves(s, a);
      var rest;
      rest, t := Completes(s');
      actions := [a] + rest;
      assert actions[1..] == rest;
    }
  }

  /** From every reachable state the connect can succeed and every call return; each
      request has then been forwarded, once, behind those forwarded already. */
  lemma EveryRequestGetsOut(actions: seq<Action>, s: State) returns (more: seq<Action>, t: State)
    requires Run(INITIAL, actions) == Some(s)
    ensures Run(s, more) == Some(t) && NoneMade(more) && t.pcs.Keys == s.pcs.Keys
    ensures t.phase.Connected? && t.waiting == [] && forall c :: c in t.pcs ==> t.pcs[c].Returned?
    ensures s.forwarded <= t.forwarded && NoDuplicates(t.forwarded) && forall c :: c in s.pcs <==> c in t.forwarded
  {
    hide Run;
    Reachable(actions, s);
    more, t := Completes(s);
    RestIsComplete(t);
  }

  lemma RestIsComplete(t: State)
    requires Inv(t) && Quiet(t)
    ensures t.waiting == [] && NoDuplicates(t.forwarded) && forall c :: c in t.pcs <==> c in t.forwarded
  {
    assert Order(t) == t.forwarded;
  }

  /** A new request can be made at any time, and gets out. */
  lemma NewRequestGetsOut(actions: seq<Action>, s: State, c: Call) returns (more: seq<Action>, t: State)
    requires Run(INITIAL, actions) == Some(s) && c !in s.pcs
    ensures Run(s, [Make(c)] + more) == Some(t) && NoneMade(more)
    ensures c in t.pcs && t.pcs[c].Returned? && c in t.forwarded && s.forwarded <= t.forwarded
  {
    Reachable(actions, s);
    StepPreserves(s, Make(c));
    more, t := Completes(Step(s, Make(c)).value);
    RestIsComplete(t);
    assert ([Make(c)] + more)[1..] == more;
  }

  /** Once connected, a request goes out without waiting for the lock, whoever has it. */
  lemma ConnectedNeedsNoLock(s: State, c: Call) returns (t: State)
    requires c in s.pcs && s.pcs[c].Entered? && s.phase.Connected?
    ensures Run(s, [Advance(c), Advance(c)]) == Some(t) && t.forwarded == s.forwarded + [c] && t.lock == s.lock
  {
    var xs := [Advance(c), Advance(c)];
    assert xs[1..] == [Advance(c)] && xs[1..][1..] == [];
    var e := AdvanceSender(s, c).value;
    t := AdvanceSender(e, c).value;
    assert Run(e, xs[1..]) == Some(t);
  }
}
