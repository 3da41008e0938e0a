/** Requests made while the connection is being set up (`sendBytes` and
    `CommitCallbacks` in libcore/src/network/MultiplexedSocket.cpp), interleaved with a
    connect that succeeds.  Senders test the phase once without the lock and once with
    it; the reactor flushes the waiting requests, finally under the lock. */
module PreConnection {
  import opened Options
  import opened CallOrder

  datatype Phase = Preconnection | WaitConnecting | Connected

  datatype Owner = Free | Sender(call: Call) | Reactor

  datatype Pc =
    | Entered            // about to test the phase without the lock
    | WantLock
    | Locked             // about to test the phase with the lock
    | LockedConnected    // saw CONNECTED, about to unlock
    | LockedQueued       // appended to mNewRequests, about to unlock
    | Direct             // about to call sendBytesNow
    | Returned

  /** The reactor thread inside `CommitCallbacks`. */
  datatype ReactorPc =
    | Resting
    | WantSwap
    | SwapLocked
    | SwapDone(batch: seq<Call>)
    | Flushing(batch: seq<Call>)
    | WantFinal
    | FinalLocked
    | Draining(done: nat)   // phase is WAITCONNECTING, mNewRequests[..done] forwarded
    | FinalDone             // phase is CONNECTED, about to unlock

  datatype State = State(
    phase: Phase,
    lock: Owner,
    waiting: seq<Call>,     // mNewRequests
    forwarded: seq<Call>,   // calls of sendBytesNow
    reactor: ReactorPc,
    pcs: map<Call, Pc>,
    after: map<Call, set<Call>>)

  /** `Proceed(final)`: where the reactor has a choice, whether this commit is the one
      that sets the connected status. */
  datatype Action = Make(call: Call) | Advance(call: Call) | Proceed(final: bool)

  const INITIAL := State(Preconnection, Free, [], [], Resting, map[], map[])

  function ReturnedCalls(pcs: map<Call, Pc>): set<Call> { set c | c in pcs && pcs[c].Returned? }

  function Step(s: State, a: Action): Option<State> {
    match a
    case Make(c) =>
      if c in s.pcs then None
      else Some(s.(pcs := s.pcs[c := Entered], after := s.after[c := ReturnedCalls(s.pcs)]))
    case Advance(c) => if c in s.pcs then AdvanceSender(s, c) else None
    case Proceed(final) => AdvanceReactor(s, final)
  }

  function AdvanceSender(s: State, c: Call): Option<State>
    requires c in s.pcs
  {
    match s.pcs[c]
    case Entered => Some(s.(pcs := s.pcs[c := if s.phase.Connected? then Direct else WantLock]))
    case WantLock => if s.lock.Free? then Some(s.(lock := Sender(c), pcs := s.pcs[c := Locked])) else None
    case Locked =>
      if s.phase.Connected? then Some(s.(pcs := s.pcs[c := LockedConnected]))
      else Some(s.(waiting := s.waiting + [c], pcs := s.pcs[c := LockedQueued]))
    case LockedConnected => Some(s.(lock := Free, pcs := s.pcs[c := Direct]))
    case LockedQueued => Some(s.(lock := Free, pcs := s.pcs[c := Returned]))
    case Direct => Some(s.(forwarded := s.forwarded + [c], pcs := s.pcs[c := Returned]))
    case Returned => None
  }

  function AdvanceReactor(s: State, final: bool): Option<State> {
    match s.reactor
    case Resting => Some(s.(reactor := WantSwap))
    case WantSwap => if s.lock.Free? then Some(s.(lock := Reactor, reactor := SwapLocked)) else None
    case SwapLocked => Some(s.(reactor := SwapDone(s.waiting), waiting := []))
    case SwapDone(batch) => Some(s.(lock := Free, reactor := Flushing(batch)))
    case Flushing(batch) =>
      if batch != [] then Some(s.(forwarded := s.forwarded + [batch[0]], reactor := Flushing(batch[1..])))
      else if final && s.phase.Preconnection? then Some(s.(reactor := WantFinal))
      else Some(s.(reactor := Resting))
    case WantFinal => if s.lock.Free? then Some(s.(lock := Reactor, reactor := FinalLocked)) else None
    case FinalLocked => Some(s.(phase := WaitConnecting, reactor := Draining(0)))
    case Draining(done) =>
      if done < |s.waiting| then
        Some(s.(forwarded := s.forwarded + [s.waiting[done]], reactor := Draining(done + 1)))
      else Some(s.(waiting := [], phase := Connected, reactor := FinalDone))
    case FinalDone => Some(s.(lock := Free, reactor := Resting))
  }

  function Run(s: State, actions: seq<Action>): Option<State>
    decreases |actions|
  {
    if actions == [] then Some(s)
    else match Step(s, actions[0])
      case None => None
      case Some(s') => Run(s', actions[1..])
  }

  // ----- the invariant -----

  /** Requests on their way that are no longer, or not yet again, in the open queue. */
  function Held(s: State): seq<Call> {
    if s.reactor.SwapDone? || s.reactor.Flushing? then s.reactor.batch else []
  }

  function StillWaiting(s: State): seq<Call> {
    if s.reactor.Draining? && s.reactor.done <= |s.waiting| then s.waiting[s.reactor.done..] else s.waiting
  }

  /** Every request accepted so far, in the order it is or will be forwarded. */
  function Order(s: State): seq<Call> { s.forwarded + (Held(s) + StillWaiting(s)) }

  predicate Placed(pc: Pc) { pc.LockedQueued? || pc.Returned? }

  predicate HoldsLock(pc: Pc) { pc.Locked? || pc.LockedConnected? || pc.LockedQueued? }

  predicate ReactorHolds(r: ReactorPc) {
    r.SwapLocked? || r.SwapDone? || r.FinalLocked? || r.Draining? || r.FinalDone?
  }

  ghost predicate LockInv(s: State) {
    && (forall c :: c in s.pcs ==> (HoldsLock(s.pcs[c]) <==> s.lock == Sender(c)))
    && (s.lock.Sender? ==> s.lock.call in s.pcs)
    && (ReactorHolds(s.reactor) <==> s.lock == Reactor)
  }

  ghost predicate PhaseInv(s: State) {
    && (s.phase.WaitConnecting? <==> s.reactor.Draining?)
    && (s.reactor.Draining? ==> s.reactor.done <= |s.waiting|)
    && (s.reactor.FinalDone? ==> s.phase.Connected?)
    && (s.reactor.WantFinal? || s.reactor.FinalLocked? ==> s.phase.Preconnection?)
    && (s.phase.Connected? ==> s.waiting == [] && Held(s) == [])
    && (forall c :: c in s.pcs && (s.pcs[c].Direct? || s.pcs[c].LockedConnected?) ==> s.phase.Connected?)
  }

  ghost predicate PlaceInv(s: State) {
    && NoDuplicates(Order(s))
    && (forall c :: c in Order(s) ==> c in s.pcs && Placed(s.pcs[c]))
    && (forall c :: c in s.pcs && Placed(s.pcs[c]) ==> c in Order(s))
  }

  ghost predicate OrderInv(s: State) {
    && s.after.Keys == s.pcs.Keys
    && (forall a, b :: b in s.after && a in s.after[b] ==> a in s.pcs && s.pcs[a].Returned?)
    && (forall b :: b in s.after ==> b !in s.after[b])
    && Ordered(Order(s), s.after)
  }

  ghost predicate Inv(s: State) {
    LockInv(s) && PhaseInv(s) && PlaceInv(s) && OrderInv(s)
  }

  // ----- preservation -----

  /** A step either leaves the order alone or puts one new request at its end. */
  lemma ReactorKeepsOrder(s: State, final: bool)
    requires AdvanceReactor(s, final).Some?
    requires s.reactor.Draining? ==> s.reactor.done <= |s.waiting|
    ensures Order(AdvanceReactor(s, final).value) == Order(s)
  {
    if s.reactor.Flushing? && s.reactor.batch != [] {
      FlushKeepsOrder(s);
    } else if s.reactor.Draining? && s.reactor.done < |s.waiting| {
      DrainKeepsOrder(s);
    } else if s.reactor.SwapLocked? {
      assert s.waiting + [] == [] + s.waiting;
    } else if s.reactor.Draining? {
      assert s.waiting[s.reactor.done..] == [];
    }
  }

  lemma FlushKeepsOrder(s: State)
    requires s.reactor.Flushing? && s.reactor.batch != []
    ensures Order(s.(forwarded := s.forwarded + [s.reactor.batch[0]], reactor := Flushing(s.reactor.batch[1..])))
         == Order(s)
  {
    MoveFront(s.forwarded, s.reactor.batch, s.waiting);
  }

  lemma DrainKeepsOrder(s: State)
    requires s.reactor.Draining? && s.reactor.done < |s.waiting|
    ensures Order(s.(forwarded := s.forwarded + [s.waiting[s.reactor.done]], reactor := Draining(s.reactor.done + 1)))
         == Order(s)
  {
    var left := StillWaiting(s);
    assert s.waiting[s.reactor.done + 1..] == left[1..];
    MoveFront(s.forwarded, left, []);
  }

  lemma MoveFront(f: seq<Call>, q: seq<Call>, r: seq<Call>)
    requires q != []
    ensures f + [q[0]] + (q[1..] + r) == f + (q + r)
    ensures [] + q == q + [] == q && [] + q[1..] == q[1..] + [] == q[1..]
  {
  }

  lemma SenderExtendsOrder(s: State, c: Call)
    requires PhaseInv(s) && LockInv(s) && c in s.pcs && AdvanceSender(s, c).Some?
    ensures var s' := AdvanceSender(s, c).value;
            Order(s') == if !Placed(s.pcs[c]) && Placed(s'.pcs[c]) then Order(s) + [c] else Order(s)
  {
  }

  lemma SenderKeepsLock(s: State, c: Call)
    requires LockInv(s) && PhaseInv(s) && c in s.pcs && AdvanceSender(s, c).Some?
    ensures LockInv(AdvanceSender(s, c).value) && PhaseInv(AdvanceSender(s, c).value)
  {
  }

  lemma ReactorKeepsLock(s: State, final: bool)
    requires LockInv(s) && PhaseInv(s) && AdvanceReactor(s, final).Some?
    ensures LockInv(AdvanceReactor(s, final).value) && PhaseInv(AdvanceReactor(s, final).value)
  {
  }

  lemma SenderFrame(s: State, c: Call)
    requires c in s.pcs && AdvanceSender(s, c).Some?
    ensures var s' := AdvanceSender(s, c).value;
            && s'.after == s.after && !s.pcs[c].Returned?
            && s'.pcs == s.pcs[c := s'.pcs[c]]
            && (Placed(s.pcs[c]) ==> Placed(s'.pcs[c]))
  {
  }

  lemma SenderPreserves(s: State, c: Call)
    requires Inv(s) && c in s.pcs && AdvanceSender(s, c).Some?
    ensures Inv(AdvanceSender(s, c).value)
  {
    hide Order, NoDuplicates, Ordered, LockInv, PhaseInv, AdvanceSender;
    var s' := AdvanceSender(s, c).value;
    SenderKeepsLock(s, c);
    SenderFrame(s, c);
    SenderExtendsOrder(s, c);
    if !Placed(s.pcs[c]) && Placed(s'.pcs[c]) {
      AppendPlaces(Order(s), c, s.after);
    }
  }

  lemma ReactorPreserves(s: State, final: bool)
    requires Inv(s) && AdvanceReactor(s, final).Some?
    ensures Inv(AdvanceReactor(s, final).value)
  {
    hide Order, NoDuplicates, Ordered, LockInv;
    ReactorKeepsOrder(s, final);
    ReactorKeepsLock(s, final);
  }

  lemma MakePreserves(s: State, c: Call)
    requires Inv(s) && Step(s, Make(c)).Some?
    ensures Inv(Step(s, Make(c)).value)
  {
    var s' := Step(s, Make(c)).value;
    assert Order(s') == Order(s);
    AddingCallStaysOrdered(Order(s), s.after, c, ReturnedCalls(s.pcs));
  }

  lemma StepPreserves(s: State, a: Action)
    requires Inv(s) && Step(s, a).Some?
    ensures Inv(Step(s, a).value)
    ensures Order(s) <= Order(Step(s, a).value)
  {
    match a
    case Make(c) => MakePreserves(s, c);
    case Advance(c) => SenderPreserves(s, c); SenderExtendsOrder(s, c);
    case Proceed(final) => ReactorPreserves(s, final); ReactorKeepsOrder(s, final);
  }

  /** The forwarding order is settled when a request is accepted: later steps only
      ever extend it. */
  lemma {:induction false} RunPreserves(s: State, actions: seq<Action>)
    requires Inv(s) && Run(s, actions).Some?
    ensures Inv(Run(s, actions).value)
    ensures Order(s) <= Order(Run(s, actions).value)
    decreases |actions|
  {
    hide Order, Inv, Step;
    if actions != [] {
      StepPreserves(s, actions[0]);
      RunPreserves(Step(s, actions[0]).value, actions[1..]);
    }
  }

  lemma Reachable(actions: seq<Action>, s: State)
    requires Run(INITIAL, actions) == Some(s)
    ensures Inv(s)
  {
    assert Order(INITIAL) == [];
    RunPreserves(INITIAL, actions);
  }

  // ----- what callers rely on -----

  /** Once connected and with every call returned, each request has been forwarded
      exactly once; before that, none has been forwarded twice. */
  lemma ForwardedExactlyOnce(actions: seq<Action>, s: State)
    requires Run(INITIAL, actions) == Some(s)
    ensures NoDuplicates(s.forwarded) && forall c :: c in s.forwarded ==> c in s.pcs
    ensures s.phase.Connected? && (forall c :: c in s.pcs ==> s.pcs[c].Returned?)
            ==> forall c :: c in s.pcs ==> c in s.forwarded
  {
    Reachable(actions, s);
    assert forall k :: 0 <= k < |s.forwarded| ==> Order(s)[k] == s.forwarded[k];
    if s.phase.Connected? {
      assert Order(s) == s.forwarded;
    }
  }

  /** A request whose call had returned before another was made is forwarded first,
      whether it waited or went out directly. */
  lemma EarlierRequestsGoFirst(actions: seq<Action>, s: State, a: Call, b: Call, j: nat)
    requires Run(INITIAL, actions) == Some(s)
    requires b in s.after && a in s.after[b]
    requires j < |s.forwarded| && s.forwarded[j] == b
    ensures exists i :: 0 <= i < j && s.forwarded[i] == a
  {
    Reachable(actions, s);
    assert Order(s)[j] == b;
    EarlierIsAhead(Order(s), s.after, a, b, j);
    var i :| 0 <= i < j && Order(s)[i] == a;
    assert s.forwarded[i] == a;
  }

  /** Of two waiting requests, the one queued earlier is forwarded first, wherever the
      run goes. */
  lemma QueueIsFifo(prefix: seq<Action>, s: State, suffix: seq<Action>, t: State, i: nat, j: nat)
    requires Run(INITIAL, prefix) == Some(s) && Run(s, suffix) == Some(t)
    requires i < j < |s.waiting| && !s.reactor.Draining?
    requires s.waiting[j] in t.forwarded
    ensures exists k, l ::
              0 <= k < l < |t.forwarded| && t.forwarded[k] == s.waiting[i] && t.forwarded[l] == s.waiting[j]
  {
    hide LockInv, PhaseInv, Run, NoDuplicates, Order, OrderInv, StillWaiting, Held;
    Reachable(prefix, s);
    RunPreserves(s, suffix);
    var p, q := PositionOfWaiting(s, i), PositionOfWaiting(s, j);
    ForwardedIsPrefix(t);
    SettledOrder(Order(t), t.forwarded, p, q);
  }

  function PositionOfWaiting(s: State, i: nat): (p: nat)
    requires i < |s.waiting| && !s.reactor.Draining?
    ensures p == |s.forwarded| + |Held(s)| + i && p < |Order(s)| && Order(s)[p] == s.waiting[i]
  {
    |s.forwarded| + |Held(s)| + i
  }

  lemma ForwardedIsPrefix(s: State)
    ensures s.forwarded <= Order(s)
  {
  }

  lemma SettledOrder(q: seq<Call>, done: seq<Call>, i: nat, j: nat)
    requires NoDuplicates(q) && done <= q && i < j < |q| && q[j] in done
    ensures exists k, l :: 0 <= k < l < |done| && done[k] == q[i] && done[l] == q[j]
  {
    var l :| 0 <= l < |done| && done[l] == q[j];
    assert q[l] == q[j];
    assert l == j;
    assert done[i] == q[i];
  }

  /** A sender that holds the lock never finds WAITCONNECTING. */
  lemma WaitConnectingIsHidden(actions: seq<Action>, s: State, c: Call)
    requires Run(INITIAL, actions) == Some(s)
    requires s.lock == Sender(c)
    ensures !s.phase.WaitConnecting?
  {
    Reachable(actions, s);
  }
}
