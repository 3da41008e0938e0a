/** Waking the event thread: `fire` against `sleep_processEventQueue`
    (libcore/src/task/EventManager.cpp), before clean-up begins.  A firing thread
    pushes its event, counts it, and signals only if its count made the counter 1; the
    event thread sleeps while the counter is 0 and subtracts what it took only after
    processing it.  The push and the count are separate steps, so the counter can lag
    behind the queue. */
module EventWakeup {
  import opened Options
  import opened CallOrder

  /** A call of `fire`, standing for its event as well. */
  datatype Pc =
    | Entered     // about to push
    | Pushed      // about to increment
    | First       // incremented to 1: about to take the lock
    | Locked      // about to notify
    | Notified    // about to release the lock
    | Returned

  datatype Sleeper =
    | Awake                                    // about to take the lock
    | Testing                                  // holds the lock, about to read the counter
    | SawZero                                  // holds the lock, about to wait
    | SawWork                                  // holds the lock, about to release it
    | Waiting                                  // inside wait(): no lock
    | Waking                                   // woken, needs the lock back
    | Taking                                   // about to swap the queue out
    | Processing(batch: seq<Call>, taken: nat) // `taken` events were swapped out

  datatype Owner = Free | Caller(call: Call) | EventThread

  /** `processed` and `after` are histories: no step reads them. */
  datatype State = State(
    queue: seq<Call>,
    pending: int,
    lock: Owner,
    sleeper: Sleeper,
    pcs: map<Call, Pc>,
    processed: seq<Call>,
    after: map<Call, set<Call>>)

  /** `Spurious`: wait() returns without having been notified. */
  datatype Action = Make(call: Call) | Advance(call: Call) | Proceed | Spurious

  const INITIAL := State([], 0, Free, Awake, map[], [], map[])

  function ReturnedCalls(pcs: map<Call, Pc>): set<Call> { set c | c in pcs && pcs[c].Returned? }

  function Step(s: State, a: Action): Option<State> {
    match a
    case Make(c) =>
      if c in s.pcs then None
      else Some(s.(pcs := s.pcs[c := Entered], after := s.after[c := ReturnedCalls(s.pcs)]))
    case Advance(c) => if c in s.pcs then AdvanceCall(s, c) else None
    case Proceed => AdvanceSleeper(s)
    case Spurious => if s.sleeper.Waiting? then Some(s.(sleeper := Waking)) else None
  }

  function AdvanceCall(s: State, c: Call): Option<State>
    requires c in s.pcs
  {
    match s.pcs[c]
    case Entered => Some(s.(queue := s.queue + [c], pcs := s.pcs[c := Pushed]))
    case Pushed =>
      Some(s.(pending := s.pending + 1, pcs := s.pcs[c := if s.pending + 1 == 1 then First else Returned]))
    case First => if s.lock.Free? then Some(s.(lock := Caller(c), pcs := s.pcs[c := Locked])) else None
    case Locked =>
      Some(s.(sleeper := if s.sleeper.Waiting? then Waking else s.sleeper, pcs := s.pcs[c := Notified]))
    case Notified => Some(s.(lock := Free, pcs := s.pcs[c := Returned]))
    case Returned => None
  }

  function AdvanceSleeper(s: State): Option<State> {
    match s.sleeper
    case Awake => if s.lock.Free? then Some(s.(lock := EventThread, sleeper := Testing)) else None
    case Testing => Some(s.(sleeper := if s.pending == 0 then SawZero else SawWork))
    case SawZero => Some(s.(lock := Free, sleeper := Waiting))
    case SawWork => Some(s.(lock := Free, sleeper := Taking))
    case Waiting => None
    case Waking => if s.lock.Free? then Some(s.(lock := EventThread, sleeper := Testing)) else None
    case Taking => Some(s.(queue := [], sleeper := Processing(s.queue, |s.queue|)))
    case Processing(batch, taken) =>
      if batch != [] then
        Some(s.(processed := s.processed + [batch[0]], sleeper := Processing(batch[1..], taken)))
      else Some(s.(pending := s.pending - taken, sleeper := Awake))
  }

  function Run(s: State, actions: seq<Action>): Option<State>
    decreases |actions|
  {
    if actions == [] then Some(s)
    else match Step(s, actions[0])
      case None => None
      case Some(s') => Run(s', actions[1..])
  }

  // ----- the invariant -----

  /** Calls whose event is on the queue, or was, and is not counted yet. */
  function Uncounted(pcs: map<Call, Pc>): set<Call> { set c | c in pcs && pcs[c].Pushed? }

  /** Events swapped out and not yet subtracted. */
  function Taken(s: State): nat { if s.sleeper.Processing? then s.sleeper.taken else 0 }

  function Batch(s: State): seq<Call> { if s.sleeper.Processing? then s.sleeper.batch else [] }

  /** Every event pushed so far, in the order it is or will be processed. */
  function Order(s: State): seq<Call> { s.processed + (Batch(s) + s.queue) }

  ghost predicate CountInv(s: State) {
    s.pending == |s.queue| + Taken(s) - |Uncounted(s.pcs)|
  }

  predicate HoldsLock(pc: Pc) { pc.Locked? || pc.Notified? }

  predicate SleeperHolds(p: Sleeper) { p.Testing? || p.SawZero? || p.SawWork? }

  ghost predicate LockInv(s: State) {
    && (forall c :: c in s.pcs ==> (HoldsLock(s.pcs[c]) <==> s.lock == Caller(c)))
    && (s.lock.Caller? ==> s.lock.call in s.pcs)
    && (SleeperHolds(s.sleeper) <==> s.lock == EventThread)
  }

  /** A call that will notify. */
  predicate Bringing(pc: Pc) { pc.First? || pc.Locked? }

  ghost predicate WakeupOnItsWay(s: State) { exists c :: c in s.pcs && Bringing(s.pcs[c]) }

  ghost predicate WakeInv(s: State) {
    s.sleeper.SawZero? || s.sleeper.Waiting? ==> s.pending == 0 || (0 < s.pending && WakeupOnItsWay(s))
  }

  predicate Placed(pc: Pc) { !pc.Entered? }

  ghost predicate OrderInv(s: State) {
    && NoDuplicates(Order(s))
    && (forall c :: c in Order(s) <==> c in s.pcs && Placed(s.pcs[c]))
    && s.after.Keys == s.pcs.Keys
    && (forall a, b :: b in s.after && a in s.after[b] ==> a in s.pcs && s.pcs[a].Returned?)
    && (forall b :: b in s.after ==> b !in s.after[b])
    && Ordered(Order(s), s.after)
  }

  ghost predicate Inv(s: State) {
    CountInv(s) && LockInv(s) && WakeInv(s) && OrderInv(s)
  }

  // ----- preservation -----

  lemma UncountedAfter(pcs: map<Call, Pc>, c: Call, pc: Pc)
    ensures |Uncounted(pcs[c := pc])|
         == |Uncounted(pcs)| - (if c in Uncounted(pcs) then 1 else 0) + (if pc.Pushed? then 1 else 0)
  {
    var others := Uncounted(pcs) - {c};
    assert Uncounted(pcs) == if c in Uncounted(pcs) then others + {c} else others;
    assert Uncounted(pcs[c := pc]) == if pc.Pushed? then others + {c} else others;
  }

  lemma CallKeepsCount(s: State, c: Call)
    requires CountInv(s) && c in s.pcs && AdvanceCall(s, c).Some?
    ensures CountInv(AdvanceCall(s, c).value)
  {
    UncountedAfter(s.pcs, c, AdvanceCall(s, c).value.pcs[c]);
  }

  lemma CallKeepsLock(s: State, c: Call)
    requires LockInv(s) && c in s.pcs && AdvanceCall(s, c).Some?
    ensures LockInv(AdvanceCall(s, c).value)
  {
  }

  /** Nobody takes a wakeup away without delivering it, since a notifying call holds
      the lock and the event thread holds it until it waits. */
  lemma CallKeepsWake(s: State, c: Call)
    requires LockInv(s) && WakeInv(s) && c in s.pcs && AdvanceCall(s, c).Some?
    ensures WakeInv(AdvanceCall(s, c).value)
  {
    var s' := AdvanceCall(s, c).value;
    if (s'.sleeper.SawZero? || s'.sleeper.Waiting?) && s'.pending != 0 {
      if s.pending == 0 {
        assert Bringing(s'.pcs[c]);
      } else {
        var w :| w in s.pcs && Bringing(s.pcs[w]);
        assert Bringing(s'.pcs[w]);
      }
    }
  }

  lemma CallExtendsOrder(s: State, c: Call)
    requires c in s.pcs && AdvanceCall(s, c).Some?
    ensures var s' := AdvanceCall(s, c).value;
            && Order(s') == (if Placed(s.pcs[c]) then Order(s) else Order(s) + [c])
            && s'.after == s.after && !s.pcs[c].Returned?
            && s'.pcs == s.pcs[c := s'.pcs[c]] && Placed(s'.pcs[c])
  {
  }

  lemma CallKeepsOrder(s: State, c: Call)
    requires OrderInv(s) && c in s.pcs && AdvanceCall(s, c).Some?
    ensures OrderInv(AdvanceCall(s, c).value)
  {
    hide Order, NoDuplicates, Ordered, AdvanceCall;
    CallExtendsOrder(s, c);
    if !Placed(s.pcs[c]) {
      AppendPlaces(Order(s), c, s.after);
    }
  }

  lemma SleeperKeepsOrder(s: State)
    requires AdvanceSleeper(s).Some?
    ensures Order(AdvanceSleeper(s).value) == Order(s)
    ensures AdvanceSleeper(s).value.pcs == s.pcs && AdvanceSleeper(s).value.after == s.after
  {
    var s' := AdvanceSleeper(s).value;
    if s.sleeper.Processing? && s.sleeper.batch != [] {
      assert s.sleeper.batch == [s.sleeper.batch[0]] + s.sleeper.batch[1..];
    } else {
      assert Batch(s') + s'.queue == Batch(s) + s.queue;
    }
  }

  lemma SleeperPreserves(s: State)
    requires Inv(s) && AdvanceSleeper(s).Some?
    ensures Inv(AdvanceSleeper(s).value)
  {
    hide Order, NoDuplicates, Ordered, CountInv, LockInv, WakeInv, AdvanceSleeper;
    SleeperKeepsOrder(s);
    SleeperKeepsCount(s);
    SleeperKeepsLock(s);
    SleeperKeepsWake(s);
  }

  lemma SleeperKeepsCount(s: State)
    requires CountInv(s) && AdvanceSleeper(s).Some?
    ensures CountInv(AdvanceSleeper(s).value)
  {
    hide Uncounted;
  }

  lemma SleeperKeepsLock(s: State)
    requires LockInv(s) && AdvanceSleeper(s).Some?
    ensures LockInv(AdvanceSleeper(s).value)
  {
  }

  lemma SleeperKeepsWake(s: State)
    requires WakeInv(s) && AdvanceSleeper(s).Some?
    ensures WakeInv(AdvanceSleeper(s).value)
  {
  }

  lemma MakePreserves(s: State, c: Call)
    requires Inv(s) && Step(s, Make(c)).Some?
    ensures Inv(Step(s, Make(c)).value)
  {
    hide CountInv, LockInv, WakeInv, NoDuplicates, Ordered;
    MakeKeepsCount(s, c);
    MakeKeepsWake(s, c);
    assert Order(Step(s, Make(c)).value) == Order(s);
    AddingCallStaysOrdered(Order(s), s.after, c, ReturnedCalls(s.pcs));
  }

  lemma MakeKeepsCount(s: State, c: Call)
    requires CountInv(s) && Step(s, Make(c)).Some?
    ensures CountInv(Step(s, Make(c)).value)
  {
    UncountedAfter(s.pcs, c, Entered);
  }

  lemma MakeKeepsWake(s: State, c: Call)
    requires LockInv(s) && WakeInv(s) && Step(s, Make(c)).Some?
    ensures LockInv(Step(s, Make(c)).value) && WakeInv(Step(s, Make(c)).value)
  {
    var s' := Step(s, Make(c)).value;
    if (s.sleeper.SawZero? || s.sleeper.Waiting?) && s.pending != 0 {
      var w :| w in s.pcs && Bringing(s.pcs[w]);
      assert Bringing(s'.pcs[w]);
    }
  }

  lemma StepPreserves(s: State, a: Action)
    requires Inv(s) && Step(s, a).Some?
    ensures Inv(Step(s, a).value)
  {
    match a
    case Make(c) => MakePreserves(s, c);
    case Advance(c) =>
      hide AdvanceCall, CountInv, LockInv, WakeInv, OrderInv;
      CallKeepsCount(s, c);
      CallKeepsLock(s, c);
      CallKeepsWake(s, c);
      CallKeepsOrder(s, c);
    case Proceed => SleeperPreserves(s);
    case Spurious => assert Order(Step(s, a).value) == Order(s);
  }

  lemma {:induction false} RunPreserves(s: State, actions: seq<Action>)
    requires Inv(s) && Run(s, actions).Some?
    ensures Inv(Run(s, actions).value)
    decreases |actions|
  {
    hide Inv, Step;
    if actions != [] {
      StepPreserves(s, actions[0]);
      RunPreserves(Step(s, actions[0]).value, actions[1..]);
    }
  }

  lemma Reachable(actions: seq<Action>, s: State)
    requires Run(INITIAL, actions) == Some(s)
    ensures Inv(s)
  {
    assert Order(INITIAL) == [] && Uncounted(INITIAL.pcs) == {};
    RunPreserves(INITIAL, actions);
  }

  // ----- what the event thread's clients rely on -----

  predicate MidFire(pc: Pc) { !pc.Entered? && !pc.Returned? }

  /** No lost wakeup: when the event thread is blocked and every call has either not
      begun its push or returned, nothing is queued, the counter is zero, and the
      events processed are exactly those fired, once each. */
  lemma NoLostWakeup(actions: seq<Action>, s: State)
    requires Run(INITIAL, actions) == Some(s)
    requires s.sleeper.Waiting? && forall c :: c in s.pcs ==> !MidFire(s.pcs[c])
    ensures s.queue == [] && s.pending == 0
    ensures NoDuplicates(s.processed)
    ensures forall c :: c in s.processed <==> c in s.pcs && s.pcs[c].Returned?
  {
    Reachable(actions, s);
    assert Uncounted(s.pcs) == {};
    assert Order(s) == s.processed;
  }

  /** Blocked with no notification on its way, the event thread has left behind no more
      events than there are calls still about to count theirs. */
  lemma BlockedMeansUncounted(actions: seq<Action>, s: State)
    requires Run(INITIAL, actions) == Some(s)
    requires s.sleeper.Waiting? && !WakeupOnItsWay(s)
    ensures |s.queue| == |Uncounted(s.pcs)|
  {
    Reachable(actions, s);
  }

  /** An event whose `fire` had returned before another was fired is processed first. */
  lemma EarlierEventsGoFirst(actions: seq<Action>, s: State, a: Call, b: Call, j: nat)
    requires Run(INITIAL, actions) == Some(s)
    requires b in s.after && a in s.after[b]
    requires j < |s.processed| && s.processed[j] == b
    ensures exists i :: 0 <= i < j && s.processed[i] == a
  {
    Reachable(actions, s);
    assert Order(s)[j] == b;
    EarlierIsAhead(Order(s), s.after, a, b, j);
    var i :| 0 <= i < j && Order(s)[i] == a;
    assert s.processed[i] == a;
  }

  /** While an event is unprocessed there is always a step to take, without a new call
      and without counting on a spurious wakeup. */
  lemma NeverStuck(actions: seq<Action>, s: State)
    requires Run(INITIAL, actions) == Some(s)
    requires s.queue != [] || Batch(s) != []
    ensures AdvanceSleeper(s).Some? || exists c :: c in s.pcs && AdvanceCall(s, c).Some?
  {
    Reachable(actions, s);
    if s.lock.Caller? {
      assert AdvanceCall(s, s.lock.call).Some?;
    } else if s.sleeper.Waiting? {
      if WakeupOnItsWay(s) {
        var w :| w in s.pcs && Bringing(s.pcs[w]);
        assert AdvanceCall(s, w).Some?;
      } else {
        assert Uncounted(s.pcs) != {};
        var c :| c in Uncounted(s.pcs);
        assert AdvanceCall(s, c).Some?;
      }
    }
  }

  /** How far the counter can be below zero: by as many as there are calls between
      their push and their increment. */
  lemma CounterLag(actions: seq<Action>, s: State)
    requires Run(INITIAL, actions) == Some(s)
    ensures -|Uncounted(s.pcs)| <= s.pending
  {
    Reachable(actions, s);
  }

  /** It does go below zero: two calls push, one counts, and the event thread processes
      both events before the other call counts. */
  lemma CounterCanBeNegative() returns (actions: seq<Action>, s: State)
    ensures Run(INITIAL, actions) == Some(s) && s.pending == -1
  {
    hide Run;
    actions, s := TwoPushOneCounts();
    actions, s := Takes(actions, s, Proceed);
    actions, s := Takes(actions, s, Proceed);
    actions, s := Takes(actions, s, Proceed);
    actions, s := Takes(actions, s, Proceed);
    actions, s := Takes(actions, s, Proceed);
    actions, s := Takes(actions, s, Proceed);
    actions, s := Takes(actions, s, Proceed);
  }

  lemma TwoPushOneCounts() returns (xs: seq<Action>, s: State)
    ensures Run(INITIAL, xs) == Some(s)
    ensures s.queue == [0, 1] && s.pending == 1 && s.lock.Free? && s.sleeper.Awake? && s.processed == []
  {
    assert Run(INITIAL, []) == Some(INITIAL);
    hide Run;
    xs, s := Takes([], INITIAL, Make(0));
    xs, s := Takes(xs, s, Make(1));
    xs, s := Takes(xs, s, Advance(0));
    xs, s := Takes(xs, s, Advance(1));
    xs, s := Takes(xs, s, Advance(0));
  }

  lemma Takes(xs: seq<Action>, s: State, a: Action) returns (ys: seq<Action>, s': State)
    requires Run(INITIAL, xs) == Some(s) && Step(s, a).Some?
    ensures Run(INITIAL, ys) == Some(s') && Step(s, a) == Some(s')
  {
    ys, s' := xs + [a], Step(s, a).value;
    RunAppends(INITIAL, xs, a);
  }

  lemma {:induction false} RunAppends(s: State, xs: seq<Action>, a: Action)
    requires Run(s, xs).Some?
    ensures Run(s, xs + [a]) == Step(Run(s, xs).value, a)
    decreases |xs|
  {
    if xs == [] {
      assert xs + [a] == [a];
    } else {
      assert (xs + [a])[1..] == xs[1..] + [a];
      RunAppends(Step(s, xs[0]).value, xs[1..], a);
    }
  }
}
