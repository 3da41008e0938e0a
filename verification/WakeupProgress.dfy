/** Every event fired gets processed: from every reachable state the calls that are there
    can return and the event thread can work off the queue and go back to sleep, without
    spurious wakeups (libcore/src/task/EventManager.cpp). */
module WakeupProgress {
  import opened Options
  import opened CallOrder
  import opened Counting
  import opened EventWakeup

  function Weight(pc: Pc): nat {
    match pc
    case Entered => 5
    case Pushed => 4
    case First => 3
    case Locked => 2
    case Notified => 1
    case Returned => 0
  }

  ghost function CallRank(s: State): nat { Total(s.pcs, Weight) }

  function AwakeRank(pending: int, queued: nat): nat { if pending == 0 then 3 else 8 + queued }

  /** How far the event thread is from sleeping, when all calls have returned. */
  function SleeperRank(s: State): nat {
    var q := |s.queue|;
    match s.sleeper
    case Awake => AwakeRank(s.pending, q)
    case Waking => AwakeRank(s.pending, q)
    case Testing => AwakeRank(s.pending, q) - 1
    case SawZero => 1
    case Waiting => 0
    case SawWork => 6 + q
    case Taking => 5 + q
    case Processing(batch, taken) => 1 + |batch| + AwakeRank(q, q)
  }

  ghost predicate AllReturned(s: State) { forall c :: c in s.pcs ==> s.pcs[c].Returned? }

  ghost predicate Quiet(s: State) { AllReturned(s) && s.sleeper.Waiting? }

  predicate OwnSteps(a: Action) { a.Advance? || a.Proceed? }

  ghost predicate StepsDown(s: State, a: Action, s': State) {
    && OwnSteps(a) && Step(s, a) == Some(s')
    && (CallRank(s') < CallRank(s) || (CallRank(s') == CallRank(s) && SleeperRank(s') < SleeperRank(s)))
    && s'.pcs.Keys == s.pcs.Keys && s.processed <= s'.processed
  }

  lemma CallSteps(s: State, c: Call) returns (s': State)
    requires c in s.pcs && !s.pcs[c].Returned? && (s.pcs[c].First? ==> s.lock.Free?)
    ensures StepsDown(s, Advance(c), s')
  {
    hide Total, SleeperRank;
    s' := AdvanceCall(s, c).value;
    TotalUpdate(s.pcs, Weight, c, s'.pcs[c]);
  }

  /** The event thread while it holds the lock, whatever the calls are doing. */
  lemma HolderSteps(s: State) returns (s': State)
    requires SleeperHolds(s.sleeper)
    ensures StepsDown(s, Proceed, s')
  {
    hide Total;
    s' := AdvanceSleeper(s).value;
  }

  lemma SleeperSteps(s: State) returns (s': State)
    requires Inv(s) && AllReturned(s) && !s.sleeper.Waiting?
    ensures StepsDown(s, Proceed, s')
  {
    hide Total, OrderInv;
    assert Uncounted(s.pcs) == {};
    s' := AdvanceSleeper(s).value;
  }

  lemma NextStep(s: State) returns (a: Action, s': State)
    requires Inv(s) && !Quiet(s)
    ensures StepsDown(s, a, s')
  {
    hide StepsDown, OrderInv, CountInv, WakeInv;
    if c :| c in s.pcs && !s.pcs[c].Returned? && !s.pcs[c].First? {
      a := Advance(c);
      s' := CallSteps(s, c);
    } else if AllReturned(s) {
      a := Proceed;
      s' := SleeperSteps(s);
    } else if s.lock.Free? {
      var c :| c in s.pcs && !s.pcs[c].Returned?;
      a := Advance(c);
      s' := CallSteps(s, c);
    } else {
      a := Proceed;
      s' := HolderSteps(s);
    }
  }

  ghost predicate OnlyOwnSteps(actions: seq<Action>) { forall i :: 0 <= i < |actions| ==> OwnSteps(actions[i]) }

  lemma {:induction false} Completes(s: State) returns (actions: seq<Action>, t: State)
    requires Inv(s)
    ensures Run(s, actions) == Some(t) && OnlyOwnSteps(actions)
    ensures Inv(t) && Quiet(t) && t.pcs.Keys == s.pcs.Keys && s.processed <= t.processed
    decreases CallRank(s), SleeperRank(s)
  {
    hide Inv, Quiet, CallRank, SleeperRank, Step, OwnSteps;
    if Quiet(s) {
      actions, t := [], s;
    } else {
      var a, s' := NextStep(s);
      StepPreserves(s, a);
      var rest;
      rest, t := Completes(s');
      actions := [a] + rest;
      assert actions[1..] == rest;
    }
  }

  /** From every reachable state, with no new calls and no spurious wakeups, every call
      can return and the event thread go back to sleep; it has then processed every
      event fired, once, behind those processed already. */
  lemma EveryEventIsProcessed(actions: seq<Action>, s: State) returns (more: seq<Action>, t: State)
    requires Run(INITIAL, actions) == Some(s)
    ensures Run(s, more) == Some(t) && OnlyOwnSteps(more) && t.pcs.Keys == s.pcs.Keys
    ensures AllReturned(t) && t.sleeper.Waiting? && t.queue == [] && t.pending == 0
    ensures s.processed <= t.processed && NoDuplicates(t.processed) && forall c :: c in s.pcs <==> c in t.processed
  {
    hide Run;
    Reachable(actions, s);
    more, t := Completes(s);
    RestIsComplete(t);
  }

  lemma RestIsComplete(t: State)
    requires Inv(t) && Quiet(t)
    ensures t.queue == [] && t.pending == 0
    ensures NoDuplicates(t.processed) && forall c :: c in t.pcs <==> c in t.processed
  {
    assert Uncounted(t.pcs) == {};
    assert Order(t) == t.processed;
  }

  /** An event can be fired at any time, and is processed. */
  lemma NewEventIsProcessed(actions: seq<Action>, s: State, c: Call) returns (more: seq<Action>, t: State)
    requires Run(INITIAL, actions) == Some(s) && c !in s.pcs
    ensures Run(s, [Make(c)] + more) == Some(t) && OnlyOwnSteps(more)
    ensures c in t.pcs && t.pcs[c].Returned? && c in t.processed && s.processed <= t.processed
  {
    hide Inv, Total;
    Reachable(actions, s);
    StepPreserves(s, Make(c));
    more, t := Completes(Step(s, Make(c)).value);
    RestIsComplete(t);
    assert ([Make(c)] + more)[1..] == more;
  }

  /** A call that finds the counter above or below zero has nothing to wait for: it returns
      with its increment, whoever holds the lock.  Only one that finds zero notifies. */
  lemma OnlyZeroNeedsTheLock(s: State, c: Call) returns (t: State)
    requires c in s.pcs && s.pcs[c].Pushed?
    ensures Run(s, [Advance(c)]) == Some(t) && t.pending == s.pending + 1 && t.lock == s.lock
    ensures t.pcs == s.pcs[c := if s.pending == 0 then First else Returned]
  {
    t := AdvanceCall(s, c).value;
    assert [Advance(c)][1..] == [];
  }
}
