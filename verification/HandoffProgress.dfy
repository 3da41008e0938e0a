/** The send handoff always gets its chunks out: from every reachable state the threads
    that are there can finish, without any new call (libcore/src/network/
    ASIOSocketWrapper.cpp).  A rank falls with every step of a suitable schedule. */
module HandoffProgress {
  import opened Options
  import opened CallOrder
  import opened Counting
  import opened SendHandoff

  /** How many steps a call has ahead of it, at most, if nobody gets in its way. */
  function Weight(pc: Pc): nat {
    match pc
    case Entered => 7
    case Chosen => 6
    case MustQueue => 14
    case Pushed => 8
    case Retry(status) => if !AsyncBit(status) then 5 else if CheckBit(status) then 6 else 1
    case Claimed => 4
    case BackOff => 7
    case Reread => 6
    case Holding => 3
    case FoundNothing => 1
    case FoundSome(batch) => |batch| + 5
    case Launch(batch) => |batch| + 4
    case Returned => 0
  }

  function ContextWeight(context: Context): nat {
    match context
    case Idle => 0
    case Sending(batch) => |batch| + 3
    case Checking => 2
    case CheckedEmpty => 1
    case CheckedSome(batch) => |batch| + 4
  }

  ghost function Rank(s: State): nat {
    Total(s.pcs, Weight) + ContextWeight(s.context) + 5 * |s.queue|
  }

  ghost predicate Quiet(s: State) {
    s.context.Idle? && forall c :: c in s.pcs ==> s.pcs[c].Returned?
  }

  ghost predicate StepsDown(s: State, a: Action, s': State) {
    && !a.Make? && Step(s, a) == Some(s')
    && Rank(s') < Rank(s) && s'.pcs.Keys == s.pcs.Keys && s.wire <= s'.wire
  }

  lemma ContextStep(s: State) returns (a: Action, s': State)
    requires !s.context.Idle?
    ensures StepsDown(s, a, s')
  {
    hide Total, Plus;
    a := if s.context.Sending? && s.context.batch != [] then Transmit else Proceed;
    s' := Step(s, a).value;
  }

  lemma CallStep(s: State, c: Call) returns (a: Action, s': State)
    requires c in s.pcs && !s.pcs[c].Returned?
    requires Falls(s, c)
    ensures StepsDown(s, a, s')
  {
    hide Total, Plus, AsyncBit, CheckBit, Weight, ContextWeight;
    a, s' := Advance(c), AdvanceCall(s, c);
    TotalUpdate(s.pcs, Weight, c, s'.pcs[c]);
    AdvanceFrame(s, c);
    assert s'.pcs == s.pcs[c := s'.pcs[c]];
    assert s'.wire == s.wire;
  }

  /** The step of one call lowers its own weight by more than it adds elsewhere. */
  ghost predicate Falls(s: State, c: Call)
    requires c in s.pcs && !s.pcs[c].Returned?
  {
    var s' := AdvanceCall(s, c);
    c in s'.pcs &&
    Weight(s'.pcs[c]) + ContextWeight(s'.context) + 5 * |s'.queue|
    < Weight(s.pcs[c]) + ContextWeight(s.context) + 5 * |s.queue|
  }

  lemma TorchFalls(s: State, c: Call)
    requires c in s.pcs && HasTorch(s.pcs[c]) && s.context.Idle?
    ensures Falls(s, c)
  {
    hide Plus, AsyncBit, CheckBit;
  }

  lemma CountedFalls(s: State, c: Call)
    requires Inv(s) && s.torch == Nobody && c in Counted(s.pcs)
    ensures Falls(s, c)
  {
    hide PlaceInv, QueueInv, OrderInv, RetryInv;
    WordBits(s);
    AdvancePreservesWord(s, c);
    WordBits(AdvanceCall(s, c));
    hide AsyncBit, CheckBit, Plus;
    assert !HasTorch(s.pcs[c]);
  }

  lemma FreeFalls(s: State, c: Call)
    requires RetryInv(s) && s.word == 0 && c in s.pcs
    requires s.pcs[c].Entered? || s.pcs[c].Retry? || s.pcs[c].Reread?
    ensures Falls(s, c)
  {
    assert !AsyncBit(0) && Plus(0, 1) == 1;
  }

  lemma NextStep(s: State) returns (a: Action, s': State)
    requires Inv(s) && !Quiet(s)
    ensures StepsDown(s, a, s')
  {
    hide StepsDown, Falls, AsyncBit, CheckBit, PlaceInv, QueueInv, OrderInv;
    if !s.context.Idle? {
      a, s' := ContextStep(s);
      return;
    }
    var c: Call;
    if s.torch.Caller? {
      c := s.torch.call;
      TorchFalls(s, c);
    } else if Counted(s.pcs) != {} {
      c :| c in Counted(s.pcs);
      CountedFalls(s, c);
    } else {
      WordBits(s);
      c :| c in s.pcs && !s.pcs[c].Returned?;
      assert !HasTorch(s.pcs[c]) && c !in Counted(s.pcs);
      FreeFalls(s, c);
    }
    a, s' := CallStep(s, c);
  }

  ghost predicate NoneMade(actions: seq<Action>) { forall i :: 0 <= i < |actions| ==> !actions[i].Make? }

  lemma {:induction false} Completes(s: State) returns (actions: seq<Action>, t: State)
    requires Inv(s)
    ensures Run(s, actions) == Some(t) && NoneMade(actions)
    ensures Inv(t) && Quiet(t) && t.pcs.Keys == s.pcs.Keys && s.wire <= t.wire
    decreases Rank(s)
  {
    hide Inv, Quiet, Rank, Step;
    if Quiet(s) {
      actions, t := [], s;
    } else {
      var a, s' := NextStep(s);
      StepPreserves(s, a);
      var rest;
      rest, t := Completes(s');
      actions := [a] + rest;
      assert actions[1..] == rest;
    }
  }

  /** In every reachable state, whatever the threads are up to, they can finish by
      themselves: then every chunk handed in is on the wire, once, behind what was there
      already, and the status word is back at zero. */
  lemma EveryChunkGetsOut(actions: seq<Action>, s: State) returns (more: seq<Action>, t: State)
    requires Run(INITIAL, actions) == Some(s)
    ensures Run(s, more) == Some(t) && NoneMade(more) && t.pcs.Keys == s.pcs.Keys
    ensures t.context.Idle? && t.queue == [] && t.word == 0 && forall c :: c in t.pcs ==> t.pcs[c].Returned?
    ensures s.wire <= t.wire && NoDuplicates(t.wire) && forall c :: c in s.pcs <==> c in t.wire
  {
    hide Run;
    Reachable(actions, s);
    more, t := Completes(s);
    AtRest(t);
    RestIsComplete(t);
  }

  lemma AtRest(s: State)
    requires Inv(s) && Quiet(s)
    ensures !AsyncBit(s.word)
  {
    hide AsyncBit, CheckBit, PlaceInv, QueueInv, OrderInv, RetryInv;
    WordBits(s);
  }

  /** A new call can be made at any time, up to the capacity of the counter, and its
      chunk gets out. */
  lemma NewCallGetsOut(actions: seq<Action>, s: State, c: Call) returns (more: seq<Action>, t: State)
    requires Run(INITIAL, actions) == Some(s) && c !in s.pcs && |Active(s.pcs)| + 1 < ASYNCHRONOUS_SEND_FLAG
    ensures Run(s, [Make(c)] + more) == Some(t) && NoneMade(more)
    ensures c in t.pcs && t.pcs[c].Returned? && c in t.wire && s.wire <= t.wire
  {
    Reachable(actions, s);
    var s' := Step(s, Make(c)).value;
    StepPreserves(s, Make(c));
    more, t := Completes(s');
    AtRest(t);
    RestIsComplete(t);
    assert ([Make(c)] + more)[1..] == more;
  }

  /** No step is idle, except that a call in `retryQueuedSend` re-reads an unchanged
      status word, and it does so only while someone is checking the queue. */
  lemma WaitsOnlyForQueueCheck(actions: seq<Action>, s: State, c: Call)
    requires Run(INITIAL, actions) == Some(s) && c in s.pcs && !s.pcs[c].Returned?
    ensures AdvanceCall(s, c) == s <==> s.pcs[c] == Retry(s.word) && CheckBit(s.word)
  {
    hide Run, AsyncBit, CheckBit, WordInv, PlaceInv, QueueInv, OrderInv, TorchInv, Plus;
    Reachable(actions, s);
  }
}
