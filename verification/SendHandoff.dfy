/** Who sends next on one socket: `rawSend`, `retryQueuedSend` and `finishAsyncSend`
    of libcore/src/network/ASIOSocketWrapper.cpp, as an interleaving of atomic steps
    by any number of concurrent calls.  All coordination goes through one 32-bit
    word: two flags above a count of the calls that are passing through. */
module SendHandoff {
  import opened Options
  import opened Counting
  import opened CallOrder

  const ASYNCHRONOUS_SEND_FLAG := 0x2000_0000
  const QUEUE_CHECK_FLAG := 0x4000_0000
  const WORD := 0x1_0000_0000

  predicate AsyncBit(w: nat) { w / ASYNCHRONOUS_SEND_FLAG % 2 == 1 }

  predicate CheckBit(w: nat) { w / QUEUE_CHECK_FLAG % 2 == 1 }

  /** 32-bit addition. */
  function Plus(w: nat, k: int): nat { (w + k) % WORD }

  /** Where a call is, named after what it has just done. */
  datatype Pc =
    | Entered
    | Chosen                      // incremented to 1: this call sends its own chunk
    | MustQueue                   // incremented to something else
    | Pushed                      // its chunk is on the queue
    | Retry(status: nat)          // about to test `status`, read earlier
    | Claimed                     // volunteered and incremented to 1
    | BackOff                     // volunteered in vain
    | Reread
    | Holding                     // both flags set, about to swap the queue out
    | FoundNothing
    | FoundSome(batch: seq<Call>)
    | Launch(batch: seq<Call>)    // about to call sendToWire
    | Returned

  /** The asynchronous context that sends once `sendToWire` has been called. */
  datatype Context =
    | Idle
    | Sending(batch: seq<Call>)
    | Checking
    | CheckedEmpty
    | CheckedSome(batch: seq<Call>)

  /** Who may touch the wire.  A history variable: no step reads it. */
  datatype Torch = Nobody | Caller(call: Call) | Socket

  /** `after[b]` records the calls that had returned when b was made. */
  datatype State = State(
    word: nat,
    queue: seq<Call>,
    wire: seq<Call>,
    context: Context,
    pcs: map<Call, Pc>,
    torch: Torch,
    after: map<Call, set<Call>>)

  datatype Action = Make(call: Call) | Advance(call: Call) | Transmit | Proceed

  const INITIAL := State(0, [], [], Idle, map[], Nobody, map[])

  function Active(pcs: map<Call, Pc>): set<Call> { set c | c in pcs && !pcs[c].Returned? }

  function ReturnedCalls(pcs: map<Call, Pc>): set<Call> { set c | c in pcs && pcs[c].Returned? }

  /** One atomic step; None when the action is not possible. */
  function Step(s: State, a: Action): Option<State> {
    match a
    case Make(c) =>
      if c in s.pcs || |Active(s.pcs)| + 1 >= ASYNCHRONOUS_SEND_FLAG then None
      else Some(s.(pcs := s.pcs[c := Entered], after := s.after[c := ReturnedCalls(s.pcs)]))
    case Advance(c) =>
      if c !in s.pcs || s.pcs[c].Returned? then None else Some(AdvanceCall(s, c))
    case Transmit =>
      if s.context.Sending? && s.context.batch != [] then
        Some(s.(wire := s.wire + [s.context.batch[0]], context := Sending(s.context.batch[1..])))
      else None
    case Proceed =>
      if s.context.Idle? || (s.context.Sending? && s.context.batch != []) then None else Some(AdvanceContext(s))
  }

  function AdvanceCall(s: State, c: Call): State
    requires c in s.pcs && !s.pcs[c].Returned?
  {
    match s.pcs[c]
    case Entered =>
      var w := Plus(s.word, 1);
      if w == 1 then s.(word := w, pcs := s.pcs[c := Chosen], torch := Caller(c))
      else s.(word := w, pcs := s.pcs[c := MustQueue])
    case Chosen =>
      s.(word := Plus(s.word, ASYNCHRONOUS_SEND_FLAG - 1), pcs := s.pcs[c := Launch([c])])
    case MustQueue =>
      s.(queue := s.queue + [c], pcs := s.pcs[c := Pushed])
    case Pushed =>
      var w := Plus(s.word, -1);
      s.(word := w, pcs := s.pcs[c := Retry(w)])
    case Retry(status) =>
      if AsyncBit(status) && !CheckBit(status) then s.(pcs := s.pcs[c := Returned])
      else if !AsyncBit(status) then
        var w := Plus(s.word, 1);
        if w == 1 then s.(word := w, pcs := s.pcs[c := Claimed], torch := Caller(c))
        else s.(word := w, pcs := s.pcs[c := BackOff])
      else s.(pcs := s.pcs[c := Retry(s.word)])
    case Claimed =>
      s.(word := Plus(s.word, QUEUE_CHECK_FLAG + ASYNCHRONOUS_SEND_FLAG - 1), pcs := s.pcs[c := Holding])
    case BackOff =>
      s.(word := Plus(s.word, -1), pcs := s.pcs[c := Reread])
    case Reread =>
      s.(pcs := s.pcs[c := Retry(s.word)])
    case Holding =>
      s.(queue := [], pcs := s.pcs[c := if s.queue == [] then FoundNothing else FoundSome(s.queue)])
    case FoundNothing =>
      s.(word := Plus(s.word, -(QUEUE_CHECK_FLAG + ASYNCHRONOUS_SEND_FLAG)), pcs := s.pcs[c := Returned],
         torch := Nobody)
    case FoundSome(batch) =>
      s.(word := Plus(s.word, -QUEUE_CHECK_FLAG), pcs := s.pcs[c := Launch(batch)])
    case Launch(batch) =>
      s.(context := Sending(batch), pcs := s.pcs[c := Returned], torch := Socket)
  }

  /** `finishAsyncSend`, from a completed send to the next one or to rest. */
  function AdvanceContext(s: State): State
    requires !s.context.Idle?
  {
    match s.context
    case Sending(_) => s.(word := Plus(s.word, QUEUE_CHECK_FLAG), context := Checking)
    case Checking => s.(queue := [], context := if s.queue == [] then CheckedEmpty else CheckedSome(s.queue))
    case CheckedEmpty =>
      s.(word := Plus(s.word, -(ASYNCHRONOUS_SEND_FLAG + QUEUE_CHECK_FLAG)), context := Idle, torch := Nobody)
    case CheckedSome(batch) => s.(word := Plus(s.word, -QUEUE_CHECK_FLAG), context := Sending(batch))
  }

  function Run(s: State, actions: seq<Action>): Option<State>
    decreases |actions|
  {
    if actions == [] then Some(s)
    else match Step(s, actions[0])
      case None => None
      case Some(s') => Run(s', actions[1..])
  }

  // ----- the invariant -----

  /** Calls that hold an increment of the count. */
  predicate Counts(pc: Pc) {
    pc.Chosen? || pc.MustQueue? || pc.Pushed? || pc.Claimed? || pc.BackOff?
  }

  predicate HasTorch(pc: Pc) {
    pc.Chosen? || pc.Claimed? || pc.Holding? || pc.FoundNothing? || pc.FoundSome? || pc.Launch?
  }

  predicate Placed(pc: Pc) { !pc.Entered? && !pc.Chosen? && !pc.MustQueue? }

  /** Calls that will look at the status word again before they return. */
  predicate Looping(pc: Pc) {
    || pc.Pushed? || pc.BackOff? || pc.Reread? || pc.Claimed?
    || (pc.Retry? && !(AsyncBit(pc.status) && !CheckBit(pc.status)))
  }

  function Counted(pcs: map<Call, Pc>): set<Call> { set c | c in pcs && Counts(pcs[c]) }

  predicate AsyncSet(s: State) {
    match s.torch
    case Nobody => false
    case Caller(c) => c in s.pcs && !s.pcs[c].Chosen? && !s.pcs[c].Claimed?
    case Socket => true
  }

  predicate CheckSet(s: State) {
    match s.torch
    case Nobody => false
    case Caller(c) => c in s.pcs && (s.pcs[c].Holding? || s.pcs[c].FoundNothing? || s.pcs[c].FoundSome?)
    case Socket => s.context.Checking? || s.context.CheckedEmpty? || s.context.CheckedSome?
  }

  /** The torch bearer is bound to swap the queue out again. */
  predicate WillSwap(s: State) {
    AsyncSet(s) && !s.context.CheckedEmpty? && (s.torch.Caller? ==> !s.pcs[s.torch.call].FoundNothing?)
  }

  function InFlight(s: State): seq<Call> {
    match s.torch
    case Nobody => []
    case Caller(c) =>
      if c !in s.pcs then []
      else if s.pcs[c].FoundSome? || s.pcs[c].Launch? then s.pcs[c].batch else []
    case Socket => if s.context.Sending? || s.context.CheckedSome? then s.context.batch else []
  }

  /** Every chunk handed over so far, in the order it is or will be on the wire. */
  function Order(s: State): seq<Call> { s.wire + InFlight(s) + s.queue }

  function WordOf(n: nat, a: bool, q: bool): nat {
    n + (if a then ASYNCHRONOUS_SEND_FLAG else 0) + (if q then QUEUE_CHECK_FLAG else 0)
  }

  ghost predicate WordInv(s: State) {
    && |Active(s.pcs)| < ASYNCHRONOUS_SEND_FLAG
    && s.word == WordOf(|Counted(s.pcs)|, AsyncSet(s), CheckSet(s))
  }

  /** No status a call has read shows a queue check without a send. */
  ghost predicate RetryInv(s: State) {
    forall c :: c in s.pcs && s.pcs[c].Retry? && CheckBit(s.pcs[c].status) ==> AsyncBit(s.pcs[c].status)
  }

  ghost predicate TorchInv(s: State) {
    && (forall c :: c in s.pcs ==> (HasTorch(s.pcs[c]) <==> s.torch == Caller(c)))
    && (s.torch.Caller? ==> s.torch.call in s.pcs)
    && (!s.context.Idle? <==> s.torch == Socket)
  }

  ghost predicate PlaceInv(s: State) {
    && NoDuplicates(Order(s))
    && (forall c :: c in Order(s) ==> c in s.pcs && Placed(s.pcs[c]))
    && (forall c :: c in s.pcs && Placed(s.pcs[c]) ==> c in Order(s))
  }

  ghost predicate QueueInv(s: State) {
    WillSwap(s) || forall c :: c in s.queue ==> c in s.pcs && Looping(s.pcs[c])
  }

  ghost predicate OrderInv(s: State) {
    && s.after.Keys == s.pcs.Keys
    && (forall a, b :: b in s.after && a in s.after[b] ==> a in s.pcs && s.pcs[a].Returned?)
    && (forall b :: b in s.after ==> b !in s.after[b])
    && Ordered(Order(s), s.after)
  }

  ghost predicate Inv(s: State) {
    WordInv(s) && RetryInv(s) && TorchInv(s) && PlaceInv(s) && QueueInv(s) && OrderInv(s)
  }

  // ----- the word -----

  lemma BitsOf(n: nat, a: bool, q: bool)
    requires n < ASYNCHRONOUS_SEND_FLAG
    ensures AsyncBit(WordOf(n, a, q)) == a && CheckBit(WordOf(n, a, q)) == q
  {
  }

  lemma CountedIsActive(pcs: map<Call, Pc>)
    ensures |Counted(pcs)| <= |Active(pcs)|
  {
    SubsetSize(Counted(pcs), Active(pcs));
  }

  /** The flags read off the word are exactly what the torch bearer has set. */
  lemma WordBits(s: State)
    requires WordInv(s)
    ensures AsyncBit(s.word) == AsyncSet(s) && CheckBit(s.word) == CheckSet(s)
    ensures |Counted(s.pcs)| < ASYNCHRONOUS_SEND_FLAG
  {
    CountedIsActive(s.pcs);
    BitsOf(|Counted(s.pcs)|, AsyncSet(s), CheckSet(s));
  }

  lemma CountUpdate(pcs: map<Call, Pc>, c: Call, pc: Pc)
    requires c in pcs
    ensures |Counted(pcs[c := pc])|
         == |Counted(pcs)| - (if Counts(pcs[c]) then 1 else 0) + (if Counts(pc) then 1 else 0)
  {
    var others := Counted(pcs) - {c};
    assert Counted(pcs) == if Counts(pcs[c]) then others + {c} else others;
    assert Counted(pcs[c := pc]) == if Counts(pc) then others + {c} else others;
  }

  lemma ActiveUpdate(pcs: map<Call, Pc>, c: Call, pc: Pc)
    requires c in pcs && !pcs[c].Returned?
    ensures |Active(pcs[c := pc])| <= |Active(pcs)|
  {
    SubsetSize(Active(pcs[c := pc]), Active(pcs));
  }

  /** Only a call that finds the word at zero can win the torch. */
  lemma ZeroIsFree(s: State)
    requires WordInv(s) && TorchInv(s) && Plus(s.word, 1) == 1
    ensures s.torch == Nobody && s.word == 0
  {
    WordBits(s);
    if s.torch.Caller? {
      assert s.torch.call !in Counted(s.pcs);
    }
  }

  lemma AdvancePreservesTorch(s: State, c: Call)
    requires WordInv(s) && TorchInv(s) && c in s.pcs && !s.pcs[c].Returned?
    ensures TorchInv(AdvanceCall(s, c))
  {
    if Plus(s.word, 1) == 1 {
      ZeroIsFree(s);
    }
  }

  lemma PlusIsExact(w: nat)
    ensures forall k :: 0 <= w + k < WORD ==> Plus(w, k) == w + k
  {
  }

  lemma AdvancePreservesWord(s: State, c: Call)
    requires WordInv(s) && TorchInv(s) && c in s.pcs && !s.pcs[c].Returned?
    ensures WordInv(AdvanceCall(s, c))
  {
    hide AsyncBit, CheckBit, Counted, Active, Plus;
    PlusIsExact(s.word);
    var s' := AdvanceCall(s, c);
    WordBits(s);
    CountUpdate(s.pcs, c, s'.pcs[c]);
    ActiveUpdate(s.pcs, c, s'.pcs[c]);
    if Plus(s.word, 1) == 1 {
      ZeroIsFree(s);
    }
  }

  lemma AdvancePreservesRetry(s: State, c: Call)
    requires WordInv(s) && RetryInv(s) && TorchInv(s) && c in s.pcs && !s.pcs[c].Returned?
    ensures RetryInv(AdvanceCall(s, c))
  {
    hide AsyncBit, CheckBit;
    var s' := AdvanceCall(s, c);
    WordBits(s);
    AdvancePreservesWord(s, c);
    WordBits(s');
  }

  // ----- the order of chunks -----

  predicate IsInsertion(q: seq<Call>, q': seq<Call>, k: nat, c: Call) {
    k <= |q| && q' == q[..k] + [c] + q[k..]
  }

  /** A step of a call leaves the order alone, except that a queued chunk goes to its
      end and a chosen call's chunk goes right behind what is on the wire. */
  lemma AdvanceOrder(s: State, c: Call)
    requires TorchInv(s) && WordInv(s) && c in s.pcs && !s.pcs[c].Returned?
    ensures s.pcs[c].Chosen? ==> IsInsertion(Order(s), Order(AdvanceCall(s, c)), |s.wire|, c)
    ensures s.pcs[c].MustQueue? ==> IsInsertion(Order(s), Order(AdvanceCall(s, c)), |Order(s)|, c)
    ensures !s.pcs[c].Chosen? && !s.pcs[c].MustQueue? ==> Order(AdvanceCall(s, c)) == Order(s)
  {
    hide AsyncBit, CheckBit, Counted, Active;
    var s' := AdvanceCall(s, c);
    if Plus(s.word, 1) == 1 {
      ZeroIsFree(s);
    }
    if s.pcs[c].MustQueue? {
      assert InFlight(s') == InFlight(s);
    } else if s.pcs[c].Chosen? {
      assert InFlight(s) == [] && InFlight(s') == [c];
      assert Order(s)[|s.wire|..] == s.queue;
    } else if s.pcs[c].Holding? {
      assert InFlight(s) == [] && InFlight(s') == s.queue;
    } else {
      assert InFlight(s') == InFlight(s) && s'.queue == s.queue;
    }
  }

  lemma InsertionElements(q: seq<Call>, q': seq<Call>, k: nat, c: Call)
    requires IsInsertion(q, q', k, c)
    ensures c in q' && forall x :: x in q' <==> x == c || x in q
    ensures c !in q && NoDuplicates(q) ==> NoDuplicates(q')
  {
    assert q == q[..k] + q[k..];
    assert q'[k] == c;
  }

  lemma AdvancePreservesPlace(s: State, c: Call)
    requires TorchInv(s) && WordInv(s) && PlaceInv(s) && c in s.pcs && !s.pcs[c].Returned?
    ensures PlaceInv(AdvanceCall(s, c))
  {
    hide AsyncBit, CheckBit, Counted, Active, Order;
    var s' := AdvanceCall(s, c);
    AdvanceOrder(s, c);
    assert c in Order(s) ==> Placed(s.pcs[c]);
    if s.pcs[c].Chosen? {
      InsertionElements(Order(s), Order(s'), |s.wire|, c);
    } else if s.pcs[c].MustQueue? {
      InsertionElements(Order(s), Order(s'), |Order(s)|, c);
    }
  }

  lemma AdvancePreservesQueue(s: State, c: Call)
    requires TorchInv(s) && WordInv(s) && RetryInv(s) && PlaceInv(s) && QueueInv(s)
    requires c in s.pcs && !s.pcs[c].Returned?
    ensures QueueInv(AdvanceCall(s, c))
  {
    hide AsyncBit, CheckBit, Counted, Active;
    var s' := AdvanceCall(s, c);
    AdvancePreservesWord(s, c);
    WordBits(s);
    WordBits(s');
    if Plus(s.word, 1) == 1 {
      ZeroIsFree(s);
    }
  }

  lemma InsertionStaysOrdered(q: seq<Call>, q': seq<Call>, k: nat, c: Call, after: map<Call, set<Call>>)
    requires IsInsertion(q, q', k, c) && Ordered(q, after)
    requires forall b :: b in after ==> c !in after[b]
    requires c in after ==> forall m :: k <= m < |q| ==> q[m] !in after[c]
    ensures Ordered(q', after)
  {
    forall i, j | 0 <= i < j < |q'| && q'[i] in after ensures q'[j] !in after[q'[i]] {
      var oi, oj := if i < k then i else i - 1, if j < k then j else j - 1;
      if i != k && j != k {
        assert q'[i] == q[oi] && q'[j] == q[oj];
      } else if i == k {
        assert q'[j] == q[oj];
      }
    }
  }

  lemma AdvanceFrame(s: State, c: Call)
    requires c in s.pcs && !s.pcs[c].Returned?
    ensures var s' := AdvanceCall(s, c);
            && s'.after == s.after && s'.pcs.Keys == s.pcs.Keys
            && forall d :: d in s.pcs && d != c ==> s'.pcs[d] == s.pcs[d]
  {
    hide AsyncBit, CheckBit, Plus;
  }

  /** While a call is chosen, no queued chunk belongs to a call that has returned. */
  lemma QueuedCallsAreInside(s: State, c: Call)
    requires Inv(s) && c in s.pcs && s.pcs[c].Chosen?
    ensures c in s.after && forall m :: |s.wire| <= m < |Order(s)| ==> Order(s)[m] !in s.after[c]
  {
    hide AsyncBit, CheckBit, WordInv, PlaceInv, RetryInv, Ordered;
    assert !WillSwap(s) && InFlight(s) == [];
    forall m | |s.wire| <= m < |Order(s)| ensures Order(s)[m] !in s.after[c] {
      var d := s.queue[m - |s.wire|];
      assert Order(s)[m] == d;
      assert d in s.queue && Looping(s.pcs[d]);
    }
  }

  lemma AdvancePreservesOrder(s: State, c: Call)
    requires Inv(s) && c in s.pcs && !s.pcs[c].Returned?
    ensures OrderInv(AdvanceCall(s, c))
  {
    hide AdvanceCall, Order, InFlight, WordInv, PlaceInv, RetryInv;
    var s' := AdvanceCall(s, c);
    AdvanceFrame(s, c);
    AdvanceOrder(s, c);
    if s.pcs[c].Chosen? {
      QueuedCallsAreInside(s, c);
      InsertionStaysOrdered(Order(s), Order(s'), |s.wire|, c, s.after);
    } else if s.pcs[c].MustQueue? {
      InsertionStaysOrdered(Order(s), Order(s'), |Order(s)|, c, s.after);
    }
  }

  lemma MakePreservesWord(s: State, c: Call)
    requires WordInv(s) && TorchInv(s) && Step(s, Make(c)).Some?
    ensures WordInv(Step(s, Make(c)).value)
  {
    var s' := Step(s, Make(c)).value;
    assert Counted(s'.pcs) == Counted(s.pcs);
    assert Active(s'.pcs) == Active(s.pcs) + {c};
  }

  lemma MakePreserves(s: State, c: Call)
    requires Inv(s) && Step(s, Make(c)).Some?
    ensures Inv(Step(s, Make(c)).value)
  {
    hide AsyncBit, CheckBit, Ordered, NoDuplicates, WordInv, Active, Order;
    var s' := Step(s, Make(c)).value;
    MakePreservesWord(s, c);
    assert Order(s') == Order(s) by {
      MakeOrder(s, c);
    }
    AddingCallStaysOrdered(Order(s), s.after, c, ReturnedCalls(s.pcs));
  }

  lemma MakeOrder(s: State, c: Call)
    requires TorchInv(s) && Step(s, Make(c)).Some?
    ensures Order(Step(s, Make(c)).value) == Order(s)
  {
    assert InFlight(Step(s, Make(c)).value) == InFlight(s);
  }

  lemma TransmitPreserves(s: State)
    requires Inv(s) && Step(s, Transmit).Some?
    ensures Inv(Step(s, Transmit).value)
  {
    hide AsyncBit, CheckBit, Counted, Active;
    var s' := Step(s, Transmit).value;
    assert Order(s') == Order(s);
  }

  lemma ProceedPreserves(s: State)
    requires Inv(s) && Step(s, Proceed).Some?
    ensures Inv(Step(s, Proceed).value)
  {
    hide AsyncBit, CheckBit, Counted, Active, Order, InFlight, NoDuplicates, Ordered;
    WordBits(s);
    ProceedOrder(s);
  }

  lemma ProceedOrder(s: State)
    requires TorchInv(s) && Step(s, Proceed).Some?
    ensures Order(Step(s, Proceed).value) == Order(s)
  {
    hide AsyncBit, CheckBit, Plus;
    var s' := Step(s, Proceed).value;
    assert InFlight(s') + s'.queue == InFlight(s) + s.queue;
  }

  lemma StepPreserves(s: State, a: Action)
    requires Inv(s) && Step(s, a).Some?
    ensures Inv(Step(s, a).value)
  {
    match a
    case Make(c) => MakePreserves(s, c);
    case Transmit => TransmitPreserves(s);
    case Proceed => ProceedPreserves(s);
    case Advance(c) =>
      AdvancePreservesWord(s, c);
      AdvancePreservesRetry(s, c);
      AdvancePreservesTorch(s, c);
      AdvancePreservesPlace(s, c);
      AdvancePreservesQueue(s, c);
      AdvancePreservesOrder(s, c);
  }

  lemma {:induction false} RunPreserves(s: State, actions: seq<Action>)
    requires Inv(s) && Run(s, actions).Some?
    ensures Inv(Run(s, actions).value)
    decreases |actions|
  {
    if actions != [] {
      StepPreserves(s, actions[0]);
      RunPreserves(Step(s, actions[0]).value, actions[1..]);
    }
  }

  /** Every state of every interleaving satisfies the invariant. */
  lemma Reachable(actions: seq<Action>, s: State)
    requires Run(INITIAL, actions) == Some(s)
    ensures Inv(s)
  {
    assert Counted(INITIAL.pcs) == {} && Active(INITIAL.pcs) == {};
    assert Order(INITIAL) == [];
    RunPreserves(INITIAL, actions);
  }

  // ----- what callers rely on -----

  /** With the send flag clear, a queued chunk has some call looking after it. */
  lemma BusyWhileQueued(s: State)
    requires Inv(s) && !AsyncSet(s)
    ensures s.queue != [] ==> exists c :: c in s.pcs && !s.pcs[c].Returned?
  {
    hide AsyncBit, CheckBit;
    if s.queue != [] {
      assert s.queue[0] in s.queue;
      assert Looping(s.pcs[s.queue[0]]);
    }
  }

  /** When no call is inside `rawSend` and the send flag is clear, nothing is left on
      the queue and every chunk handed in is on the wire exactly once. */
  lemma NoChunkIsStranded(actions: seq<Action>, s: State)
    requires Run(INITIAL, actions) == Some(s)
    requires (forall c :: c in s.pcs ==> s.pcs[c].Returned?) && !AsyncBit(s.word)
    ensures s.queue == [] && s.word == 0
    ensures NoDuplicates(s.wire) && forall c :: c in s.pcs <==> c in s.wire
  {
    Reachable(actions, s);
    RestIsComplete(s);
  }

  lemma RestIsComplete(s: State)
    requires Inv(s) && (forall c :: c in s.pcs ==> s.pcs[c].Returned?) && !AsyncBit(s.word)
    ensures s.queue == [] && s.word == 0
    ensures NoDuplicates(s.wire) && forall c :: c in s.pcs <==> c in s.wire
  {
    WordBits(s);
    assert Counted(s.pcs) == {};
    BusyWhileQueued(s);
    assert Order(s) == s.wire;
  }

  /** At most one party may touch the wire, the flags say which phase it is in, and the
      three assertions of the source hold wherever they are reached. */
  lemma OneSenderAtATime(actions: seq<Action>, s: State)
    requires Run(INITIAL, actions) == Some(s)
    ensures forall c, d :: c in s.pcs && d in s.pcs && HasTorch(s.pcs[c]) && HasTorch(s.pcs[d]) ==> c == d
    ensures !s.context.Idle? ==> forall c :: c in s.pcs ==> !HasTorch(s.pcs[c])
    ensures CheckBit(s.word) ==> AsyncBit(s.word)
    ensures !s.context.Idle? ==> AsyncBit(s.word)
    ensures forall c :: c in s.pcs && s.pcs[c].FoundSome? ==> AsyncBit(s.word)
    ensures forall c :: c in s.pcs && s.pcs[c].Retry? && !AsyncBit(s.pcs[c].status) ==> !CheckBit(s.pcs[c].status)
  {
    hide AsyncBit, CheckBit;
    Reachable(actions, s);
    WordBits(s);
  }

  /** If `rawSend(a)` returned before `rawSend(b)` was made, a's chunk precedes b's on
      the socket, at every point of every interleaving. */
  lemma EarlierCallsGoFirst(actions: seq<Action>, s: State, a: Call, b: Call, j: nat)
    requires Run(INITIAL, actions) == Some(s)
    requires b in s.after && a in s.after[b]
    requires j < |s.wire| && s.wire[j] == b
    ensures exists i :: 0 <= i < j && s.wire[i] == a
  {
    hide AsyncBit, CheckBit;
    Reachable(actions, s);
    assert Placed(s.pcs[a]);
    EarlierIsAhead(Order(s), s.after, a, b, j);
    var i :| 0 <= i < j && Order(s)[i] == a;
    assert s.wire[i] == a;
  }
}
