/** Whole runs of the event manager: subscriptions, unsubscriptions and events in any
    order (the request loop and the event loop of `temporary_processEventQueue` in
    libcore/src/task/EventManager.cpp, round after round).  The meaning of a run is given
    on the flat list of subscriptions, and the manager's maps are proved to follow it. */
module EventRuns {
  import opened Options
  import opened EventDispatch
  import opened EventManagers

  datatype Operation =
    | Subscribe(sub: Subscription)
    | Unsubscribe(id: SubscriptionId, notifyListener: bool)
    | Fire(firing: Firing)

  /** The live subscriptions, and the primary ids that were ever subscribed to. */
  datatype Flat = Flat(subs: seq<Subscription>, known: set<Primary>)

  /** Whom an operation calls, and for an event that is not dropped, its history. */
  datatype Effect = Effect(calls: seq<Token>, history: Option<History>)

  const EMPTY := Flat([], {})

  /** Nodes and ids are allocated: a new one is never one in use. */
  predicate Allowed(s: Flat, op: Operation) {
    op.Subscribe? ==>
      && op.sub.key.order < NUM_EVENTORDER
      && (forall x :: x in s.subs ==> x.token != op.sub.token)
      && (op.sub.id != NULL_ID ==> forall x :: x in s.subs ==> x.id != op.sub.id)
  }

  function WithId(subs: seq<Subscription>, id: SubscriptionId): (r: seq<Token>) {
    if subs == [] then []
    else (if subs[0].id == id != NULL_ID then [subs[0].token] else []) + WithId(subs[1..], id)
  }

  function AsSet(tokens: seq<Token>): set<Token> { set t | t in tokens }

  function Next(s: Flat, op: Operation): Flat {
    match op
    case Subscribe(sub) => Flat([sub] + s.subs, s.known + {sub.key.pri})
    case Unsubscribe(id, _) => s.(subs := Keep(s.subs, AsSet(WithId(s.subs, id))))
    case Fire(f) => if f.ev.pri in s.known then s.(subs := StagesFrom(s.subs, f.ev, 0, f.resp).subs) else s
  }

  function EffectOf(s: Flat, op: Operation): Effect {
    match op
    case Subscribe(_) => Effect([], None)
    case Unsubscribe(id, notifyListener) => Effect(if notifyListener then WithId(s.subs, id) else [], None)
    case Fire(f) =>
      if f.ev.pri in s.known then
        var o := StagesFrom(s.subs, f.ev, 0, f.resp);
        Effect(o.calls, Some(HistoryOf(o)))
      else Effect([], None)
  }

  function After(s: Flat, ops: seq<Operation>): Flat
    decreases |ops|
  {
    if ops == [] then s else After(Next(s, ops[0]), ops[1..])
  }

  function Effects(s: Flat, ops: seq<Operation>): (r: seq<Effect>)
    ensures |r| == |ops|
    decreases |ops|
  {
    if ops == [] then [] else [EffectOf(s, ops[0])] + Effects(Next(s, ops[0]), ops[1..])
  }

  predicate AllAllowed(s: Flat, ops: seq<Operation>)
    decreases |ops|
  {
    ops == [] || (Allowed(s, ops[0]) && AllAllowed(Next(s, ops[0]), ops[1..]))
  }

  // ----- what an operation does to one subscription -----

  /** Whether a live subscription is called. */
  ghost predicate IsCalled(s: Flat, op: Operation, x: Subscription) {
    match op
    case Subscribe(_) => false
    case Unsubscribe(id, notifyListener) => notifyListener && x.id == id != NULL_ID
    case Fire(f) => Matches(x, f.ev) && Reached(s.subs, f.ev, x.key.order, 0, f.resp)
  }

  /** Whether a live subscription ends. */
  ghost predicate Dismisses(s: Flat, op: Operation, x: Subscription) {
    match op
    case Subscribe(_) => false
    case Unsubscribe(id, _) => x.id == id != NULL_ID
    case Fire(f) => IsCalled(s, op, x) && f.resp(x.token).delete
  }

  ghost predicate Sane(s: Flat) {
    && DistinctTokens(s.subs)
    && (forall x :: x in s.subs ==> x.key.pri in s.known)
    && (forall x, y :: x in s.subs && y in s.subs && x.id == y.id != NULL_ID ==> x == y)
  }

  lemma {:induction false} WithIdMembers(subs: seq<Subscription>, id: SubscriptionId, t: Token)
    ensures t in WithId(subs, id) <==> exists x :: x in subs && x.id == id != NULL_ID && x.token == t
    decreases |subs|
  {
    if subs != [] {
      WithIdMembers(subs[1..], id, t);
      assert forall x :: x in subs <==> x == subs[0] || x in subs[1..];
    }
  }

  lemma {:induction false} StagesKeep(subs: seq<Subscription>, ev: Event, from: nat, resp: Token -> Response)
    requires DistinctTokens(subs)
    ensures var r := StagesFrom(subs, ev, from, resp).subs;
            DistinctTokens(r) && forall y :: y in r ==> y in subs
    decreases NUM_EVENTORDER - from
  {
    hide Stage, DistinctTokens;
    if from < NUM_EVENTORDER {
      StageKeeps(subs, ev, from, resp);
      StagesKeep(Stage(subs, ev, from, resp).subs, ev, from + 1, resp);
    }
  }

  lemma NextIsSane(s: Flat, op: Operation)
    requires Sane(s) && Allowed(s, op)
    ensures Sane(Next(s, op))
  {
    hide StagesFrom, WithId;
    match op
    case Subscribe(sub) =>
    case Unsubscribe(id, _) => KeepIsDistinct(s.subs, AsSet(WithId(s.subs, id)));
    case Fire(f) => StagesKeep(s.subs, f.ev, 0, f.resp);
  }

  lemma {:induction false} RunIsSane(s: Flat, ops: seq<Operation>)
    requires Sane(s) && AllAllowed(s, ops)
    ensures Sane(After(s, ops))
    decreases |ops|
  {
    hide Sane, Next, Allowed;
    if ops != [] {
      NextIsSane(s, ops[0]);
      RunIsSane(Next(s, ops[0]), ops[1..]);
    }
  }

  /** Exactly when an operation calls a live subscription, and when it ends it. */
  lemma EffectOnOne(s: Flat, op: Operation, x: Subscription)
    requires Sane(s) && x in s.subs
    ensures x.token in EffectOf(s, op).calls <==> IsCalled(s, op, x)
    ensures x in Next(s, op).subs <==> !Dismisses(s, op, x)
  {
    hide StagesFrom, WithId, Reached;
    match op
    case Subscribe(sub) =>
      assert ([sub] + s.subs)[1..] == s.subs;
    case Unsubscribe(id, _) =>
      WithIdMembers(s.subs, id, x.token);
      if x.token in WithId(s.subs, id) {
        var y :| y in s.subs && y.id == id != NULL_ID && y.token == x.token;
        SameToken(s.subs, x, y);
      }
    case Fire(f) =>
      CalledUnlessCancelled(s.subs, f.ev, 0, f.resp, x);
  }

  predicate Subscribes(op: Operation, t: Token) { op.Subscribe? && op.sub.token == t }

  ghost predicate Absent(s: Flat, t: Token) { forall y :: y in s.subs ==> y.token != t }

  lemma AbsentStaysAbsent(s: Flat, op: Operation, t: Token)
    requires Absent(s, t) && !Subscribes(op, t)
    ensures t !in EffectOf(s, op).calls && Absent(Next(s, op), t)
  {
    hide StagesFrom, WithId;
    match op
    case Subscribe(_) =>
    case Unsubscribe(id, _) => WithIdMembers(s.subs, id, t);
    case Fire(f) => NotCalledLater(s.subs, f.ev, 0, f.resp, t);
  }

  // ----- whole runs -----

  lemma {:induction false} AbsentIsNotCalled(s: Flat, ops: seq<Operation>, t: Token)
    requires Absent(s, t) && forall k :: 0 <= k < |ops| ==> !Subscribes(ops[k], t)
    ensures Absent(After(s, ops), t) && forall k :: 0 <= k < |ops| ==> t !in Effects(s, ops)[k].calls
    decreases |ops|
  {
    hide Absent, EffectOf, Next, Subscribes;
    if ops != [] {
      AbsentStaysAbsent(s, ops[0], t);
      AbsentIsNotCalled(Next(s, ops[0]), ops[1..], t);
    }
  }

  lemma {:induction false} RunSplits(s: Flat, ops: seq<Operation>, i: nat)
    requires i <= |ops|
    ensures After(s, ops) == After(After(s, ops[..i]), ops[i..])
    ensures Effects(s, ops) == Effects(s, ops[..i]) + Effects(After(s, ops[..i]), ops[i..])
    ensures AllAllowed(s, ops) <==> AllAllowed(s, ops[..i]) && AllAllowed(After(s, ops[..i]), ops[i..])
    decreases |ops|
  {
    hide EffectOf, Next, Allowed;
    if i == 0 {
      assert ops[..i] == [] && ops[i..] == ops;
    } else {
      RunSplits(Next(s, ops[0]), ops[1..], i - 1);
      assert ops[..i][1..] == ops[1..][..i - 1] && ops[i..] == ops[1..][i - 1..];
      assert ops[..i][0] == ops[0];
    }
  }

  /** The state in which the i-th operation of a run is carried out. */
  lemma AtOperation(ops: seq<Operation>, i: nat)
    requires AllAllowed(EMPTY, ops) && i < |ops|
    ensures var s := After(EMPTY, ops[..i]);
            && Sane(s) && Allowed(s, ops[i])
            && Effects(EMPTY, ops)[i] == EffectOf(s, ops[i])
            && forall j :: i < j < |ops| ==> Effects(EMPTY, ops)[j] == Effects(Next(s, ops[i]), ops[i + 1..])[j - i - 1]
  {
    hide EffectOf, Next, Allowed, AllAllowed, Effects, After;
    RunSplits(EMPTY, ops, i);
    RunIsSane(EMPTY, ops[..i]);
    RunContinues(After(EMPTY, ops[..i]), ops, i, Effects(EMPTY, ops[..i]));
  }

  /** Who is called, at every point of every run: exactly those who are subscribed then
      and whom the operation is for. */
  lemma CallsOfRun(ops: seq<Operation>, i: nat, t: Token)
    requires AllAllowed(EMPTY, ops) && i < |ops|
    ensures var s := After(EMPTY, ops[..i]);
            t in Effects(EMPTY, ops)[i].calls <==> exists x :: x in s.subs && x.token == t && IsCalled(s, ops[i], x)
  {
    hide EffectOf, Next, Effects, After, IsCalled;
    var s := After(EMPTY, ops[..i]);
    AtOperation(ops, i);
    if x :| x in s.subs && x.token == t {
      EffectOnOne(s, ops[i], x);
      forall y | y in s.subs && y.token == t ensures y == x {
        SameToken(s.subs, x, y);
      }
    } else {
      CalledMeansPresent(s, ops[i], t);
    }
  }

  /** In what order, at every point of every run: stage by stage, primary before secondary,
      newest first, and nobody twice for one event. */
  lemma OrderOfRun(ops: seq<Operation>, i: nat, a: nat, b: nat, x: Subscription, y: Subscription)
    requires AllAllowed(EMPTY, ops) && i < |ops| && ops[i].Fire? && a < b < |Effects(EMPTY, ops)[i].calls|
    requires x in After(EMPTY, ops[..i]).subs && x.token == Effects(EMPTY, ops)[i].calls[a]
    requires y in After(EMPTY, ops[..i]).subs && y.token == Effects(EMPTY, ops)[i].calls[b]
    ensures Precedes(After(EMPTY, ops[..i]).subs, x, y) && x != y
  {
    hide Next, Effects, After, StagesFrom, HistoryOf, AllAllowed;
    AtOperation(ops, i);
    var f := ops[i].firing;
    CallsInOrder(After(EMPTY, ops[..i]).subs, f.ev, 0, f.resp, a, b, x, y);
  }

  lemma {:induction false} KnownFromRun(s: Flat, ops: seq<Operation>, pri: Primary)
    ensures pri in After(s, ops).known <==>
              pri in s.known || exists j :: 0 <= j < |ops| && ops[j].Subscribe? && ops[j].sub.key.pri == pri
    decreases |ops|
  {
    hide StagesFrom, WithId;
    if ops != [] {
      KnownFromRun(Next(s, ops[0]), ops[1..], pri);
      assert forall j :: 1 <= j < |ops| ==> ops[j] == ops[1..][j - 1];
    }
  }

  /** The history of every event of every run: none if nobody ever subscribed to its
      primary id; cancelled if and only if a listener subscribed then cancels it; and
      unhandled if and only if it has no listener then. */
  lemma HistoriesOfRun(ops: seq<Operation>, i: nat)
    requires AllAllowed(EMPTY, ops) && i < |ops| && ops[i].Fire?
    ensures var s, ev, resp := After(EMPTY, ops[..i]), ops[i].firing.ev, ops[i].firing.resp;
            var history := Effects(EMPTY, ops)[i].history;
            && (history == None <==> forall j :: 0 <= j < i && ops[j].Subscribe? ==> ops[j].sub.key.pri != ev.pri)
            && (history == Some(Cancelled) <==> exists x :: x in s.subs && Matches(x, ev) && resp(x.token).cancel)
            && (history == Some(Unhandled) <==> ev.pri in s.known && forall x :: x in s.subs ==> !Matches(x, ev))
  {
    hide Next, Effects, After, StagesFrom, HistoryOf, AllAllowed;
    var s, ev := After(EMPTY, ops[..i]), ops[i].firing.ev;
    AtOperation(ops, i);
    HistoryMeans(s.subs, ev, ops[i].firing.resp);
    KnownFromRun(EMPTY, ops[..i], ev.pri);
    assert forall j :: 0 <= j < i ==> ops[..i][j] == ops[j];
  }

  lemma CalledMeansPresent(s: Flat, op: Operation, t: Token)
    requires Absent(s, t)
    ensures t !in EffectOf(s, op).calls
  {
    if !op.Subscribe? {
      AbsentStaysAbsent(s, op, t);
    }
  }

  /** A listener that answered DELETE_LISTENER or was unsubscribed is never called again,
      whatever is subscribed, unsubscribed and fired later, unless its node is
      subscribed anew. */
  lemma DismissedIsNeverCalledAgain(ops: seq<Operation>, i: nat, x: Subscription)
    requires AllAllowed(EMPTY, ops) && i < |ops|
    requires x in After(EMPTY, ops[..i]).subs && Dismisses(After(EMPTY, ops[..i]), ops[i], x)
    requires forall j :: i < j < |ops| ==> !Subscribes(ops[j], x.token)
    ensures forall j :: i < j < |ops| ==> x.token !in Effects(EMPTY, ops)[j].calls
  {
    hide EffectOf, Next, Effects, After, Dismisses, AllAllowed, Subscribes;
    var s := After(EMPTY, ops[..i]);
    AtOperation(ops, i);
    DismissedIsAbsent(s, ops[i], x);
    var rest := ops[i + 1..];
    assert forall k :: 0 <= k < |rest| ==> rest[k] == ops[i + 1 + k];
    AbsentIsNotCalled(Next(s, ops[i]), rest, x.token);
  }

  lemma DismissedIsAbsent(s: Flat, op: Operation, x: Subscription)
    requires Sane(s) && Allowed(s, op) && x in s.subs && Dismisses(s, op, x)
    ensures Absent(Next(s, op), x.token)
  {
    hide StagesFrom, WithId, Reached;
    EffectOnOne(s, op, x);
    if op.Fire? {
      StagesKeep(s.subs, op.firing.ev, 0, op.firing.resp);
    }
    forall y | y in Next(s, op).subs ensures y.token != x.token {
      assert y in s.subs;
      if y.token == x.token {
        SameToken(s.subs, x, y);
      }
    }
  }

  /** A subscription lives until an operation ends it, and no longer. */
  lemma {:induction false} LivesUntilDismissed(s: Flat, ops: seq<Operation>, x: Subscription)
    requires Sane(s) && AllAllowed(s, ops) && x in s.subs
    requires forall k :: 0 <= k < |ops| ==> !Subscribes(ops[k], x.token)
    ensures x in After(s, ops).subs <==> forall k :: 0 <= k < |ops| ==> !Dismisses(After(s, ops[..k]), ops[k], x)
    decreases |ops|
  {
    hide Sane, Next, Allowed, Dismisses, Subscribes, Absent;
    if ops != [] {
      var s', rest := Next(s, ops[0]), ops[1..];
      NextIsSane(s, ops[0]);
      EffectOnOne(s, ops[0], x);
      assert After(s, ops[..0]) == s;
      forall k | 0 <= k < |rest| ensures After(s', rest[..k]) == After(s, ops[..k + 1]) {
        assert ops[..k + 1][1..] == rest[..k] && ops[..k + 1][0] == ops[0];
      }
      if x in s'.subs {
        LivesUntilDismissed(s', rest, x);
        assert forall k :: 0 < k < |ops| ==> ops[k] == rest[k - 1];
      } else {
        DismissedIsAbsent(s, ops[0], x);
        AbsentIsNotCalled(s', rest, x.token);
        AbsentIsOut(After(s', rest), x);
      }
    }
  }

  lemma AbsentIsOut(s: Flat, x: Subscription)
    requires Absent(s, x.token)
    ensures x !in s.subs
  {
  }

  // ----- the manager -----

  lemma {:induction false} OneWithId(subs: seq<Subscription>, id: SubscriptionId, x: Subscription)
    requires DistinctTokens(subs) && x in subs && x.id == id != NULL_ID
    requires forall y :: y in subs && y.id == id ==> y.token == x.token
    ensures WithId(subs, id) == [x.token]
    decreases |subs|
  {
    if subs[0].id == id {
      forall y | y in subs[1..] ensures y.id != id {
        assert y.token != subs[0].token;
      }
      NoneWithId(subs[1..], id);
    } else {
      OneWithId(subs[1..], id, x);
    }
  }

  lemma {:induction false} NoneWithId(subs: seq<Subscription>, id: SubscriptionId)
    requires id == NULL_ID || forall y :: y in subs ==> y.id != id
    ensures WithId(subs, id) == []
    decreases |subs|
  {
    if subs != [] {
      NoneWithId(subs[1..], id);
    }
  }

  /** What the maps of a manager stand for. */
  ghost function FlatOf(manager: EventManager): Flat
    reads manager
  {
    Flat(manager.subs, manager.mListeners.Keys)
  }

  method DoOperation(manager: EventManager, op: Operation) returns (effect: Effect)
    requires manager.Valid() && Allowed(FlatOf(manager), op)
    modifies manager
    ensures manager.Valid() && FlatOf(manager) == Next(old(FlatOf(manager)), op)
    ensures effect == EffectOf(old(FlatOf(manager)), op)
  {
    hide StagesFrom, WithId, HistoryOf;
    match op {
      case Subscribe(sub) =>
        manager.DoSubscribeId(sub.key, sub.token, sub.id);
        effect := Effect([], None);
      case Unsubscribe(id, notifyListener) =>
        UnsubscribeEffect(manager, id);
        var notified := manager.DoUnsubscribe(id, notifyListener);
        effect := Effect(if notified.Some? then [notified.value] else [], None);
      case Fire(f) =>
        var n := |manager.calls|;
        var history := manager.ProcessEvent(f.ev, f.resp);
        effect := Effect(manager.calls[n..], history);
    }
  }

  lemma UnsubscribeEffect(manager: EventManager, id: SubscriptionId)
    requires manager.Valid()
    ensures id !in manager.mRemoveById ==>
              WithId(manager.subs, id) == [] && Keep(manager.subs, AsSet([])) == manager.subs
    ensures id in manager.mRemoveById ==>
              forall x :: x in manager.subs && x.id == id ==>
                WithId(manager.subs, id) == [x.token] && AsSet([x.token]) == {x.token}
  {
    if id in manager.mRemoveById {
      forall x | x in manager.subs && x.id == id ensures WithId(manager.subs, id) == [x.token] {
        OneWithId(manager.subs, id, x);
      }
    } else {
      NoneWithId(manager.subs, id);
      KeepNone(manager.subs);
      assert AsSet([]) == {};
    }
  }

  /** Any run of a manager, from empty: whom each operation calls and what history each
      event is finished with are those of the flat run. */
  method Run(ops: seq<Operation>) returns (effects: seq<Effect>)
    requires AllAllowed(EMPTY, ops)
    ensures effects == Effects(EMPTY, ops)
  {
    hide EffectOf, Next, Allowed, Effects, After, AllAllowed, EventManager.Valid;
    var manager := new EventManager();
    effects := [];
    assert FlatOf(manager) == EMPTY;
    RunStarts(ops);
    for i := 0 to |ops|
      invariant manager.Valid() && fresh(manager)
      invariant AllAllowed(FlatOf(manager), ops[i..])
      invariant effects + Effects(FlatOf(manager), ops[i..]) == Effects(EMPTY, ops)
    {
      RunContinues(FlatOf(manager), ops, i, effects);
      var effect := DoOperation(manager, ops[i]);
      effects := effects + [effect];
    }
    RunEnds(FlatOf(manager), ops);
  }

  lemma RunStarts(ops: seq<Operation>)
    ensures ops[0..] == ops && [] + Effects(EMPTY, ops) == Effects(EMPTY, ops)
  {
  }

  lemma RunContinues(s: Flat, ops: seq<Operation>, i: nat, done: seq<Effect>)
    requires i < |ops| && AllAllowed(s, ops[i..])
    ensures Allowed(s, ops[i]) && AllAllowed(Next(s, ops[i]), ops[i + 1..])
    ensures done + Effects(s, ops[i..]) == done + [EffectOf(s, ops[i])] + Effects(Next(s, ops[i]), ops[i + 1..])
  {
    hide EffectOf, Next, Allowed;
    assert ops[i..][0] == ops[i] && ops[i..][1..] == ops[i + 1..];
  }

  lemma RunEnds(s: Flat, ops: seq<Operation>)
    ensures Effects(s, ops[|ops|..]) == []
  {
  }
}
