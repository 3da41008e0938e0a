/** What event dispatch means, on a flat list of subscriptions with the newest first
    (the contract of libcore/src/task/EventManager.hpp). */
module EventDispatch {
  import opened Options

  type Primary = nat
  type Secondary = nat

  /** A listener node; stands for the std::list iterator to it. */
  type Token = nat

  /** 0 is SubscriptionIdClass::null(). */
  type SubscriptionId = nat
  const NULL_ID: SubscriptionId := 0

  const NUM_EVENTORDER := 3

  /** Which listener list: that of a primary id, or of a primary and a secondary id. */
  datatype Key = Key(pri: Primary, sec: Option<Secondary>, order: nat)

  datatype Subscription = Subscription(key: Key, token: Token, id: SubscriptionId)

  datatype Response = Response(delete: bool, cancel: bool)

  datatype Node = Node(token: Token, id: SubscriptionId)

  datatype History = Unhandled | Handled | Cancelled

  datatype Event = Event(pri: Primary, sec: Secondary)

  // ----- lists -----

  function ListFor(subs: seq<Subscription>, key: Key): (nodes: seq<Node>) {
    if subs == [] then []
    else (if subs[0].key == key then [Node(subs[0].token, subs[0].id)] else []) + ListFor(subs[1..], key)
  }

  /** The subscriptions left when some nodes are erased. */
  function Keep(subs: seq<Subscription>, gone: set<Token>): (r: seq<Subscription>)
    ensures forall x :: x in r <==> x in subs && x.token !in gone
  {
    if subs == [] then []
    else if subs[0].token in gone then Keep(subs[1..], gone)
    else [subs[0]] + Keep(subs[1..], gone)
  }

  function KeepNodes(nodes: seq<Node>, gone: set<Token>): (r: seq<Node>) {
    if nodes == [] then []
    else if nodes[0].token in gone then KeepNodes(nodes[1..], gone)
    else [nodes[0]] + KeepNodes(nodes[1..], gone)
  }

  function Tokens(nodes: seq<Node>): (r: seq<Token>)
    ensures |r| == |nodes| && forall i :: 0 <= i < |r| ==> r[i] == nodes[i].token
  {
    seq(|nodes|, i requires 0 <= i < |nodes| => nodes[i].token)
  }

  function Deleted(nodes: seq<Node>, resp: Token -> Response): (r: set<Token>) {
    set i | 0 <= i < |nodes| && resp(nodes[i].token).delete :: nodes[i].token
  }

  predicate AnyCancels(nodes: seq<Node>, resp: Token -> Response) {
    exists i :: 0 <= i < |nodes| && resp(nodes[i].token).cancel
  }

  // ----- dispatch -----

  datatype Outcome = Outcome(subs: seq<Subscription>, calls: seq<Token>, cancelled: bool)

  /** One stage: the primary list, then the secondary list whatever the first did. */
  function Stage(subs: seq<Subscription>, ev: Event, order: nat, resp: Token -> Response): (r: Outcome) {
    var first := ListFor(subs, Key(ev.pri, None, order));
    var second := ListFor(subs, Key(ev.pri, Some(ev.sec), order));
    Outcome(Keep(subs, Deleted(first, resp) + Deleted(second, resp)),
            Tokens(first) + Tokens(second),
            AnyCancels(first, resp) || AnyCancels(second, resp))
  }

  /** The stages from `order` on, up to and including the first that cancels. */
  function StagesFrom(subs: seq<Subscription>, ev: Event, order: nat, resp: Token -> Response): (r: Outcome)
    decreases NUM_EVENTORDER - order
  {
    if order >= NUM_EVENTORDER then Outcome(subs, [], false)
    else
      var now := Stage(subs, ev, order, resp);
      if now.cancelled then now
      else
        var later := StagesFrom(now.subs, ev, order + 1, resp);
        Outcome(later.subs, now.calls + later.calls, later.cancelled)
  }

  function HistoryOf(o: Outcome): (h: History) {
    if o.cancelled then Cancelled else if o.calls != [] then Handled else Unhandled
  }

  // ----- what dispatch guarantees, without reference to lists -----

  ghost predicate DistinctTokens(subs: seq<Subscription>) {
    forall i, j :: 0 <= i < j < |subs| ==> subs[i].token != subs[j].token
  }

  predicate Matches(x: Subscription, ev: Event) {
    x.key.pri == ev.pri && (x.key.sec == None || x.key.sec == Some(ev.sec)) && x.key.order < NUM_EVENTORDER
  }

  /** No listener of an earlier stage cancels the event. */
  ghost predicate Reached(subs: seq<Subscription>, ev: Event, order: nat, from: nat, resp: Token -> Response) {
    forall y :: y in subs && Matches(y, ev) && from <= y.key.order < order ==> !resp(y.token).cancel
  }

  lemma {:induction false} ListForMembers(subs: seq<Subscription>, key: Key, t: Token)
    ensures t in Tokens(ListFor(subs, key)) <==> exists x :: x in subs && x.key == key && x.token == t
    decreases |subs|
  {
    if subs != [] {
      ListForMembers(subs[1..], key, t);
      var rest := ListFor(subs[1..], key);
      var head := if subs[0].key == key then [Node(subs[0].token, subs[0].id)] else [];
      assert ListFor(subs, key) == head + rest;
      assert Tokens(head + rest) == Tokens(head) + Tokens(rest);
      assert forall x :: x in subs <==> x == subs[0] || x in subs[1..];
    } else {
      assert Tokens(ListFor(subs, key)) == [];
    }
  }

  lemma KeepIsDistinct(subs: seq<Subscription>, gone: set<Token>)
    requires DistinctTokens(subs)
    ensures DistinctTokens(Keep(subs, gone))
  {
    if subs != [] {
      KeepIsDistinct(subs[1..], gone);
      var rest := Keep(subs[1..], gone);
      assert forall x :: x in subs[1..] ==> x.token != subs[0].token;
      assert forall j :: 0 <= j < |rest| ==> rest[j] in subs[1..];
    }
  }

  lemma SameToken(subs: seq<Subscription>, x: Subscription, y: Subscription)
    requires DistinctTokens(subs) && x in subs && y in subs && x.token == y.token
    ensures x == y
  {
  }

  /** A subscription is in exactly the list its key names. */
  lemma InItsList(subs: seq<Subscription>, x: Subscription, key: Key)
    requires DistinctTokens(subs) && x in subs
    ensures x.token in Tokens(ListFor(subs, key)) <==> x.key == key
  {
    ListForMembers(subs, key, x.token);
    if x.token in Tokens(ListFor(subs, key)) {
      var y :| y in subs && y.key == key && y.token == x.token;
      SameToken(subs, x, y);
    }
  }

  lemma DeletedMembers(nodes: seq<Node>, resp: Token -> Response, t: Token)
    ensures t in Deleted(nodes, resp) <==> t in Tokens(nodes) && resp(t).delete
  {
    if t in Tokens(nodes) && resp(t).delete {
      var i :| 0 <= i < |Tokens(nodes)| && Tokens(nodes)[i] == t;
      assert nodes[i].token == t;
    }
  }

  predicate InStage(x: Subscription, ev: Event, order: nat) {
    x.key.pri == ev.pri && (x.key.sec == None || x.key.sec == Some(ev.sec)) && x.key.order == order
  }

  /** A stage calls exactly its own listeners and drops exactly those that ask to be. */
  lemma StageMembers(subs: seq<Subscription>, ev: Event, order: nat, resp: Token -> Response, x: Subscription)
    requires DistinctTokens(subs) && x in subs
    ensures var r := Stage(subs, ev, order, resp);
            && (x.token in r.calls <==> InStage(x, ev, order))
            && (x in r.subs <==> !(InStage(x, ev, order) && resp(x.token).delete))
  {
    var k1, k2 := Key(ev.pri, None, order), Key(ev.pri, Some(ev.sec), order);
    InItsList(subs, x, k1);
    InItsList(subs, x, k2);
    DeletedMembers(ListFor(subs, k1), resp, x.token);
    DeletedMembers(ListFor(subs, k2), resp, x.token);
  }

  lemma CancelMembers(subs: seq<Subscription>, key: Key, resp: Token -> Response)
    ensures AnyCancels(ListFor(subs, key), resp) <==> exists y :: y in subs && y.key == key && resp(y.token).cancel
  {
    var nodes := ListFor(subs, key);
    if AnyCancels(nodes, resp) {
      var i :| 0 <= i < |nodes| && resp(nodes[i].token).cancel;
      assert Tokens(nodes)[i] == nodes[i].token;
      ListForMembers(subs, key, nodes[i].token);
    }
    if y :| y in subs && y.key == key && resp(y.token).cancel {
      ListForMembers(subs, key, y.token);
      var i :| 0 <= i < |Tokens(nodes)| && Tokens(nodes)[i] == y.token;
      assert nodes[i].token == y.token;
    }
  }

  lemma StageCancels(subs: seq<Subscription>, ev: Event, order: nat, resp: Token -> Response)
    ensures Stage(subs, ev, order, resp).cancelled
        <==> exists y :: y in subs && InStage(y, ev, order) && resp(y.token).cancel
  {
    CancelMembers(subs, Key(ev.pri, None, order), resp);
    CancelMembers(subs, Key(ev.pri, Some(ev.sec), order), resp);
    forall y | y in subs && InStage(y, ev, order) && resp(y.token).cancel
      ensures y.key == Key(ev.pri, None, order) || y.key == Key(ev.pri, Some(ev.sec), order)
    {
      assert y.key == Key(y.key.pri, y.key.sec, y.key.order);
    }
  }

  /** A matching listener is called if and only if no listener of an earlier stage
      cancels the event; it is dropped if and only if it is called and asks to be. */
  lemma {:induction false} CalledUnlessCancelled(
      subs: seq<Subscription>, ev: Event, from: nat, resp: Token -> Response, x: Subscription)
    requires DistinctTokens(subs) && x in subs
    ensures var r := StagesFrom(subs, ev, from, resp);
            && (x.token in r.calls
                <==> Matches(x, ev) && from <= x.key.order && Reached(subs, ev, x.key.order, from, resp))
            && (x in r.subs <==> !(x.token in r.calls && resp(x.token).delete))
    decreases NUM_EVENTORDER - from
  {
    hide Stage;
    if from < NUM_EVENTORDER {
      var now := Stage(subs, ev, from, resp);
      StageMembers(subs, ev, from, resp, x);
      StageCancels(subs, ev, from, resp);
      if !now.cancelled {
        StageKeeps(subs, ev, from, resp);
        if x in now.subs {
          CalledUnlessCancelled(now.subs, ev, from + 1, resp, x);
          ReachedLater(subs, ev, x.key.order, from, resp);
        } else {
          NotCalledLater(now.subs, ev, from + 1, resp, x.token);
        }
      }
    }
  }

  lemma StageKeeps(subs: seq<Subscription>, ev: Event, order: nat, resp: Token -> Response)
    requires DistinctTokens(subs)
    ensures var r := Stage(subs, ev, order, resp);
            DistinctTokens(r.subs) && (forall y :: y in r.subs ==> y in subs)
    ensures var r := Stage(subs, ev, order, resp);
            forall y :: y in subs && !InStage(y, ev, order) ==> y in r.subs
  {
    KeepIsDistinct(subs, Deleted(ListFor(subs, Key(ev.pri, None, order)), resp)
                         + Deleted(ListFor(subs, Key(ev.pri, Some(ev.sec), order)), resp));
    forall y | y in subs && !InStage(y, ev, order) ensures y in Stage(subs, ev, order, resp).subs {
      StageMembers(subs, ev, order, resp, y);
    }
  }

  lemma ReachedLater(subs: seq<Subscription>, ev: Event, order: nat, from: nat, resp: Token -> Response)
    requires DistinctTokens(subs) && from < NUM_EVENTORDER && !Stage(subs, ev, from, resp).cancelled
    ensures Reached(subs, ev, order, from, resp)
        <==> Reached(Stage(subs, ev, from, resp).subs, ev, order, from + 1, resp)
  {
    hide Stage;
    StageKeeps(subs, ev, from, resp);
    StageCancels(subs, ev, from, resp);
    assert forall y :: y in subs && Matches(y, ev) && y.key.order == from ==> InStage(y, ev, from);
  }

  lemma NotCalledNow(subs: seq<Subscription>, ev: Event, order: nat, resp: Token -> Response, t: Token)
    requires forall y :: y in subs ==> y.token != t
    ensures t !in Stage(subs, ev, order, resp).calls
    ensures forall y :: y in Stage(subs, ev, order, resp).subs ==> y in subs
  {
    ListForMembers(subs, Key(ev.pri, None, order), t);
    ListForMembers(subs, Key(ev.pri, Some(ev.sec), order), t);
  }

  lemma {:induction false} NotCalledLater(
      subs: seq<Subscription>, ev: Event, from: nat, resp: Token -> Response, t: Token)
    requires forall y :: y in subs ==> y.token != t
    ensures t !in StagesFrom(subs, ev, from, resp).calls
    ensures forall y :: y in StagesFrom(subs, ev, from, resp).subs ==> y in subs
    decreases NUM_EVENTORDER - from
  {
    if from < NUM_EVENTORDER {
      hide Stage;
      var now := Stage(subs, ev, from, resp);
      NotCalledNow(subs, ev, from, resp, t);
      NotCalledLater(now.subs, ev, from + 1, resp, t);
    }
  }

  // ----- the history an event is finished with -----

  lemma {:induction false} CancelledByListener(subs: seq<Subscription>, ev: Event, from: nat, resp: Token -> Response)
    requires DistinctTokens(subs)
    ensures StagesFrom(subs, ev, from, resp).cancelled
        <==> exists x :: x in subs && Matches(x, ev) && from <= x.key.order && resp(x.token).cancel
    decreases NUM_EVENTORDER - from
  {
    hide Stage;
    if from < NUM_EVENTORDER {
      var now := Stage(subs, ev, from, resp);
      StageCancels(subs, ev, from, resp);
      StageKeeps(subs, ev, from, resp);
      if now.cancelled {
        var y :| y in subs && InStage(y, ev, from) && resp(y.token).cancel;
        assert Matches(y, ev);
      } else {
        CancelledByListener(now.subs, ev, from + 1, resp);
        forall x | x in subs && Matches(x, ev) && from <= x.key.order && resp(x.token).cancel ensures x in now.subs {
          assert !InStage(x, ev, from);
        }
      }
    }
  }

  lemma {:induction false} CallsComeFromMatches(subs: seq<Subscription>, ev: Event, resp: Token -> Response)
    requires DistinctTokens(subs) && StagesFrom(subs, ev, 0, resp).calls != []
    ensures exists x :: x in subs && Matches(x, ev)
  {
    hide StagesFrom;
    var t := StagesFrom(subs, ev, 0, resp).calls[0];
    if x :| x in subs && x.token == t {
      CalledUnlessCancelled(subs, ev, 0, resp, x);
    } else {
      NotCalledLater(subs, ev, 0, resp, t);
      assert false;
    }
  }

  /** An event counts as cancelled if and only if one of its listeners cancels it, in
      whatever stage, and as unhandled if and only if it has no listener at all. */
  lemma HistoryMeans(subs: seq<Subscription>, ev: Event, resp: Token -> Response)
    requires DistinctTokens(subs)
    ensures var h := HistoryOf(StagesFrom(subs, ev, 0, resp));
            && (h == Cancelled <==> exists x :: x in subs && Matches(x, ev) && resp(x.token).cancel)
            && (h == Unhandled <==> forall x :: x in subs ==> !Matches(x, ev))
  {
    hide StagesFrom, Matches;
    var o := StagesFrom(subs, ev, 0, resp);
    CancelledByListener(subs, ev, 0, resp);
    if o.calls != [] {
      CallsComeFromMatches(subs, ev, resp);
    } else if x :| x in subs && Matches(x, ev) {
      CalledUnlessCancelled(subs, ev, 0, resp, x);
    }
  }

  // ----- the order of calls -----

  /** x was subscribed after y. */
  ghost predicate Newer(subs: seq<Subscription>, x: Subscription, y: Subscription) {
    exists i, j :: 0 <= i < j < |subs| && subs[i] == x && subs[j] == y
  }

  /** Earlier stages first, then primary before secondary, then newest first. */
  ghost predicate Precedes(subs: seq<Subscription>, x: Subscription, y: Subscription) {
    || x.key.order < y.key.order
    || (x.key.order == y.key.order && x.key.sec == None && y.key.sec != None)
    || (x.key == y.key && Newer(subs, x, y))
  }

  lemma NewerInTail(subs: seq<Subscription>, x: Subscription, y: Subscription)
    requires subs != [] && Newer(subs[1..], x, y)
    ensures Newer(subs, x, y)
  {
    var i, j :| 0 <= i < j < |subs[1..]| && subs[1..][i] == x && subs[1..][j] == y;
    assert subs[i + 1] == x && subs[j + 1] == y;
  }

  lemma NewestIsHead(subs: seq<Subscription>, y: Subscription)
    requires subs != [] && y in subs[1..]
    ensures Newer(subs, subs[0], y)
  {
    var j :| 0 <= j < |subs[1..]| && subs[1..][j] == y;
    assert subs[j + 1] == y;
  }

  lemma {:induction false} KeepNewer(subs: seq<Subscription>, gone: set<Token>, x: Subscription, y: Subscription)
    requires Newer(Keep(subs, gone), x, y)
    ensures Newer(subs, x, y)
    decreases |subs|
  {
    var kept := Keep(subs, gone);
    var i, j :| 0 <= i < j < |kept| && kept[i] == x && kept[j] == y;
    var rest := Keep(subs[1..], gone);
    if kept == rest {
      KeepNewer(subs[1..], gone, x, y);
      NewerInTail(subs, x, y);
    } else if i == 0 {
      assert y == rest[j - 1] && y in rest;
      NewestIsHead(subs, y);
    } else {
      assert rest[i - 1] == x && rest[j - 1] == y;
      KeepNewer(subs[1..], gone, x, y);
      NewerInTail(subs, x, y);
    }
  }

  /** A listener list keeps the newest in front. */
  lemma {:induction false} ListIsNewestFirst(
      subs: seq<Subscription>, key: Key, i: nat, j: nat, x: Subscription, y: Subscription)
    requires DistinctTokens(subs) && x in subs && y in subs && i < j < |ListFor(subs, key)|
    requires ListFor(subs, key)[i].token == x.token && ListFor(subs, key)[j].token == y.token
    ensures Newer(subs, x, y)
    decreases |subs|
  {
    hide Newer;
    var nodes, rest := ListFor(subs, key), ListFor(subs[1..], key);
    if subs[0].key == key {
      assert nodes == [Node(subs[0].token, subs[0].id)] + rest;
      TailMember(subs, key, j - 1, y);
      if i == 0 {
        SameToken(subs, x, subs[0]);
        NewestIsHead(subs, y);
      } else {
        TailMember(subs, key, i - 1, x);
        ListIsNewestFirst(subs[1..], key, i - 1, j - 1, x, y);
        NewerInTail(subs, x, y);
      }
    } else {
      TailMember(subs, key, i, x);
      TailMember(subs, key, j, y);
      ListIsNewestFirst(subs[1..], key, i, j, x, y);
      NewerInTail(subs, x, y);
    }
  }

  lemma TailMember(subs: seq<Subscription>, key: Key, k: nat, z: Subscription)
    requires DistinctTokens(subs) && z in subs && k < |ListFor(subs[1..], key)|
    requires ListFor(subs[1..], key)[k].token == z.token
    ensures z in subs[1..]
  {
    assert Tokens(ListFor(subs[1..], key))[k] == z.token;
    ListForMembers(subs[1..], key, z.token);
    var y :| y in subs[1..] && y.key == key && y.token == z.token;
    SameToken(subs, y, z);
  }

  lemma StageInOrder(subs: seq<Subscription>, ev: Event, order: nat, resp: Token -> Response,
                     i: nat, j: nat, x: Subscription, y: Subscription)
    requires DistinctTokens(subs) && x in subs && y in subs
    requires i < j < |Stage(subs, ev, order, resp).calls|
    requires Stage(subs, ev, order, resp).calls[i] == x.token && Stage(subs, ev, order, resp).calls[j] == y.token
    ensures Precedes(subs, x, y)
  {
    var k1, k2 := Key(ev.pri, None, order), Key(ev.pri, Some(ev.sec), order);
    var n := |ListFor(subs, k1)|;
    var t1, t2 := Tokens(ListFor(subs, k1)), Tokens(ListFor(subs, k2));
    InItsList(subs, x, k1);
    InItsList(subs, x, k2);
    InItsList(subs, y, k1);
    InItsList(subs, y, k2);
    assert i < n ==> t1[i] == x.token;
    assert n <= i ==> t2[i - n] == x.token;
    assert j < n ==> t1[j] == y.token;
    assert n <= j ==> t2[j - n] == y.token;
    if j < n {
      ListIsNewestFirst(subs, k1, i, j, x, y);
    } else if n <= i {
      ListIsNewestFirst(subs, k2, i - n, j - n, x, y);
    }
  }

  /** Any two calls made for one event stand in the promised order. */
  lemma {:induction false} CallsInOrder(subs: seq<Subscription>, ev: Event, from: nat, resp: Token -> Response,
                                        i: nat, j: nat, x: Subscription, y: Subscription)
    requires DistinctTokens(subs) && x in subs && y in subs
    requires i < j < |StagesFrom(subs, ev, from, resp).calls|
    requires StagesFrom(subs, ev, from, resp).calls[i] == x.token
    requires StagesFrom(subs, ev, from, resp).calls[j] == y.token
    ensures Precedes(subs, x, y)
    decreases NUM_EVENTORDER - from
  {
    hide Stage;
    var now := Stage(subs, ev, from, resp);
    var n := |now.calls|;
    if j < n {
      StageInOrder(subs, ev, from, resp, i, j, x, y);
    } else {
      var later := StagesFrom(now.subs, ev, from + 1, resp);
      assert later.calls[j - n] == y.token;
      StageKeeps(subs, ev, from, resp);
      StageMembers(subs, ev, from, resp, y);
      StageMembers(subs, ev, from, resp, x);
      LaterCall(subs, ev, from, resp, y);
      if i < n {
        assert x.token in now.calls;
      } else {
        assert later.calls[i - n] == x.token;
        LaterCall(subs, ev, from, resp, x);
        CallsInOrder(now.subs, ev, from + 1, resp, i - n, j - n, x, y);
        if Newer(now.subs, x, y) {
          StageNewer(subs, ev, from, resp, x, y);
        }
      }
    }
  }

  /** Whoever is called in a later stage is still subscribed then and belongs to it. */
  lemma LaterCall(subs: seq<Subscription>, ev: Event, from: nat, resp: Token -> Response, y: Subscription)
    requires DistinctTokens(subs) && y in subs && from < NUM_EVENTORDER
    requires y.token in StagesFrom(Stage(subs, ev, from, resp).subs, ev, from + 1, resp).calls
    ensures y in Stage(subs, ev, from, resp).subs && from < y.key.order
  {
    hide Stage;
    var now := Stage(subs, ev, from, resp);
    StageKeeps(subs, ev, from, resp);
    if y !in now.subs {
      forall z | z in now.subs ensures z.token != y.token {
        if z.token == y.token {
          SameToken(subs, y, z);
        }
      }
      NotCalledLater(now.subs, ev, from + 1, resp, y.token);
      assert false;
    }
    CalledUnlessCancelled(now.subs, ev, from + 1, resp, y);
  }

  lemma StageNewer(subs: seq<Subscription>, ev: Event, order: nat, resp: Token -> Response,
                   x: Subscription, y: Subscription)
    requires Newer(Stage(subs, ev, order, resp).subs, x, y)
    ensures Newer(subs, x, y)
  {
    KeepNewer(subs, Deleted(ListFor(subs, Key(ev.pri, None, order)), resp)
                    + Deleted(ListFor(subs, Key(ev.pri, Some(ev.sec), order)), resp), x, y);
  }

  // ----- a queue of events -----

  /** An event with what each listener will answer to it. */
  datatype Firing = Firing(ev: Event, resp: Token -> Response)

  /** Events are dispatched one after another; one whose primary id has no entry is
      dropped. */
  function DispatchAll(subs: seq<Subscription>, known: set<Primary>, queue: seq<Firing>): (o: Outcome)
    decreases |queue|
  {
    if queue == [] then Outcome(subs, [], false)
    else
      var f := queue[0];
      var now := if f.ev.pri in known then StagesFrom(subs, f.ev, 0, f.resp) else Outcome(subs, [], false);
      var later := DispatchAll(now.subs, known, queue[1..]);
      Outcome(later.subs, now.calls + later.calls, now.cancelled || later.cancelled)
  }

  /** The history each event of a queue is finished with, None for a dropped one. */
  function HistoriesOf(subs: seq<Subscription>, known: set<Primary>, queue: seq<Firing>): (h: seq<Option<History>>)
    decreases |queue|
  {
    if queue == [] then []
    else
      var f := queue[0];
      if f.ev.pri in known then
        var now := StagesFrom(subs, f.ev, 0, f.resp);
        [Some(HistoryOf(now))] + HistoriesOf(now.subs, known, queue[1..])
      else [None] + HistoriesOf(subs, known, queue[1..])
  }

  lemma {:induction false} UnsubscribedIsNotCalled(
      subs: seq<Subscription>, known: set<Primary>, queue: seq<Firing>, t: Token)
    requires forall y :: y in subs ==> y.token != t
    ensures t !in DispatchAll(subs, known, queue).calls
    ensures forall y :: y in DispatchAll(subs, known, queue).subs ==> y.token != t
    decreases |queue|
  {
    if queue != [] {
      var f := queue[0];
      NotCalledLater(subs, f.ev, 0, f.resp, t);
      var now := if f.ev.pri in known then StagesFrom(subs, f.ev, 0, f.resp) else Outcome(subs, [], false);
      UnsubscribedIsNotCalled(now.subs, known, queue[1..], t);
    }
  }
}
