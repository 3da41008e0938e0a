/** The event manager's own data structures (libcore/src/task/EventManager.cpp): listener
    lists in two levels of maps, and an index for unsubscribing.  They are proved to carry
    out EventDispatch on the flat list of subscriptions. */
module EventManagers {
  import opened Options
  import opened EventDispatch

  /** PartiallyOrderedListenerList: one list per stage. */
  type Stages = s: seq<seq<Node>> | |s| == NUM_EVENTORDER witness [[], [], []]

  const NO_LISTENERS: Stages := [[], [], []]

  datatype PrimaryInfo = PrimaryInfo(first: Stages, second: map<Secondary, Stages>)

  type PrimaryMap = map<Primary, PrimaryInfo>

  /** EventSubscriptionInfo: where a listener with an id sits. */
  datatype Place = Place(key: Key, token: Token)

  // ----- the two-level map -----

  predicate HasSecondary(m: PrimaryMap, pri: Primary, sec: Secondary) {
    pri in m && sec in m[pri].second
  }

  /** Whether the list a key names exists. */
  predicate HasList(m: PrimaryMap, key: Key) {
    && key.order < NUM_EVENTORDER && key.pri in m
    && (key.sec.Some? ==> key.sec.value in m[key.pri].second)
  }

  function GetList(m: PrimaryMap, key: Key): (list: seq<Node>) {
    if !HasList(m, key) then []
    else match key.sec
      case None => m[key.pri].first[key.order]
      case Some(sec) => m[key.pri].second[sec][key.order]
  }

  function SetList(m: PrimaryMap, key: Key, list: seq<Node>): (m': PrimaryMap)
    requires HasList(m, key)
  {
    var info := m[key.pri];
    match key.sec
    case None => m[key.pri := info.(first := info.first[key.order := list])]
    case Some(sec) => m[key.pri := info.(second := info.second[sec := info.second[sec][key.order := list]])]
  }

  lemma SetListGet(m: PrimaryMap, key: Key, list: seq<Node>, k: Key)
    requires HasList(m, key)
    ensures GetList(SetList(m, key, list), k) == if k == key then list else GetList(m, k)
    ensures HasList(SetList(m, key, list), k) <==> HasList(m, k)
  {
  }

  /** Every secondary entry, except perhaps that of one event, has some listener. */
  ghost predicate TidyExcept(m: PrimaryMap, pri: Primary, sec: Secondary) {
    forall p: Primary, s: Secondary :: HasSecondary(m, p, s) && (p, s) != (pri, sec) ==> m[p].second[s] != NO_LISTENERS
  }

  ghost predicate Tidy(m: PrimaryMap) {
    forall p: Primary, s: Secondary :: HasSecondary(m, p, s) ==> m[p].second[s] != NO_LISTENERS
  }

  // ----- the refinement relation -----

  ghost predicate ListsAgree(m: PrimaryMap, subs: seq<Subscription>) {
    forall k: Key :: GetList(m, k) == ListFor(subs, k)
  }

  /** The index holds exactly the live listeners that have an id. */
  ghost predicate IndexAgrees(index: map<SubscriptionId, Place>, subs: seq<Subscription>) {
    && (forall x :: x in subs && x.id != NULL_ID ==> x.id in index && index[x.id] == Place(x.key, x.token))
    && (forall id :: id in index ==> id != NULL_ID && exists x :: x in subs && x.id == id)
  }

  // ----- lists under erasure -----

  lemma {:induction false} ListForKeep(subs: seq<Subscription>, gone: set<Token>, key: Key)
    ensures ListFor(Keep(subs, gone), key) == KeepNodes(ListFor(subs, key), gone)
    decreases |subs|
  {
    if subs != [] {
      ListForKeep(subs[1..], gone, key);
      var rest := ListFor(subs[1..], key);
      if subs[0].key == key {
        assert ([Node(subs[0].token, subs[0].id)] + rest)[1..] == rest;
      } else {
        assert ListFor(subs, key) == rest;
      }
      if subs[0].token !in gone {
        assert ([subs[0]] + Keep(subs[1..], gone))[1..] == Keep(subs[1..], gone);
      }
    }
  }

  lemma {:induction false} KeepNodesAbsent(nodes: seq<Node>, gone: set<Token>)
    requires forall i :: 0 <= i < |nodes| ==> nodes[i].token !in gone
    ensures KeepNodes(nodes, gone) == nodes
    decreases |nodes|
  {
    if nodes != [] {
      KeepNodesAbsent(nodes[1..], gone);
    }
  }

  lemma {:induction false} KeepTwice(subs: seq<Subscription>, a: set<Token>, b: set<Token>)
    ensures Keep(Keep(subs, a), b) == Keep(subs, a + b)
    decreases |subs|
  {
    if subs != [] {
      KeepTwice(subs[1..], a, b);
      var rest := Keep(subs[1..], a);
      if subs[0].token !in a {
        assert ([subs[0]] + rest)[1..] == rest;
      }
    }
  }

  lemma {:induction false} KeepNone(subs: seq<Subscription>)
    ensures Keep(subs, {}) == subs
    decreases |subs|
  {
    if subs != [] {
      KeepNone(subs[1..]);
    }
  }

  /** A subscribed listener's token is in no other list. */
  lemma OtherListsUntouched(subs: seq<Subscription>, x: Subscription, k: Key)
    requires DistinctTokens(subs) && x in subs && k != x.key
    ensures KeepNodes(ListFor(subs, k), {x.token}) == ListFor(subs, k)
  {
    InItsList(subs, x, k);
    var nodes := ListFor(subs, k);
    assert forall i :: 0 <= i < |nodes| ==> Tokens(nodes)[i] == nodes[i].token;
    KeepNodesAbsent(nodes, {x.token});
  }

  class EventManager {
    var mListeners: PrimaryMap
    var mRemoveById: map<SubscriptionId, Place>
    /** Every listener call made, in order. */
    var calls: seq<Token>
    /** The live subscriptions, newest first. */
    ghost var subs: seq<Subscription>

    /** The maps carry exactly the subscriptions. */
    ghost predicate Refines()
      reads this
    {
      DistinctTokens(subs) && ListsAgree(mListeners, subs) && IndexAgrees(mRemoveById, subs)
    }

    ghost predicate Valid()
      reads this
    {
      Refines() && Tidy(mListeners)
    }

    constructor ()
      ensures Valid() && subs == [] && calls == [] && mListeners == map[] && mRemoveById == map[]
    {
      mListeners, mRemoveById, calls, subs := map[], map[], [], [];
    }

    /** `doSubscribeId`; `token` is the node about to be allocated, `id` was allocated by
        SubscriptionIdClass and is not in use. */
    method DoSubscribeId(key: Key, token: Token, id: SubscriptionId)
      requires Valid() && key.order < NUM_EVENTORDER
      requires forall x :: x in subs ==> x.token != token
      requires id == NULL_ID || id !in mRemoveById
      modifies this`mListeners, this`mRemoveById, this`subs
      ensures Valid() && subs == [Subscription(key, token, id)] + old(subs)
      ensures mListeners.Keys == old(mListeners.Keys) + {key.pri}
    {
      hide SetList, GetList, Tidy, TidyExcept, IndexAgrees;
      InsertIds(key);
      var list := GetList(mListeners, key);
      ghost var m := mListeners;
      mListeners := SetList(mListeners, key, [Node(token, id)] + list);
      if id != NULL_ID {
        mRemoveById := mRemoveById[id := Place(key, token)];
      }
      AddingAgrees(m, subs, Subscription(key, token, id));
      AddingIndexes(old(mRemoveById), subs, Subscription(key, token, id));
      subs := [Subscription(key, token, id)] + subs;
      TidyAfterAdding(m, key, [Node(token, id)] + list);
      SetListShape(m, key, [Node(token, id)] + list);
    }

    /** `insertPriId` and `insertSecId`: create what the key needs, empty. */
    method InsertIds(key: Key)
      requires key.order < NUM_EVENTORDER && Tidy(mListeners)
      modifies this`mListeners
      ensures HasList(mListeners, key) && mListeners.Keys == old(mListeners.Keys) + {key.pri}
      ensures forall k: Key :: GetList(mListeners, k) == old(GetList(mListeners, k))
      ensures if key.sec.Some? then TidyExcept(mListeners, key.pri, key.sec.value) else Tidy(mListeners)
    {
      if key.pri !in mListeners {
        mListeners := mListeners[key.pri := PrimaryInfo(NO_LISTENERS, map[])];
      }
      if key.sec.Some? {
        var info := mListeners[key.pri];
        if key.sec.value !in info.second {
          mListeners := mListeners[key.pri := info.(second := info.second[key.sec.value := NO_LISTENERS])];
        }
      }
    }

    /** Takes a node out of its list and out of the index: the list->erase and
        mRemoveById.erase that unsubscribing and DELETE_LISTENER have in common. */
    method RemoveListener(key: Key, node: Node)
      requires Refines() && Subscription(key, node.token, node.id) in subs
      modifies this`mListeners, this`mRemoveById, this`subs
      ensures Refines() && subs == Keep(old(subs), {node.token})
      ensures SameShape(old(mListeners), mListeners, key)
      ensures mRemoveById == old(mRemoveById) - (if node.id == NULL_ID then {} else {node.id})
    {
      hide DistinctTokens, ListsAgree, IndexAgrees, SameShape, Keep, SetList;
      ghost var x := Subscription(key, node.token, node.id);
      ErasingAgrees(mListeners, subs, x);
      IndexAfterErasing(mRemoveById, subs, x);
      KeepIsDistinct(subs, {node.token});
      mListeners := SetList(mListeners, key, KeepNodes(GetList(mListeners, key), {node.token}));
      if node.id != NULL_ID {
        mRemoveById := mRemoveById - {node.id};
      }
      subs := Keep(subs, {node.token});
    }

    /** `cleanUp`: drops a secondary entry whose lists are all empty. */
    method CleanUp(pri: Primary, sec: Secondary) returns (isEmpty: bool)
      requires Refines() && HasSecondary(mListeners, pri, sec) && TidyExcept(mListeners, pri, sec)
      modifies this`mListeners
      ensures Valid() && mListeners.Keys == old(mListeners.Keys)
      ensures isEmpty <==> !HasSecondary(mListeners, pri, sec)
    {
      var info := mListeners[pri];
      isEmpty := true;
      for i := 0 to NUM_EVENTORDER
        invariant isEmpty <==> forall j :: 0 <= j < i ==> info.second[sec][j] == []
      {
        isEmpty := isEmpty && info.second[sec][i] == [];
      }
      if isEmpty {
        assert info.second[sec] == NO_LISTENERS;
        ghost var m := mListeners;
        mListeners := mListeners[pri := info.(second := info.second - {sec})];
        forall k: Key ensures GetList(mListeners, k) == GetList(m, k) {
          assert k.sec == Some(sec) && k.pri == pri && k.order < NUM_EVENTORDER ==> GetList(m, k) == [];
        }
      }
    }

    /** `doUnsubscribe`; `notified` is the listener called with a null event, if any. */
    method DoUnsubscribe(id: SubscriptionId, notifyListener: bool) returns (notified: Option<Token>)
      requires Valid()
      modifies this`mListeners, this`mRemoveById, this`subs
      ensures Valid() && mListeners.Keys == old(mListeners.Keys)
      ensures id !in old(mRemoveById) ==> subs == old(subs) && notified == None
      ensures id in old(mRemoveById) ==>
                && (exists x :: x in old(subs) && x.id == id && subs == Keep(old(subs), {x.token})
                                && notified == if notifyListener then Some(x.token) else None)
                && id !in mRemoveById
    {
      notified := None;
      if id in mRemoveById {
        var place := mRemoveById[id];
        ghost var x :| x in subs && x.id == id;
        assert x == Subscription(place.key, place.token, id);
        if notifyListener {
          notified := Some(place.token);
        }
        ErasingAgrees(mListeners, subs, x);
        RemoveAndCleanUp(place, id);
      }
    }

    method RemoveAndCleanUp(place: Place, id: SubscriptionId)
      requires Valid() && id != NULL_ID && Subscription(place.key, place.token, id) in subs
      requires HasList(mListeners, place.key)
      modifies this`mListeners, this`mRemoveById, this`subs
      ensures Valid() && subs == Keep(old(subs), {place.token})
      ensures mListeners.Keys == old(mListeners.Keys) && mRemoveById == old(mRemoveById) - {id}
    {
      hide DistinctTokens, ListsAgree, IndexAgrees, Keep;
      ghost var m := mListeners;
      RemoveListener(place.key, Node(place.token, id));
      match place.key.sec {
        case None =>
          ShapeKeepsTidy(m, mListeners, place.key, place.key.pri, 0);
        case Some(sec) =>
          ShapeKeepsTidy(m, mListeners, place.key, place.key.pri, sec);
          // The assertion in the source: the secondary entry is found.
          assert HasSecondary(m, place.key.pri, sec);
          assert sec in mListeners[place.key.pri].second;
          var isEmpty := CleanUp(place.key.pri, sec);
      }
    }

    /** `callAllListeners`: each listener is called once; those that ask for it are
        erased on the way. */
    method CallAllListeners(key: Key, resp: Token -> Response) returns (cancel: bool)
      requires Refines()
      modifies this
      ensures Refines() && SameShape(old(mListeners), mListeners, key)
      ensures subs == Keep(old(subs), Deleted(ListFor(old(subs), key), resp))
      ensures calls == old(calls) + Tokens(ListFor(old(subs), key))
      ensures cancel == AnyCancels(ListFor(old(subs), key), resp)
    {
      hide ListsAgree, IndexAgrees, SameShape, Keep, DistinctTokens, ListFor, GetList;
      var list := GetList(mListeners, key);
      assert list == ListFor(subs, key) by {
        ListIsCurrent(key);
      }
      ghost var m, c := mListeners, calls;
      cancel := false;
      LoopStarts(list, subs, resp, m, key);
      var i := 0;
      while i < |list|
        invariant 0 <= i <= |list|
        invariant Refines() && SameShape(m, mListeners, key)
        invariant subs == Keep(old(subs), Deleted(list[..i], resp))
        invariant calls == c + Tokens(list[..i])
        invariant cancel == AnyCancels(list[..i], resp)
        decreases |list| - i
      {
        var node := list[i];
        calls := calls + [node.token];
        LoopStep(list, old(subs), resp, i, key);
        if resp(node.token).delete {
          ghost var m' := mListeners;
          RemoveListener(key, node);
          ShapeIsTransitive(m, m', mListeners, key);
        }
        if resp(node.token).cancel {
          cancel := true;
        }
        i := i + 1;
      }
      assert list[..i] == list;
    }

    /** Whoever is subscribed has an entry for the primary id. */
    lemma NobodyMatches(ev: Event)
      requires Refines() && ev.pri !in mListeners
      ensures forall x :: x in subs ==> !Matches(x, ev)
    {
      hide DistinctTokens, IndexAgrees;
      forall x | x in subs ensures !Matches(x, ev) {
        ListForMembers(subs, x.key, x.token);
        assert GetList(mListeners, x.key) == ListFor(subs, x.key);
      }
    }

    lemma ListIsCurrent(key: Key)
      requires Refines()
      ensures GetList(mListeners, key) == ListFor(subs, key)
    {
    }

    /** The dispatch loop of `temporary_processEventQueue` for one event.  None: there is
        no entry for the primary id and the event is dropped without a history. */
    method ProcessEvent(ev: Event, resp: Token -> Response) returns (history: Option<History>)
      requires Valid()
      modifies this
      ensures Valid() && mListeners.Keys == old(mListeners.Keys)
      ensures ev.pri !in mListeners ==> history == None && subs == old(subs) && calls == old(calls)
      ensures ev.pri in mListeners ==>
                var o := StagesFrom(old(subs), ev, 0, resp);
                history == Some(HistoryOf(o)) && subs == o.subs && calls == old(calls) + o.calls
      ensures history == Some(Cancelled) <==>
                exists x :: x in old(subs) && Matches(x, ev) && resp(x.token).cancel
      ensures history == Some(Handled) <==>
                && (exists x :: x in old(subs) && Matches(x, ev))
                && forall x :: x in old(subs) && Matches(x, ev) ==> !resp(x.token).cancel
    {
      HistoryMeans(subs, ev, resp);
      if ev.pri !in mListeners {
        NobodyMatches(ev);
        return None;
      }
      hide DistinctTokens, ListsAgree, IndexAgrees, SameShape, StagesFrom;
      ghost var m := mListeners;
      var cancel, handled := RunStages(ev, resp);
      KeysOfShape(m, mListeners, Key(ev.pri, Some(ev.sec), 0));
      Finish(ev, m);
      history := Some(if cancel then Cancelled else if handled then Handled else Unhandled);
    }

    /** The event loop of `temporary_processEventQueue`: one history per event. */
    method ProcessEvents(queue: seq<Firing>) returns (histories: seq<Option<History>>)
      requires Valid()
      modifies this
      ensures Valid() && mListeners.Keys == old(mListeners.Keys)
      ensures var o := DispatchAll(old(subs), old(mListeners.Keys), queue);
              subs == o.subs && calls == old(calls) + o.calls
      ensures histories == HistoriesOf(old(subs), old(mListeners.Keys), queue)
    {
      hide DistinctTokens, ListsAgree, IndexAgrees, StagesFrom, DispatchAll, HistoriesOf, HistoryOf;
      histories := [];
      ghost var made: seq<Token> := [];
      var i: nat := 0;
      assert queue[0..] == queue;
      while i < |queue|
        invariant i <= |queue| && Valid() && mListeners.Keys == old(mListeners.Keys)
        invariant calls == old(calls) + made
        invariant var o, later := DispatchAll(old(subs), old(mListeners.Keys), queue),
                                  DispatchAll(subs, old(mListeners.Keys), queue[i..]);
                  o.subs == later.subs && o.calls == made + later.calls
        invariant HistoriesOf(old(subs), old(mListeners.Keys), queue)
               == histories + HistoriesOf(subs, old(mListeners.Keys), queue[i..])
      {
        ghost var before := subs;
        DispatchStep(before, old(mListeners.Keys), queue, i);
        HistoriesStep(before, old(mListeners.Keys), queue, i, histories);
        var history := ProcessEvent(queue[i].ev, queue[i].resp);
        histories := histories + [history];
        if queue[i].ev.pri in mListeners {
          made := made + StagesFrom(before, queue[i].ev, 0, queue[i].resp).calls;
        }
        i := i + 1;
      }
      DispatchNothing(subs, old(mListeners.Keys), queue[i..]);
    }

    /** The loop over the stages, until one cancels. */
    method RunStages(ev: Event, resp: Token -> Response) returns (cancel: bool, handled: bool)
      requires Refines() && ev.pri in mListeners
      modifies this
      ensures Refines() && SameShape(old(mListeners), mListeners, Key(ev.pri, Some(ev.sec), 0))
      ensures var o := StagesFrom(old(subs), ev, 0, resp);
              && subs == o.subs && calls == old(calls) + o.calls
              && cancel == o.cancelled && handled == (o.calls != [])
    {
      hide DistinctTokens, ListsAgree, IndexAgrees, SameShape, Stage, StagesFrom;
      ghost var m, c, s := mListeners, calls, subs;
      ghost var key, made: seq<Token> := Key(ev.pri, Some(ev.sec), 0), [];
      var i: nat := 0;
      cancel, handled := false, false;
      ShapeIsReflexive(m, key);
      ResumedStart(s, ev, resp);
      while i < NUM_EVENTORDER && !cancel
        invariant i <= NUM_EVENTORDER
        invariant Refines() && SameShape(m, mListeners, key)
        invariant calls == c + made && handled == (made != [])
        invariant StagesFrom(s, ev, 0, resp) == Resumed(subs, made, cancel, ev, i, resp)
        decreases NUM_EVENTORDER - i
      {
        ghost var m', before := mListeners, subs;
        KeysOfShape(m, mListeners, key);
        var stageHandled;
        cancel, stageHandled := RunStage(ev, i, resp);
        handled := handled || stageHandled;
        ShapeIsTransitive(m, m', mListeners, key);
        ResumesAfterStage(before, made, ev, i, resp);
        made := made + Stage(before, ev, i, resp).calls;
        i := i + 1;
      }
      ResumedEnd(subs, made, cancel, ev, i, resp);
    }

    /** One stage: the primary list and, if there is one, the event's secondary list. */
    method RunStage(ev: Event, order: nat, resp: Token -> Response) returns (cancel: bool, handled: bool)
      requires Refines() && ev.pri in mListeners && order < NUM_EVENTORDER
      modifies this
      ensures Refines() && SameShape(old(mListeners), mListeners, Key(ev.pri, Some(ev.sec), 0))
      ensures var now := Stage(old(subs), ev, order, resp);
              && subs == now.subs && calls == old(calls) + now.calls
              && cancel == now.cancelled && handled == (now.calls != [])
    {
      hide DistinctTokens, ListsAgree, IndexAgrees, SameShape, Keep, ListFor, GetList, Deleted, AnyCancels;
      var k1, k2 := Key(ev.pri, None, order), Key(ev.pri, Some(ev.sec), order);
      ghost var m := mListeners;
      ListIsCurrent(k1);
      handled := GetList(mListeners, k1) != [];
      cancel := CallAllListeners(k1, resp);
      SecondListUnchanged(old(subs), k1, k2, resp);
      ListIsCurrent(k2);
      ghost var m' := mListeners;
      EmptyListEffects(subs, resp);
      if HasSecondary(mListeners, ev.pri, ev.sec) && GetList(mListeners, k2) != [] {
        handled := true;
        var cancel2 := CallAllListeners(k2, resp);
        cancel := cancel || cancel2;
      } else {
        MissingListIsEmpty(mListeners, k2);
        ShapeIsReflexive(mListeners, k2);
      }
      KeepTwice(old(subs), Deleted(ListFor(old(subs), k1), resp), Deleted(ListFor(old(subs), k2), resp));
      ShapesCompose(m, m', mListeners, k1, k2, ev);
    }

    /** The clean-up after the last stage. */
    method Finish(ev: Event, ghost m: PrimaryMap)
      requires Refines() && Tidy(m) && SameShape(m, mListeners, Key(ev.pri, Some(ev.sec), 0))
      modifies this`mListeners
      ensures Valid() && mListeners.Keys == old(mListeners.Keys)
    {
      hide DistinctTokens, ListsAgree, IndexAgrees;
      if HasSecondary(mListeners, ev.pri, ev.sec) {
        var isEmpty := CleanUp(ev.pri, ev.sec);
      }
    }
  }

  /** What dispatch amounts to when `made` calls have been made and stage i comes next. */
  function Resumed(subs: seq<Subscription>, made: seq<Token>, cancelled: bool, ev: Event, i: nat,
                   resp: Token -> Response): (o: Outcome)
  {
    if cancelled then Outcome(subs, made, true)
    else
      var later := StagesFrom(subs, ev, i, resp);
      Outcome(later.subs, made + later.calls, later.cancelled)
  }

  lemma ResumedStart(subs: seq<Subscription>, ev: Event, resp: Token -> Response)
    ensures Resumed(subs, [], false, ev, 0, resp) == StagesFrom(subs, ev, 0, resp)
  {
    assert [] + StagesFrom(subs, ev, 0, resp).calls == StagesFrom(subs, ev, 0, resp).calls;
  }

  lemma ResumedEnd(subs: seq<Subscription>, made: seq<Token>, cancelled: bool, ev: Event, i: nat,
                   resp: Token -> Response)
    requires cancelled || i >= NUM_EVENTORDER
    ensures Resumed(subs, made, cancelled, ev, i, resp) == Outcome(subs, made, cancelled)
  {
  }

  lemma KeysOfShape(m: PrimaryMap, m': PrimaryMap, key: Key)
    requires SameShape(m, m', key)
    ensures m.Keys == m'.Keys
  {
  }

  lemma ResumesAfterStage(subs: seq<Subscription>, made: seq<Token>, ev: Event, i: nat, resp: Token -> Response)
    requires i < NUM_EVENTORDER
    ensures var now := Stage(subs, ev, i, resp);
            Resumed(subs, made, false, ev, i, resp)
            == Resumed(now.subs, made + now.calls, now.cancelled, ev, i + 1, resp)
  {
    hide Stage;
    var now := Stage(subs, ev, i, resp);
    var later := StagesFrom(now.subs, ev, i + 1, resp);
    assert made + (now.calls + later.calls) == made + now.calls + later.calls;
  }

  lemma LoopStarts(list: seq<Node>, subs: seq<Subscription>, resp: Token -> Response, m: PrimaryMap, key: Key)
    ensures Keep(subs, Deleted(list[..0], resp)) == subs
    ensures Tokens(list[..0]) == [] && !AnyCancels(list[..0], resp) && SameShape(m, m, key)
  {
    assert Deleted(list[..0], resp) == {};
    KeepNone(subs);
  }

  /** The effect of one more listener of a list. */
  lemma LoopStep(list: seq<Node>, subs: seq<Subscription>, resp: Token -> Response, i: nat, key: Key)
    requires DistinctTokens(subs) && list == ListFor(subs, key) && i < |list|
    ensures Tokens(list[..i + 1]) == Tokens(list[..i]) + [list[i].token]
    ensures AnyCancels(list[..i + 1], resp) == (AnyCancels(list[..i], resp) || resp(list[i].token).cancel)
    ensures var t := list[i].token;
            && Subscription(key, t, list[i].id) in Keep(subs, Deleted(list[..i], resp))
            && Deleted(list[..i + 1], resp)
               == (if resp(t).delete then Deleted(list[..i], resp) + {t} else Deleted(list[..i], resp))
            && Keep(Keep(subs, Deleted(list[..i], resp)), {t}) == Keep(subs, Deleted(list[..i], resp) + {t})
  {
    var t := list[i].token;
    assert list[..i + 1] == list[..i] + [list[i]];
    KeepTwice(subs, Deleted(list[..i], resp), {t});
    NodeIsSubscribed(subs, key, i);
    forall j | 0 <= j < i ensures list[j].token != t {
      NodeIsSubscribed(subs, key, j);
      NodesAreDistinct(subs, key, j, i);
    }
    AnyCancelsStep(list, resp, i);
    DeletedStep(list, resp, i);
  }

  lemma AnyCancelsStep(list: seq<Node>, resp: Token -> Response, i: nat)
    requires i < |list|
    ensures AnyCancels(list[..i + 1], resp) == (AnyCancels(list[..i], resp) || resp(list[i].token).cancel)
  {
    var a, b := list[..i], list[..i + 1];
    assert forall j :: 0 <= j < i ==> a[j] == b[j];
    assert b[i] == list[i];
  }

  lemma DeletedStep(list: seq<Node>, resp: Token -> Response, i: nat)
    requires i < |list|
    ensures Deleted(list[..i + 1], resp)
         == if resp(list[i].token).delete then Deleted(list[..i], resp) + {list[i].token} else Deleted(list[..i], resp)
  {
    var a, b := list[..i], list[..i + 1];
    assert forall j :: 0 <= j < i ==> a[j] == b[j];
    assert b[i] == list[i];
  }

  lemma {:induction false} NodeIsSubscribed(subs: seq<Subscription>, key: Key, i: nat)
    requires i < |ListFor(subs, key)|
    ensures var node := ListFor(subs, key)[i];
            Subscription(key, node.token, node.id) in subs
    decreases |subs|
  {
    if subs[0].key == key {
      if i != 0 {
        NodeIsSubscribed(subs[1..], key, i - 1);
      } else {
        assert subs[0] == Subscription(key, subs[0].token, subs[0].id);
      }
    } else {
      NodeIsSubscribed(subs[1..], key, i);
    }
  }

  lemma NodesAreDistinct(subs: seq<Subscription>, key: Key, i: nat, j: nat)
    requires DistinctTokens(subs) && i < j < |ListFor(subs, key)|
    ensures ListFor(subs, key)[i].token != ListFor(subs, key)[j].token
  {
    var x, y := ListFor(subs, key)[i], ListFor(subs, key)[j];
    NodeIsSubscribed(subs, key, i);
    NodeIsSubscribed(subs, key, j);
    var sx, sy := Subscription(key, x.token, x.id), Subscription(key, y.token, y.id);
    ListIsNewestFirst(subs, key, i, j, sx, sy);
    var a, b :| 0 <= a < b < |subs| && subs[a] == sx && subs[b] == sy;
  }

  /** Deletions from one list leave the others alone. */
  lemma SecondListUnchanged(subs: seq<Subscription>, k1: Key, k2: Key, resp: Token -> Response)
    requires DistinctTokens(subs) && k1 != k2
    ensures ListFor(Keep(subs, Deleted(ListFor(subs, k1), resp)), k2) == ListFor(subs, k2)
  {
    var gone, nodes := Deleted(ListFor(subs, k1), resp), ListFor(subs, k2);
    ListForKeep(subs, gone, k2);
    forall i | 0 <= i < |nodes| ensures nodes[i].token !in gone {
      NodeIsSubscribed(subs, k2, i);
      InItsList(subs, Subscription(k2, nodes[i].token, nodes[i].id), k1);
      DeletedMembers(ListFor(subs, k1), resp, nodes[i].token);
    }
    KeepNodesAbsent(nodes, gone);
  }

  lemma EmptyListEffects(subs: seq<Subscription>, resp: Token -> Response)
    ensures Deleted([], resp) == {} && Keep(subs, {}) == subs && Tokens([]) == [] && !AnyCancels([], resp)
  {
    KeepNone(subs);
  }

  lemma MissingListIsEmpty(m: PrimaryMap, key: Key)
    requires key.sec.Some? && (HasSecondary(m, key.pri, key.sec.value) ==> GetList(m, key) == [])
    ensures GetList(m, key) == []
  {
  }

  lemma ShapeIsReflexive(m: PrimaryMap, key: Key)
    ensures SameShape(m, m, key)
  {
  }

  lemma ShapeIsTransitive(a: PrimaryMap, b: PrimaryMap, c: PrimaryMap, key: Key)
    requires SameShape(a, b, key) && SameShape(b, c, key)
    ensures SameShape(a, c, key)
  {
  }

  lemma ShapesCompose(a: PrimaryMap, b: PrimaryMap, c: PrimaryMap, k1: Key, k2: Key, ev: Event)
    requires k1.sec == None && k2.pri == ev.pri && k2.sec == Some(ev.sec)
    requires SameShape(a, b, k1) && SameShape(b, c, k2)
    ensures SameShape(a, c, Key(ev.pri, Some(ev.sec), 0))
  {
  }

  /** The same lists exist; secondary entries other than the key's are unchanged. */
  ghost predicate SameShape(m: PrimaryMap, m': PrimaryMap, key: Key) {
    && m'.Keys == m.Keys
    && (forall p: Primary, s: Secondary :: HasSecondary(m, p, s) <==> HasSecondary(m', p, s))
    && (forall p: Primary, s: Secondary ::
          HasSecondary(m, p, s) && HasSecondary(m', p, s) && !(p == key.pri && key.sec == Some(s))
          ==> m'[p].second[s] == m[p].second[s])
  }

  lemma SetListShape(m: PrimaryMap, key: Key, list: seq<Node>)
    requires HasList(m, key)
    ensures SameShape(m, SetList(m, key, list), key)
  {
  }

  lemma NonEmptyListExists(m: PrimaryMap, key: Key)
    ensures GetList(m, key) != [] ==> HasList(m, key)
  {
  }

  lemma ErasingAgrees(m: PrimaryMap, subs: seq<Subscription>, x: Subscription)
    requires DistinctTokens(subs) && ListsAgree(m, subs) && x in subs
    ensures HasList(m, x.key)
    ensures var m' := SetList(m, x.key, KeepNodes(GetList(m, x.key), {x.token}));
            ListsAgree(m', Keep(subs, {x.token})) && SameShape(m, m', x.key)
  {
    hide SetList, GetList, Keep, DistinctTokens, HasList;
    InItsList(subs, x, x.key);
    assert GetList(m, x.key) == ListFor(subs, x.key);
    NonEmptyListExists(m, x.key);
    var list := KeepNodes(GetList(m, x.key), {x.token});
    var m' := SetList(m, x.key, list);
    SetListShape(m, x.key, list);
    forall k: Key ensures GetList(m', k) == ListFor(Keep(subs, {x.token}), k) {
      SetListGet(m, x.key, list, k);
      ListForKeep(subs, {x.token}, k);
      assert GetList(m, k) == ListFor(subs, k);
      if k != x.key {
        OtherListsUntouched(subs, x, k);
      }
    }
  }

  lemma ShapeKeepsTidy(m: PrimaryMap, m': PrimaryMap, key: Key, pri: Primary, sec: Secondary)
    requires SameShape(m, m', key) && TidyExcept(m, pri, sec)
    requires key.sec.Some? ==> key.pri == pri && key.sec.value == sec
    ensures TidyExcept(m', pri, sec)
    ensures Tidy(m) && key.sec == None ==> Tidy(m')
  {
  }

  lemma IndexAfterErasing(index: map<SubscriptionId, Place>, subs: seq<Subscription>, x: Subscription)
    requires DistinctTokens(subs) && IndexAgrees(index, subs) && x in subs
    ensures IndexAgrees(if x.id == NULL_ID then index else index - {x.id}, Keep(subs, {x.token}))
  {
    var left := Keep(subs, {x.token});
    var index' := if x.id == NULL_ID then index else index - {x.id};
    forall y | y in left && y.id != NULL_ID ensures y.id in index' && index'[y.id] == Place(y.key, y.token) {
      assert y in subs && y.token != x.token;
    }
    forall id | id in index' ensures id != NULL_ID && exists y :: y in left && y.id == id {
      var y :| y in subs && y.id == id;
      if y.token == x.token {
        SameToken(subs, x, y);
      }
      assert y in left;
    }
  }

  lemma AddingAgrees(m: PrimaryMap, subs: seq<Subscription>, x: Subscription)
    requires ListsAgree(m, subs) && HasList(m, x.key)
    ensures ListsAgree(SetList(m, x.key, [Node(x.token, x.id)] + GetList(m, x.key)), [x] + subs)
  {
    hide SetList, GetList, HasList;
    var list := [Node(x.token, x.id)] + GetList(m, x.key);
    assert ([x] + subs)[1..] == subs;
    forall k: Key ensures GetList(SetList(m, x.key, list), k) == ListFor([x] + subs, k) {
      SetListGet(m, x.key, list, k);
      assert GetList(m, k) == ListFor(subs, k);
    }
  }

  lemma AddingIndexes(index: map<SubscriptionId, Place>, subs: seq<Subscription>, x: Subscription)
    requires IndexAgrees(index, subs) && (x.id == NULL_ID || x.id !in index)
    ensures IndexAgrees(if x.id == NULL_ID then index else index[x.id := Place(x.key, x.token)], [x] + subs)
  {
    assert ([x] + subs)[0] == x;
    assert forall y :: y in subs ==> y in [x] + subs;
  }

  lemma DispatchStep(subs: seq<Subscription>, known: set<Primary>, queue: seq<Firing>, i: nat)
    requires i < |queue|
    ensures var f := queue[i];
            var now := if f.ev.pri in known then StagesFrom(subs, f.ev, 0, f.resp) else Outcome(subs, [], false);
            var all, later := DispatchAll(subs, known, queue[i..]), DispatchAll(now.subs, known, queue[i + 1..]);
            all.subs == later.subs && all.calls == now.calls + later.calls
  {
    hide StagesFrom;
    assert queue[i..][0] == queue[i] && queue[i..][1..] == queue[i + 1..];
  }

  lemma HistoriesStep(subs: seq<Subscription>, known: set<Primary>, queue: seq<Firing>, i: nat,
                      done: seq<Option<History>>)
    requires i < |queue|
    ensures var f := queue[i];
            var now := StagesFrom(subs, f.ev, 0, f.resp);
            done + HistoriesOf(subs, known, queue[i..])
            == if f.ev.pri in known then done + [Some(HistoryOf(now))] + HistoriesOf(now.subs, known, queue[i + 1..])
               else done + [None] + HistoriesOf(subs, known, queue[i + 1..])
  {
    hide StagesFrom, HistoryOf;
    assert queue[i..][0] == queue[i] && queue[i..][1..] == queue[i + 1..];
  }

  lemma DispatchNothing(subs: seq<Subscription>, known: set<Primary>, queue: seq<Firing>)
    requires queue == []
    ensures DispatchAll(subs, known, queue) == Outcome(subs, [], false) && HistoriesOf(subs, known, queue) == []
  {
  }

  lemma TidyAfterAdding(m: PrimaryMap, key: Key, list: seq<Node>)
    requires HasList(m, key) && list != []
    requires if key.sec.Some? then TidyExcept(m, key.pri, key.sec.value) else Tidy(m)
    ensures Tidy(SetList(m, key, list))
  {
    if key.sec.Some? {
      assert SetList(m, key, list)[key.pri].second[key.sec.value][key.order] == list;
      assert NO_LISTENERS[key.order] == [];
    }
  }
}
