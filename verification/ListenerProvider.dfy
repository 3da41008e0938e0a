/** Listeners of a provider (libcore/src/util/ListenerProvider.hpp): a vector, an index
    into it that is kept only while there are at least two of them, and notification
    during which a listener may add others or remove itself. */
module ListenerProviders {

  type Listener = nat

  /** What a notified listener may do to the provider.  An addition of a listener that
      is present, or a removal of itself when absent, is left undone. */
  datatype Action = Add(listener: Listener) | RemoveSelf

  // ----- the vector alone -----

  /** The vector without `p`: the last listener takes its place. */
  function Without(ls: seq<Listener>, p: Listener): (r: seq<Listener>)
    requires p in ls
    ensures |r| == |ls| - 1
  {
    var n, i := |ls| - 1, Position(ls, p);
    if i == n then ls[..n] else ls[..n][i := ls[n]]
  }

  function Position(ls: seq<Listener>, p: Listener): (i: nat)
    requires p in ls
    ensures i < |ls| && ls[i] == p && p !in ls[..i]
  {
    if ls[0] == p then 0 else 1 + Position(ls[1..], p)
  }

  function Act(ls: seq<Listener>, self: Listener, a: Action): seq<Listener> {
    match a
    case Add(p) => if p in ls then ls else ls + [p]
    case RemoveSelf => if self in ls then Without(ls, self) else ls
  }

  function ActAll(ls: seq<Listener>, self: Listener, actions: seq<Action>): seq<Listener>
    decreases |actions|
  {
    if actions == [] then ls else ActAll(Act(ls, self, actions[0]), self, actions[1..])
  }

  /** What the k-th call of a round does. */
  function Doing(script: seq<seq<Action>>, k: nat): (actions: seq<Action>)
    ensures k < |script| ==> actions == script[k]
  {
    if k < |script| then script[k] else []
  }

  /** The vector once the given calls have been made. */
  function AfterCalls(ls: seq<Listener>, calls: seq<Listener>, script: seq<seq<Action>>): seq<Listener>
    decreases |calls|
  {
    if calls == [] then ls
    else
      var k := |calls| - 1;
      ActAll(AfterCalls(ls, calls[..k], script), calls[k], Doing(script, k))
  }

  /** The order of calls: newest first. */
  function Reversed(ls: seq<Listener>): (r: seq<Listener>)
    ensures |r| == |ls| && forall k :: 0 <= k < |r| ==> r[k] == ls[|ls| - 1 - k]
  {
    if ls == [] then [] else Reversed(ls[1..]) + [ls[0]]
  }

  /** Removal takes away `p` and nothing else. */
  lemma WithoutRemovesOne(ls: seq<Listener>, p: Listener)
    requires p in ls
    ensures multiset(Without(ls, p)) == multiset(ls) - multiset{p}
  {
    var n, i := |ls| - 1, Position(ls, p);
    assert ls == ls[..n] + [ls[n]];
    assert i < n ==> ls[..n][i] == p;
  }

  /** What one listener does leaves everything below its position alone. */
  lemma ActKeepsBelow(ls: seq<Listener>, below: seq<Listener>, self: Listener, a: Action)
    requires below <= ls && self !in below
    ensures below <= Act(ls, self, a)
  {
    if a.RemoveSelf? && self in ls {
      var i := Position(ls, self);
      assert |below| <= i;
      var r := Without(ls, self);
      assert forall k :: 0 <= k < |below| ==> r[k] == below[k];
    }
  }

  /** Of the others, exactly those are there after a call that were there or were added:
      only the listener being called can leave. */
  lemma {:induction false} OthersStay(ls: seq<Listener>, self: Listener, actions: seq<Action>, p: Listener)
    requires p != self
    ensures p in ActAll(ls, self, actions) <==> p in ls || Add(p) in actions
    decreases |actions|
  {
    if actions != [] {
      if actions[0].RemoveSelf? && self in ls {
        WithoutRemovesOne(ls, self);
        assert p in Without(ls, self) <==> p in multiset(Without(ls, self));
        assert p in ls <==> p in multiset(ls);
      }
      assert p in Act(ls, self, actions[0]) <==> p in ls || actions[0] == Add(p);
      OthersStay(Act(ls, self, actions[0]), self, actions[1..], p);
    }
  }

  /** A listener that removes itself as its last act is gone. */
  lemma SelfLeaves(ls: seq<Listener>, self: Listener)
    requires forall i, j :: 0 <= i < j < |ls| ==> ls[i] != ls[j]
    ensures self !in Act(ls, self, RemoveSelf)
  {
    if self in ls {
      var n, i := |ls| - 1, Position(ls, self);
      var r := Without(ls, self);
      assert forall k :: 0 <= k < n ==> r[k] == if k == i then ls[n] else ls[k];
    }
  }

  // ----- the provider -----

  class Provider {
    var mListeners: seq<Listener>
    var mListenerIndex: map<Listener, nat>

    /** Two or more listeners: the index is exactly the inverse of the vector.
        Fewer: it is empty or says where the one listener is. */
    predicate Valid()
      reads this
    {
      && (forall p :: p in mListenerIndex ==>
            mListenerIndex[p] < |mListeners| && mListeners[mListenerIndex[p]] == p)
      && (2 <= |mListeners| ==>
            forall i :: 0 <= i < |mListeners| ==>
              mListeners[i] in mListenerIndex && mListenerIndex[mListeners[i]] == i)
    }

    lemma NoneTwice()
      requires Valid()
      ensures forall i, j :: 0 <= i < j < |mListeners| ==> mListeners[i] != mListeners[j]
    {
    }

    constructor ()
      ensures Valid() && mListeners == []
    {
      mListeners, mListenerIndex := [], map[];
    }

    /** The index survives exactly the additions of listeners that are not there yet. */
    method AddListener(p: Listener)
      requires Valid()
      modifies this
      ensures mListeners == old(mListeners) + [p]
      ensures Valid() <==> p !in old(mListeners)
    {
      ghost var n := |mListeners|;
      if mListeners == [] {
        mListeners := mListeners + [p];
      } else if |mListeners| == 1 {
        mListenerIndex := mListenerIndex[mListeners[0] := 0];
        mListenerIndex := mListenerIndex[p := 1];
        mListeners := mListeners + [p];
      } else {
        mListenerIndex := mListenerIndex[p := |mListeners|];
        mListeners := mListeners + [p];
      }
      assert mListeners[n] == p;
      assert forall i :: 0 <= i < n ==> mListeners[i] == old(mListeners)[i];
    }

    method RemoveListener(p: Listener)
      requires Valid() && p in mListeners
      modifies this
      ensures Valid()
      ensures mListeners == Without(old(mListeners), p)
    {
      NoneTwice();
      if |mListeners| > 1 {
        assert p in mListenerIndex;
        var where := mListenerIndex[p];
        assert where == Position(mListeners, p);
        var n := |mListeners| - 1;
        if where + 1 != |mListeners| {
          mListenerIndex := mListenerIndex[mListeners[n] := where];
          mListeners := mListeners[where := mListeners[n]];
        }
        mListeners := mListeners[..n];
        mListenerIndex := mListenerIndex - {p};
      } else {
        assert mListeners[0] == p;
        mListeners := [];
        mListenerIndex := map[];
      }
    }

    /** What the notified listener `self` does. */
    method Perform(self: Listener, actions: seq<Action>, ghost below: seq<Listener>)
      requires Valid() && below <= mListeners && self !in below
      modifies this
      ensures Valid() && below <= mListeners
      ensures mListeners == ActAll(old(mListeners), self, actions)
    {
      var k := 0;
      assert actions[k..] == actions;
      while k < |actions|
        invariant 0 <= k <= |actions|
        invariant Valid() && below <= mListeners
        invariant ActAll(mListeners, self, actions[k..]) == ActAll(old(mListeners), self, actions)
      {
        ActKeepsBelow(mListeners, below, self, actions[k]);
        match actions[k] {
          case Add(p) =>
            if p !in mListeners {
              AddListener(p);
            }
          case RemoveSelf =>
            if self in mListeners {
              RemoveListener(self);
            }
        }
        assert actions[k..][1..] == actions[k + 1..];
        k := k + 1;
      }
    }

    /** However the listeners called add others and remove themselves, each one present
        at the start is called exactly once, last added first, and nobody else is. */
    method Notify(script: seq<seq<Action>>) returns (calls: seq<Listener>)
      requires Valid()
      modifies this
      ensures Valid()
      ensures calls == Reversed(old(mListeners))
      ensures mListeners == AfterCalls(old(mListeners), calls, script)
      ensures forall i, j :: 0 <= i < j < |calls| ==> calls[i] != calls[j]
    {
      hide Valid, ActAll, Doing;
      NoneTwice();
      calls := [];
      var i := |mListeners| - 1;
      while i >= 0 && i < |mListeners|
        invariant -1 <= i < |old(mListeners)| && i < |mListeners|
        invariant Valid()
        invariant old(mListeners)[..i + 1] <= mListeners
        invariant mListeners == AfterCalls(old(mListeners), calls, script)
        invariant |calls| == |old(mListeners)| - 1 - i
        invariant forall k :: 0 <= k < |calls| ==> calls[k] == old(mListeners)[|old(mListeners)| - 1 - k]
      {
        var self := mListeners[i];
        ghost var below := old(mListeners)[..i];
        assert self == old(mListeners)[..i + 1][i] == old(mListeners)[i];
        assert below == old(mListeners)[..i + 1][..i];
        Perform(self, Doing(script, |calls|), below);
        assert (calls + [self])[..|calls|] == calls;
        calls := calls + [self];
        i := i - 1;
      }
    }
  }
}
