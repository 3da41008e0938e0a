/** Vocabulary shared by the interleaving models. */
module Options {
  datatype Option<+T> = None | Some(value: T)
}

/** Numbers of threads. */
module Counting {
  lemma SubsetSize(a: set<nat>, b: set<nat>)
    requires a <= b
    ensures |a| <= |b|
  {
    assert b == a + (b - a);
  }

  /** The sum of a map's values. */
  ghost function Sum(m: map<nat, nat>): nat
    decreases |m|
  {
    if m == map[] then 0 else var k :| k in m; m[k] + Sum(m - {k})
  }

  lemma {:induction false} SumSplit(m: map<nat, nat>, k: nat)
    requires k in m
    ensures Sum(m) == m[k] + Sum(m - {k})
    decreases |m|
  {
    var j :| j in m && Sum(m) == m[j] + Sum(m - {j});
    if j != k {
      SumSplit(m - {j}, k);
      SumSplit(m - {k}, j);
      assert m - {j} - {k} == m - {k} - {j};
    }
  }

  /** What all threads together still have to do, when w tells it of each. */
  ghost function Total<P>(pcs: map<nat, P>, w: P -> nat): nat {
    Sum(map t | t in pcs :: w(pcs[t]))
  }

  lemma TotalUpdate<P>(pcs: map<nat, P>, w: P -> nat, t: nat, pc: P)
    requires t in pcs
    ensures Total(pcs[t := pc], w) == Total(pcs, w) - w(pcs[t]) + w(pc)
  {
    var pcs' := pcs[t := pc];
    var a, b := map u | u in pcs :: w(pcs[u]), map u | u in pcs' :: w(pcs'[u]);
    SumSplit(a, t);
    SumSplit(b, t);
    assert a - {t} == b - {t};
  }
}

/** Orders on concurrent calls. */
module CallOrder {

  /** A call of a send operation; it stands for the data it sends as well. */
  type Call = nat

  ghost predicate NoDuplicates(q: seq<Call>) {
    forall i, j :: 0 <= i < j < |q| ==> q[i] != q[j]
  }

  /** `after[b]` is the set of calls that had returned when b was made.  No call stands
      ahead of one that had returned before it was made. */
  ghost predicate Ordered(q: seq<Call>, after: map<Call, set<Call>>) {
    forall i, j :: 0 <= i < j < |q| && q[i] in after ==> q[j] !in after[q[i]]
  }

  /** In an ordered sequence, an earlier call is found ahead of a later one. */
  lemma EarlierIsAhead(q: seq<Call>, after: map<Call, set<Call>>, a: Call, b: Call, j: nat)
    requires Ordered(q, after) && b in after && a in after[b] && b !in after[b]
    requires a in q && j < |q| && q[j] == b
    ensures exists i :: 0 <= i < j && q[i] == a
  {
    var i :| 0 <= i < |q| && q[i] == a;
    assert i != j;
  }

  lemma AddingCallStaysOrdered(q: seq<Call>, after: map<Call, set<Call>>, c: Call, calls: set<Call>)
    requires Ordered(q, after) && c !in q
    ensures Ordered(q, after[c := calls])
  {
  }

  /** A call that nobody had seen return may be placed last. */
  lemma AppendPlaces(q: seq<Call>, c: Call, after: map<Call, set<Call>>)
    requires NoDuplicates(q) && Ordered(q, after) && c !in q
    requires forall b :: b in after ==> c !in after[b]
    ensures NoDuplicates(q + [c]) && Ordered(q + [c], after)
  {
  }
}
