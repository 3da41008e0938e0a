/** The bounded map behind the caches (`CacheMap`, `LRUPolicy` and `CachePolicy` in
    libcore/src/transfer): entries, a recency list and a byte budget that must agree. */
module CacheMaps {
  import opened SparseFiles

  type Fingerprint = nat

  /** A cache entry with the size recorded for it. */
  datatype Entry = Entry(sparse: seq<Dense>, size: nat)

  // ----- recency lists -----

  ghost predicate Distinct(list: seq<Fingerprint>) {
    forall i, j :: 0 <= i < j < |list| ==> list[i] != list[j]
  }

  function Without(list: seq<Fingerprint>, id: Fingerprint): (r: seq<Fingerprint>)
    ensures forall x :: x in r ==> x in list
    ensures forall x :: x in list && x != id ==> x in r
  {
    if list == [] then []
    else if list[0] == id then list[1..]
    else [list[0]] + Without(list[1..], id)
  }

  lemma {:induction false} WithoutIsDistinct(list: seq<Fingerprint>, id: Fingerprint)
    requires Distinct(list)
    ensures Distinct(Without(list, id)) && id !in Without(list, id)
    decreases |list|
  {
    if list != [] && list[0] != id {
      WithoutIsDistinct(list[1..], id);
      NotInTail(list);
      PrependIsDistinct(list[0], Without(list[1..], id));
    }
  }

  lemma NotInTail(list: seq<Fingerprint>)
    requires Distinct(list) && list != []
    ensures list[0] !in list[1..]
  {
  }

  lemma PrependIsDistinct(x: Fingerprint, rest: seq<Fingerprint>)
    requires Distinct(rest) && x !in rest
    ensures Distinct([x] + rest)
  {
  }

  /** Older entries come first. */
  ghost predicate ByLastUse(list: seq<Fingerprint>, lastUse: map<Fingerprint, nat>, clock: nat) {
    && (forall x :: x in list ==> x in lastUse && lastUse[x] < clock)
    && (forall i, j :: 0 <= i < j < |list| && list[i] in lastUse && list[j] in lastUse
                       ==> lastUse[list[i]] < lastUse[list[j]])
  }

  lemma {:induction false} WithoutKeepsOrder(
      list: seq<Fingerprint>, id: Fingerprint, lastUse: map<Fingerprint, nat>, clock: nat)
    requires ByLastUse(list, lastUse, clock)
    ensures ByLastUse(Without(list, id), lastUse, clock)
    decreases |list|
  {
    if list != [] && list[0] != id {
      WithoutKeepsOrder(list[1..], id, lastUse, clock);
      var rest := Without(list[1..], id);
      forall j | 0 <= j < |rest| ensures lastUse[list[0]] < lastUse[rest[j]] {
        assert rest[j] in list[1..];
        var m :| 0 <= m < |list[1..]| && list[1..][m] == rest[j];
        assert rest[j] == list[m + 1];
      }
    }
  }

  // ----- sizes -----

  /** The sum of the recorded sizes of the listed entries. */
  function Total(list: seq<Fingerprint>, m: map<Fingerprint, Entry>): (n: nat)
    requires forall x :: x in list ==> x in m
  {
    if list == [] then 0 else m[list[0]].size + Total(list[1..], m)
  }

  lemma {:induction false} TotalWithout(list: seq<Fingerprint>, m: map<Fingerprint, Entry>, id: Fingerprint)
    requires (forall x :: x in list ==> x in m) && id in list
    ensures Total(Without(list, id), m) == Total(list, m) - m[id].size
    decreases |list|
  {
    if list[0] != id {
      TotalWithout(list[1..], m, id);
      var rest := Without(list[1..], id);
      assert ([list[0]] + rest)[1..] == rest;
    }
  }

  lemma {:induction false} TotalAppend(list: seq<Fingerprint>, m: map<Fingerprint, Entry>, id: Fingerprint)
    requires forall x :: x in list + [id] ==> x in m
    ensures (forall x :: x in list ==> x in m) && Total(list + [id], m) == Total(list, m) + m[id].size
    decreases |list|
  {
    assert forall x :: x in list ==> x in list + [id];
    if list == [] {
      assert list + [id] == [id];
    } else {
      assert (list + [id])[1..] == list[1..] + [id];
      TotalAppend(list[1..], m, id);
    }
  }

  lemma {:induction false} TotalFrame(list: seq<Fingerprint>, m: map<Fingerprint, Entry>, m': map<Fingerprint, Entry>)
    requires forall x :: x in list ==> x in m && x in m' && m[x].size == m'[x].size
    ensures Total(list, m) == Total(list, m')
    decreases |list|
  {
    if list != [] {
      TotalFrame(list[1..], m, m');
    }
  }

  // ----- eviction -----

  /** How many of the least recently used entries must go to free enough space. */
  function Evictions(list: seq<Fingerprint>, m: map<Fingerprint, Entry>, free: int, required: nat): (k: nat)
    requires forall x :: x in list ==> x in m
    ensures k <= |list|
  {
    if free >= required || list == [] then 0
    else 1 + Evictions(list[1..], m, free + m[list[0]].size, required)
  }

  /** Evictions is the least such number: it frees enough if anything does, and no
      shorter prefix would. */
  lemma {:induction false} EvictionsAreMinimal(
      list: seq<Fingerprint>, m: map<Fingerprint, Entry>, free: int, required: nat)
    requires forall x :: x in list ==> x in m
    ensures var k := Evictions(list, m, free, required);
            && (free + Total(list[..k], m) >= required || k == |list|)
            && forall j :: 0 <= j < k ==> free + Total(list[..j], m) < required
    decreases |list|
  {
    if free < required && list != [] {
      var free' := free + m[list[0]].size;
      EvictionsAreMinimal(list[1..], m, free', required);
      var k := Evictions(list, m, free, required);
      forall j | 0 < j <= k ensures free + Total(list[..j], m) == free' + Total(list[1..][..j - 1], m) {
        assert list[..j][1..] == list[1..][..j - 1];
      }
    }
  }

  function First(list: seq<Fingerprint>, k: nat): (s: set<Fingerprint>)
    requires k <= |list|
  {
    set x | x in list[..k]
  }

  lemma NothingEvicted(list: seq<Fingerprint>, m: map<Fingerprint, Entry>)
    ensures First(list, 0) == {} && list[0..] == list && m - {} == m
    ensures Total([], m) == 0
  {
  }

  lemma EvictionsDone(list: seq<Fingerprint>, m: map<Fingerprint, Entry>, free: int, required: nat)
    requires (forall x :: x in list ==> x in m) && (free >= required || list == [])
    ensures Evictions(list, m, free, required) == 0
  {
  }

  lemma EvictionStep(list: seq<Fingerprint>, m: map<Fingerprint, Entry>, free: int, required: nat, gone: nat)
    requires gone < |list| && Distinct(list) && free < required
    requires forall x :: x in list ==> x in m
    ensures var id := list[gone];
            && Without(list[gone..], id) == list[gone + 1..]
            && First(list, gone + 1) == First(list, gone) + {id}
            && id !in First(list, gone)
            && m - First(list, gone) - {id} == m - First(list, gone + 1)
            && Evictions(list[gone..], m, free, required)
               == 1 + Evictions(list[gone + 1..], m, free + m[id].size, required)
  {
    var id := list[gone];
    assert list[gone..][1..] == list[gone + 1..] && list[gone..][0] == id;
    assert list[..gone + 1] == list[..gone] + [id];
  }

  // ----- admission -----

  /** `cachable`: whether a policy takes an entry of n bytes at all. */
  predicate Admits(total: nat, maxSizePct: real, n: nat) {
    n < 0x8000_0000_0000_0000 && n as real < total as real * maxSizePct
  }

  /** A policy admits nothing larger than its total if and only if it does not admit one
      byte more than the total; with a fraction of at most 1 it never does. */
  lemma AdmissionLimit(total: nat, maxSizePct: real)
    ensures (forall n: nat :: Admits(total, maxSizePct, n) ==> n <= total) <==> !Admits(total, maxSizePct, total + 1)
    ensures maxSizePct <= 1.0 ==> !Admits(total, maxSizePct, total + 1)
  {
    var t := total as real;
    if maxSizePct <= 1.0 {
      assert 0.0 <= t * (1.0 - maxSizePct);
    }
    forall n: nat | Admits(total, maxSizePct, n) && total < n ensures Admits(total, maxSizePct, total + 1) {
      assert (total + 1) as real <= n as real;
    }
  }

  /** `LRUPolicy`. */
  class LRUPolicy {
    const mTotalSize: nat
    const mMaxSizePct: real
    var mFreeSpace: int
    var mLeastUsed: seq<Fingerprint>
    /** When each entry was last used. */
    ghost var lastUse: map<Fingerprint, nat>
    ghost var clock: nat

    ghost predicate Valid()
      reads this
    {
      Distinct(mLeastUsed) && ByLastUse(mLeastUsed, lastUse, clock)
    }

    constructor (allocatedSpace: nat, maxSizePct: real)
      ensures Valid() && mTotalSize == allocatedSpace && mMaxSizePct == maxSizePct
      ensures mFreeSpace == allocatedSpace && mLeastUsed == []
    {
      mTotalSize, mMaxSizePct, mFreeSpace := allocatedSpace, maxSizePct, allocatedSpace;
      mLeastUsed, lastUse, clock := [], map[], 0;
    }

    method UpdateSpace(oldsize: nat, newsize: nat)
      modifies this`mFreeSpace
      ensures mFreeSpace == old(mFreeSpace) + oldsize - newsize
    {
      mFreeSpace := mFreeSpace + oldsize;
      mFreeSpace := mFreeSpace - newsize;
    }

    method Use(id: Fingerprint)
      requires Valid() && id in mLeastUsed
      modifies this`mLeastUsed, this`lastUse, this`clock
      ensures Valid() && mLeastUsed == Without(old(mLeastUsed), id) + [id]
    {
      WithoutIsDistinct(mLeastUsed, id);
      WithoutKeepsOrder(mLeastUsed, id, lastUse, clock);
      mLeastUsed := Without(mLeastUsed, id) + [id];
      lastUse, clock := lastUse[id := clock], clock + 1;
    }

    method UseAndUpdate(id: Fingerprint, oldsize: nat, newsize: nat)
      requires Valid() && id in mLeastUsed
      modifies this
      ensures Valid() && mLeastUsed == Without(old(mLeastUsed), id) + [id]
      ensures mFreeSpace == old(mFreeSpace) + oldsize - newsize
    {
      Use(id);
      UpdateSpace(oldsize, newsize);
    }

    method Destroy(id: Fingerprint, size: nat)
      requires Valid() && id in mLeastUsed
      modifies this`mFreeSpace, this`mLeastUsed
      ensures Valid() && mLeastUsed == Without(old(mLeastUsed), id)
      ensures mFreeSpace == old(mFreeSpace) + size
    {
      UpdateSpace(size, 0);
      WithoutIsDistinct(mLeastUsed, id);
      WithoutKeepsOrder(mLeastUsed, id, lastUse, clock);
      mLeastUsed := Without(mLeastUsed, id);
    }

    method Create(id: Fingerprint, size: nat)
      requires Valid() && id !in mLeastUsed
      modifies this
      ensures Valid() && mLeastUsed == old(mLeastUsed) + [id]
      ensures mFreeSpace == old(mFreeSpace) - size
    {
      UpdateSpace(0, size);
      mLeastUsed := mLeastUsed + [id];
      lastUse, clock := lastUse[id := clock], clock + 1;
    }

    predicate Cachable(requiredSpace: nat) { Admits(mTotalSize, mMaxSizePct, requiredSpace) }

    predicate MustEvict(requiredSpace: nat)
      reads this
    {
      mFreeSpace < requiredSpace && mLeastUsed != []
    }
  }

  /** `CacheMap` with the operations of its write_iterator. */
  class CacheMap {
    var mMap: map<Fingerprint, Entry>
    const mPolicy: LRUPolicy

    /** The recency list is a permutation of the keys, and the free space is what the
        recorded sizes leave. */
    ghost predicate Valid()
      reads this, mPolicy
    {
      && mPolicy.Valid()
      && (forall x :: x in mPolicy.mLeastUsed <==> x in mMap)
      && mPolicy.mFreeSpace == mPolicy.mTotalSize - Total(mPolicy.mLeastUsed, mMap)
    }

    constructor (policy: LRUPolicy)
      requires policy.Valid() && policy.mLeastUsed == [] && policy.mFreeSpace == policy.mTotalSize
      ensures Valid() && mPolicy == policy && mMap == map[]
    {
      mMap, mPolicy := map[], policy;
    }

    method Erase(id: Fingerprint)
      requires Valid() && id in mMap
      modifies this`mMap, mPolicy`mFreeSpace, mPolicy`mLeastUsed
      ensures Valid() && mMap == old(mMap) - {id}
      ensures mPolicy.mLeastUsed == Without(old(mPolicy.mLeastUsed), id)
      ensures mPolicy.mFreeSpace == old(mPolicy.mFreeSpace) + old(mMap[id].size)
    {
      TotalWithout(mPolicy.mLeastUsed, mMap, id);
      WithoutIsDistinct(mPolicy.mLeastUsed, id);
      mPolicy.Destroy(id, mMap[id].size);
      TotalFrame(mPolicy.mLeastUsed, mMap, mMap - {id});
      mMap := mMap - {id};
    }

    /** `eraseAll`: the policy forgets every entry, in any order, before the map is
        cleared; all the space comes back. */
    method EraseAll()
      requires Valid()
      modifies this`mMap, mPolicy`mFreeSpace, mPolicy`mLeastUsed
      ensures Valid() && mMap == map[]
      ensures mPolicy.mLeastUsed == [] && mPolicy.mFreeSpace == mPolicy.mTotalSize
    {
      var left := mMap.Keys;
      while left != {}
        invariant mPolicy.Valid() && left <= mMap.Keys && mMap == old(mMap)
        invariant forall x :: x in mPolicy.mLeastUsed <==> x in left
        invariant mPolicy.mFreeSpace == mPolicy.mTotalSize - Total(mPolicy.mLeastUsed, mMap)
      {
        var id :| id in left;
        TotalWithout(mPolicy.mLeastUsed, mMap, id);
        WithoutIsDistinct(mPolicy.mLeastUsed, id);
        mPolicy.Destroy(id, mMap[id].size);
        left := left - {id};
      }
      mMap := map[];
    }

    /** std::map::insert: an entry that exists is left alone. */
    method Insert(id: Fingerprint, size: nat) returns (inserted: bool)
      requires Valid()
      modifies this`mMap, mPolicy
      ensures Valid() && inserted == (id !in old(mMap))
      ensures mMap == if inserted then old(mMap)[id := Entry([], size)] else old(mMap)
      ensures mPolicy.mLeastUsed == old(mPolicy.mLeastUsed) + (if inserted then [id] else [])
      ensures mPolicy.mFreeSpace == old(mPolicy.mFreeSpace) - (if inserted then size else 0)
    {
      inserted := id !in mMap;
      if inserted {
        var m := mMap[id := Entry([], size)];
        TotalFrame(mPolicy.mLeastUsed, mMap, m);
        TotalAppend(mPolicy.mLeastUsed, m, id);
        mPolicy.Create(id, size);
        mMap := m;
      }
    }

    /** Stores data under an entry without touching its recorded size. */
    method Store(id: Fingerprint, sparse: seq<Dense>)
      requires Valid() && id in mMap
      modifies this`mMap
      ensures Valid() && mMap == old(mMap)[id := old(mMap[id]).(sparse := sparse)]
    {
      var m := mMap[id := mMap[id].(sparse := sparse)];
      TotalFrame(mPolicy.mLeastUsed, mMap, m);
      mMap := m;
    }

    method Use(id: Fingerprint)
      requires Valid() && id in mMap
      modifies mPolicy`mLeastUsed, mPolicy`lastUse, mPolicy`clock
      ensures Valid() && mPolicy.mLeastUsed == Without(old(mPolicy.mLeastUsed), id) + [id]
    {
      TotalWithout(mPolicy.mLeastUsed, mMap, id);
      TotalAppend(Without(mPolicy.mLeastUsed, id), mMap, id);
      mPolicy.Use(id);
    }

    method Update(id: Fingerprint, newSize: nat)
      requires Valid() && id in mMap
      modifies this`mMap, mPolicy
      ensures Valid() && mMap == old(mMap)[id := old(mMap[id]).(size := newSize)]
      ensures mPolicy.mLeastUsed == Without(old(mPolicy.mLeastUsed), id) + [id]
      ensures mPolicy.mFreeSpace == old(mPolicy.mFreeSpace) + old(mMap[id].size) - newSize
    {
      var oldSize := mMap[id].size;
      var m := mMap[id := mMap[id].(size := newSize)];
      ghost var others := Without(mPolicy.mLeastUsed, id);
      WithoutIsDistinct(mPolicy.mLeastUsed, id);
      TotalWithout(mPolicy.mLeastUsed, mMap, id);
      TotalFrame(others, mMap, m);
      TotalAppend(others, m, id);
      mMap := m;
      mPolicy.UseAndUpdate(id, oldSize, newSize);
    }

    /** Evicts from the front of the recency list until `required` bytes are free, or
        nothing is left.  That frees enough exactly when the total is enough. */
    method Alloc(required: nat) returns (ok: bool)
      requires Valid()
      modifies this`mMap, mPolicy`mFreeSpace, mPolicy`mLeastUsed
      ensures Valid() && ok == mPolicy.Cachable(required)
      ensures !ok ==> mMap == old(mMap) && mPolicy.mLeastUsed == old(mPolicy.mLeastUsed)
      ensures ok ==> AfterEvictions(old(mPolicy.mLeastUsed), old(mMap), old(mPolicy.mFreeSpace), required)
      ensures ok ==> (required <= mPolicy.mFreeSpace <==> required <= mPolicy.mTotalSize)
      ensures ok && mPolicy.mTotalSize < required ==> mMap == map[] && mPolicy.mFreeSpace == mPolicy.mTotalSize
    {
      ok := mPolicy.Cachable(required);
      if !ok {
        return;
      }
      EvictWhileNeeded(required);
    }

    /** The state that Evictions(...) evictions from the given one lead to. */
    ghost predicate AfterEvictions(list: seq<Fingerprint>, m: map<Fingerprint, Entry>, free: int, required: nat)
      requires forall x :: x in list ==> x in m
      reads this, mPolicy
    {
      var k := Evictions(list, m, free, required);
      mPolicy.mLeastUsed == list[k..] && mMap == m - First(list, k)
    }

    method EvictWhileNeeded(required: nat)
      requires Valid()
      modifies this`mMap, mPolicy`mFreeSpace, mPolicy`mLeastUsed
      ensures Valid() && !mPolicy.MustEvict(required)
      ensures AfterEvictions(old(mPolicy.mLeastUsed), old(mMap), old(mPolicy.mFreeSpace), required)
      decreases |mPolicy.mLeastUsed|
    {
      hide Progress, AfterEvictions, Valid;
      ghost var list, m, free, gone: nat := mPolicy.mLeastUsed, mMap, mPolicy.mFreeSpace, 0;
      ProgressStarts(required);
      while mPolicy.MustEvict(required)
        invariant Valid() && Progress(list, m, free, required, gone)
        decreases |mPolicy.mLeastUsed|
      {
        EvictFront(list, m, free, required, gone);
        gone := gone + 1;
      }
      ProgressEnds(list, m, free, required, gone);
    }

    lemma ProgressStarts(required: nat)
      requires Valid()
      ensures Progress(mPolicy.mLeastUsed, mMap, mPolicy.mFreeSpace, required, 0)
    {
      NothingEvicted(mPolicy.mLeastUsed, mMap);
    }

    lemma ProgressEnds(list: seq<Fingerprint>, m: map<Fingerprint, Entry>, free: int, required: nat, gone: nat)
      requires Progress(list, m, free, required, gone) && !mPolicy.MustEvict(required)
      ensures (forall x :: x in list ==> x in m) && AfterEvictions(list, m, free, required)
    {
      EvictionsDone(list[gone..], m, mPolicy.mFreeSpace, required);
    }

    method EvictFront(ghost list: seq<Fingerprint>, ghost m: map<Fingerprint, Entry>, ghost free: int,
                      required: nat, ghost gone: nat)
      requires Valid() && mPolicy.MustEvict(required) && Progress(list, m, free, required, gone)
      modifies this`mMap, mPolicy`mFreeSpace, mPolicy`mLeastUsed
      ensures Valid() && Progress(list, m, free, required, gone + 1)
      ensures |mPolicy.mLeastUsed| < |old(mPolicy.mLeastUsed)|
    {
      hide Distinct, ByLastUse, Total, Without, Evictions, First;
      EvictionStep(list, m, mPolicy.mFreeSpace, required, gone);
      var toDelete := mPolicy.mLeastUsed[0];
      Erase(toDelete);
    }

    /** After `gone` evictions, the rest of the count is still to come. */
    ghost predicate Progress(list: seq<Fingerprint>, m: map<Fingerprint, Entry>, free: int, required: nat, gone: nat)
      reads this, mPolicy
    {
      && gone <= |list| && Distinct(list)
      && (forall x :: x in list ==> x in m)
      && mPolicy.mLeastUsed == list[gone..]
      && mMap == m - First(list, gone)
      && gone + Evictions(list[gone..], m, mPolicy.mFreeSpace, required) == Evictions(list, m, free, required)
    }
  }
}
