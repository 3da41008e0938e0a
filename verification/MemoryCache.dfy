/** The in-memory cache layer (libcore/src/transfer/MemoryCacheLayer.hpp): a bounded map
    from fingerprints to sparse files.  It must never answer with bytes that are not the
    file's. */
module MemoryCaches {
  import opened ByteStrings
  import opened Options
  import opened Ranges
  import opened SparseFiles
  import opened CacheMaps

  class MemoryCache {
    const mData: CacheMap
    /** The file each fingerprint stands for. */
    ghost const files: Fingerprint -> seq<Byte>

    /** Every entry holds true slices of its file, and the recorded sizes, which the free
        space accounts for, are the space in use. */
    ghost predicate Valid()
      reads this, mData, mData.mPolicy
    {
      && mData.Valid()
      && forall id :: id in mData.mMap ==> Sound(id, mData.mMap[id])
    }

    ghost predicate Sound(id: Fingerprint, e: Entry) {
      Faithful(e.sparse, files(id)) && e.size == Space(e.sparse)
    }

    constructor (policy: LRUPolicy, ghost files: Fingerprint -> seq<Byte>)
      requires policy.Valid() && policy.mLeastUsed == [] && policy.mFreeSpace == policy.mTotalSize
      ensures Valid() && this.files == files && mData.mMap == map[] && mData.mPolicy == policy && fresh(mData)
    {
      mData := new CacheMap(policy);
      this.files := files;
    }

    /** The state after a piece was added to the cache described by the last three
        arguments: the least recently used entries gave way, the piece was merged into
        its file's entry, and that entry is now the most recently used. */
    ghost predicate Populated(id: Fingerprint, piece: Dense,
                              list: seq<Fingerprint>, m: map<Fingerprint, Entry>, free: int)
      requires forall x :: x in list ==> x in m
      reads mData, mData.mPolicy
    {
      var k := Evictions(list, m, free, piece.range.length);
      Merged(id, piece, list[k..], m - First(list, k))
    }

    ghost predicate Merged(id: Fingerprint, piece: Dense, list: seq<Fingerprint>, m: map<Fingerprint, Entry>)
      reads mData, mData.mPolicy
    {
      && mData.mPolicy.mLeastUsed == Without(list, id) + [id]
      && mData.mMap.Keys == m.Keys + {id}
      && mData.mMap[id].sparse == Insert(if id in m then m[id].sparse else [], piece)
      && (forall x :: x in m && x != id ==> mData.mMap[x] == m[x])
    }

    /** `populateCache`: makes room for the piece and adds it to the file's entry.  The
        budget is overdrawn exactly when a piece larger than the whole budget was
        admitted. */
    method PopulateCache(id: Fingerprint, piece: Dense)
      requires Valid() && SliceOf(piece, files(id))
      modifies mData`mMap, mData.mPolicy
      ensures Valid()
      ensures var n, limit := piece.range.length, mData.mPolicy.mTotalSize as real * mData.mPolicy.mMaxSizePct;
              mData.mPolicy.Cachable(n) <==> n < 0x8000_0000_0000_0000 && n as real < limit
      ensures !mData.mPolicy.Cachable(piece.range.length) ==>
                mData.mMap == old(mData.mMap) && mData.mPolicy.mLeastUsed == old(mData.mPolicy.mLeastUsed)
                && mData.mPolicy.mFreeSpace == old(mData.mPolicy.mFreeSpace)
      ensures mData.mPolicy.Cachable(piece.range.length) ==>
                (0 <= mData.mPolicy.mFreeSpace <==> piece.range.length <= mData.mPolicy.mTotalSize)
      ensures mData.mPolicy.Cachable(piece.range.length) ==>
                Populated(id, piece, old(mData.mPolicy.mLeastUsed), old(mData.mMap), old(mData.mPolicy.mFreeSpace))
    {
      var ok := mData.Alloc(piece.range.length);
      if ok {
        SubmapIsSound(old(mData.mMap), mData.mMap);
        Merge(id, piece);
      }
    }

    /** Adds the piece once there is room for it. */
    method Merge(id: Fingerprint, piece: Dense)
      requires mData.Valid() && SliceOf(piece, files(id))
      requires forall x :: x in mData.mMap ==> Sound(x, mData.mMap[x])
      modifies mData`mMap, mData.mPolicy
      ensures mData.Valid() && old(mData.mPolicy.mFreeSpace) - piece.range.length <= mData.mPolicy.mFreeSpace
      ensures id !in old(mData.mMap) ==> mData.mPolicy.mFreeSpace == old(mData.mPolicy.mFreeSpace) - piece.range.length
      ensures forall x :: x in mData.mMap ==> Sound(x, mData.mMap[x])
      ensures Merged(id, piece, old(mData.mPolicy.mLeastUsed), old(mData.mMap))
    {
      hide Sound, Faithful, Insert, Without, SliceOf, Total;
      ghost var list := mData.mPolicy.mLeastUsed;
      var newEntry := mData.Insert(id, piece.range.length);
      if newEntry {
        StoreNew(id, piece, list);
      } else {
        assert list + [] == list;
        AddToExisting(id, piece);
      }
    }

    lemma SoundIsNormal(id: Fingerprint, e: Entry)
      requires Sound(id, e)
      ensures Normal(e.sparse)
    {
    }

    lemma SubmapIsSound(m: map<Fingerprint, Entry>, m': map<Fingerprint, Entry>)
      requires forall id :: id in m ==> Sound(id, m[id])
      requires forall id :: id in m' ==> id in m && m'[id] == m[id]
      ensures forall id :: id in m' ==> Sound(id, m'[id])
    {
    }

    /** The entry has just been created with the piece's length as its size. */
    method StoreNew(id: Fingerprint, piece: Dense, ghost list: seq<Fingerprint>)
      requires mData.Valid() && id in mData.mMap && mData.mMap[id] == Entry([], piece.range.length)
      requires SliceOf(piece, files(id)) && id !in list && mData.mPolicy.mLeastUsed == list + [id]
      requires forall x :: x in mData.mMap && x != id ==> Sound(x, mData.mMap[x])
      modifies mData`mMap, mData.mPolicy
      ensures mData.Valid() && mData.mPolicy.mFreeSpace == old(mData.mPolicy.mFreeSpace)
      ensures forall x :: x in mData.mMap ==> Sound(x, mData.mMap[x])
      ensures id in mData.mMap && mData.mMap == old(mData.mMap)[id := mData.mMap[id]]
      ensures mData.mMap[id].sparse == Insert([], piece)
      ensures mData.mPolicy.mLeastUsed == Without(list, id) + [id]
    {
      var sparse := AddToList(piece, []);
      AddingStaysFaithful([], piece, files(id));
      InsertIntoEmpty(piece);
      mData.Store(id, sparse);
      mData.Use(id);
      WithoutAbsent(list, id);
    }

    method AddToExisting(id: Fingerprint, piece: Dense)
      requires mData.Valid() && id in mData.mMap && SliceOf(piece, files(id))
      requires forall x :: x in mData.mMap ==> Sound(x, mData.mMap[x])
      modifies mData`mMap, mData.mPolicy
      ensures mData.Valid() && old(mData.mPolicy.mFreeSpace) - piece.range.length <= mData.mPolicy.mFreeSpace
      ensures forall x :: x in mData.mMap ==> Sound(x, mData.mMap[x])
      ensures id in mData.mMap && mData.mMap == old(mData.mMap)[id := mData.mMap[id]]
      ensures mData.mMap[id].sparse == Insert(old(mData.mMap[id].sparse), piece)
      ensures mData.mPolicy.mLeastUsed == Without(old(mData.mPolicy.mLeastUsed), id) + [id]
    {
      hide Faithful, Insert, Without, SliceOf, Total, Space;
      ghost var before := mData.mMap[id].sparse;
      assert Normal(before) by {
        SoundIsNormal(id, mData.mMap[id]);
      }
      var sparse := AddToList(piece, mData.mMap[id].sparse);
      AddingStaysFaithful(before, piece, files(id));
      InsertSpace(before, piece);
      mData.Store(id, sparse);
      var used := GetSpaceUsed(sparse);
      mData.Update(id, used);
    }

    method PurgeFromCache(id: Fingerprint)
      requires Valid()
      modifies mData`mMap, mData.mPolicy`mFreeSpace, mData.mPolicy`mLeastUsed
      ensures Valid() && mData.mMap == old(mData.mMap) - {id}
      ensures old(mData.mPolicy.mFreeSpace) <= mData.mPolicy.mFreeSpace
    {
      if id in mData.mMap {
        mData.Erase(id);
      }
    }

    /** `getData`: a hit passes on pieces that cover the whole request; None stands for
        asking the next layer.  Looking data up is not a use. */
    method GetData(id: Fingerprint, requested: Range) returns (found: Option<seq<Dense>>)
      requires Valid()
      ensures found.Some? <==> id in mData.mMap && Contained(requested, mData.mMap[id].sparse)
      ensures found.Some? ==> Faithful(found.value, files(id)) && Contained(requested, found.value)
    {
      found := None;
      if id in mData.mMap {
        var have := IsContainedBy(requested, mData.mMap[id].sparse);
        if have {
          found := Some(mData.mMap[id].sparse);
        }
      }
    }
  }

  method GetSpaceUsed(list: seq<Dense>) returns (length: nat)
    ensures length == Space(list)
  {
    length := 0;
    for iter := 0 to |list|
      invariant length + Space(list[iter..]) == Space(list)
    {
      assert list[iter..][1..] == list[iter + 1..];
      length := length + list[iter].range.length;
    }
  }

  lemma InsertIntoEmpty(p: Dense)
    ensures Space(Insert([], p)) == p.range.length
  {
    if p.range.length != 0 {
      assert Insert([], p) == [p];
    }
  }

  lemma {:induction false} WithoutAbsent(list: seq<Fingerprint>, id: Fingerprint)
    requires id !in list
    ensures Without(list, id) == list && Without(list + [id], id) == list
    decreases |list|
  {
    if list == [] {
      assert list + [id] == [id];
    } else {
      assert (list + [id])[1..] == list[1..] + [id];
      WithoutAbsent(list[1..], id);
    }
  }

  // ----- whole runs -----

  datatype Operation =
    | Populate(id: Fingerprint, piece: Dense)
    | Purge(id: Fingerprint)
    | Get(id: Fingerprint, range: Range)

  /** A hit on `range` may answer only with the file's own bytes, all of them. */
  ghost predicate Transparent(range: Range, answer: seq<Dense>, file: seq<Byte>) {
    && Faithful(answer, file)
    && Contained(range, answer)
    && forall offset: nat :: range.Covers(offset) && offset < |file| ==> ReadsAs(answer, offset, file)
  }

  ghost predicate ReadsAs(answer: seq<Dense>, offset: nat, file: seq<Byte>)
    requires offset < |file|
  {
    Allocated(answer) &&
    var r := DataAt(answer, offset);
    0 < r.length && offset + r.length <= |file| && r.data == Some(file[offset..offset + r.length])
  }

  lemma HitIsTransparent(range: Range, answer: seq<Dense>, file: seq<Byte>)
    requires Faithful(answer, file) && Contained(range, answer) && |file| < WORD64
    ensures Transparent(range, answer, file)
  {
    forall offset: nat | range.Covers(offset) && offset < |file| ensures ReadsAs(answer, offset, file) {
      DataAtAgreesWithFile(answer, file, offset);
    }
  }

  ghost predicate AnswersTruly(op: Operation, answer: Option<seq<Dense>>, files: Fingerprint -> seq<Byte>) {
    answer.Some? ==> op.Get? && Transparent(op.range, answer.value, files(op.id))
  }

  ghost predicate Truthful(op: Operation, files: Fingerprint -> seq<Byte>) {
    op.Populate? ==> SliceOf(op.piece, files(op.id))
  }

  /** An admitted piece that is larger than the whole budget. */
  predicate Oversized(op: Operation, total: nat, maxPct: real) {
    op.Populate? && Admits(total, maxPct, op.piece.range.length) && total < op.piece.range.length
  }

  /** With a fraction above 1 such pieces exist: three times a budget of one byte takes
      in two bytes. */
  lemma OversizedPieceExists()
    ensures var piece := Piece(Range(0, 2, false), [7, 7]);
            SliceOf(piece, [7, 7]) && Oversized(Populate(0, piece), 1, 3.0)
  {
  }

  method Perform(cache: MemoryCache, op: Operation) returns (answer: Option<seq<Dense>>)
    requires cache.Valid() && Truthful(op, cache.files) && |cache.files(op.id)| < WORD64
    modifies cache.mData`mMap, cache.mData.mPolicy
    ensures cache.Valid() && AnswersTruly(op, answer, cache.files)
    ensures cache.mData.mPolicy.mFreeSpace <= cache.mData.mPolicy.mTotalSize
    ensures var policy := cache.mData.mPolicy;
            if Oversized(op, policy.mTotalSize, policy.mMaxSizePct) then policy.mFreeSpace < 0
            else 0 <= policy.mFreeSpace || policy.mFreeSpace >= old(cache.mData.mPolicy.mFreeSpace)
  {
    answer := None;
    match op {
      case Populate(id, piece) => cache.PopulateCache(id, piece);
      case Purge(id) => cache.PurgeFromCache(id);
      case Get(id, range) =>
        answer := cache.GetData(id, range);
        if answer.Some? {
          HitIsTransparent(range, answer.value, cache.files(id));
        }
    }
  }

  /** The free space recorded after each of some operations, and now. */
  ghost predicate Accounted(operations: seq<Operation>, free: seq<int>, now: int, total: nat, maxPct: real) {
    && |free| == |operations|
    && (forall j :: 0 <= j < |free| ==> free[j] <= total)
    && (forall j :: 0 <= j < |free| && Oversized(operations[j], total, maxPct) ==> free[j] < 0)
    && ((forall j :: 0 <= j < |free| ==> !Oversized(operations[j], total, maxPct)) ==>
          0 <= now && forall j :: 0 <= j < |free| ==> 0 <= free[j])
  }

  lemma AccountedStarts(total: nat, maxPct: real)
    ensures Accounted([], [], total, total, maxPct)
  {
  }

  lemma AccountedStep(operations: seq<Operation>, i: nat, free: seq<int>, now: int, now': int, total: nat, maxPct: real)
    requires i < |operations| && Accounted(operations[..i], free, now, total, maxPct) && now' <= total
    requires if Oversized(operations[i], total, maxPct) then now' < 0 else 0 <= now' || now <= now'
    ensures Accounted(operations[..i + 1], free + [now'], now', total, maxPct)
  {
    hide Oversized;
    var old', new' := operations[..i], operations[..i + 1];
    assert forall j :: 0 <= j < i ==> new'[j] == old'[j];
    assert new'[i] == operations[i];
  }

  lemma AccountedBudget(operations: seq<Operation>, free: seq<int>, now: int, total: nat, maxPct: real)
    requires Accounted(operations, free, now, total, maxPct)
    ensures |free| == |operations| && forall i :: 0 <= i < |operations| ==> free[i] <= total
    ensures (forall i :: 0 <= i < |operations| ==> 0 <= free[i])
       <==> (forall i :: 0 <= i < |operations| ==> !Oversized(operations[i], total, maxPct))
    ensures maxPct <= 1.0 ==> forall i :: 0 <= i < |operations| ==> 0 <= free[i]
  {
    AdmissionLimit(total, maxPct);
  }

  /** Any run of the cache, from empty: every hit is transparent, and the budget is kept
      throughout if and only if no oversized piece is admitted. */
  method Run(operations: seq<Operation>, total: nat, maxPct: real, ghost files: Fingerprint -> seq<Byte>)
    returns (answers: seq<Option<seq<Dense>>>, free: seq<int>)
    requires forall id :: |files(id)| < WORD64
    requires forall i :: 0 <= i < |operations| ==> Truthful(operations[i], files)
    ensures |answers| == |free| == |operations|
    ensures forall i :: 0 <= i < |operations| ==> AnswersTruly(operations[i], answers[i], files)
    ensures forall i :: 0 <= i < |operations| ==> free[i] <= total
    ensures (forall i :: 0 <= i < |operations| ==> 0 <= free[i])
       <==> (forall i :: 0 <= i < |operations| ==> !Oversized(operations[i], total, maxPct))
    ensures maxPct <= 1.0 ==> forall i :: 0 <= i < |operations| ==> 0 <= free[i]
  {
    hide Truthful, AnswersTruly, Oversized, Accounted, MemoryCache.Valid;
    var policy := new LRUPolicy(total, maxPct);
    var cache := new MemoryCache(policy, files);
    answers, free := [], [];
    AccountedStarts(total, maxPct);
    for i := 0 to |operations|
      invariant cache.Valid() && fresh(cache.mData) && fresh(cache.mData.mPolicy) && cache.files == files
      invariant cache.mData.mPolicy.mTotalSize == total && cache.mData.mPolicy.mMaxSizePct == maxPct
      invariant |answers| == i
      invariant forall j :: 0 <= j < i ==> AnswersTruly(operations[j], answers[j], files)
      invariant Accounted(operations[..i], free, cache.mData.mPolicy.mFreeSpace, total, maxPct)
    {
      ghost var before := cache.mData.mPolicy.mFreeSpace;
      var answer := Perform(cache, operations[i]);
      answers := answers + [answer];
      AccountedStep(operations, i, free, before, cache.mData.mPolicy.mFreeSpace, total, maxPct);
      free := free + [cache.mData.mPolicy.mFreeSpace];
    }
    assert operations[..|operations|] == operations;
    AccountedBudget(operations, free, cache.mData.mPolicy.mFreeSpace, total, maxPct);
  }
}
