/** A file of which only some pieces are at hand (`SparseData` in
    libcore/src/transfer/TransferData.hpp). */
module SparseFiles {
  import opened ByteStrings
  import opened Options
  import opened Ranges

  type Dense = Piece<seq<Byte>>

  /** The piece is a true slice of the file, and if it claims to reach the end of the
      file, it does. */
  ghost predicate SliceOf(p: Dense, file: seq<Byte>) {
    && p.range.End() <= |file|
    && p.data == file[p.range.start..p.range.End()]
    && (p.range.toEof ==> p.range.End() == |file|)
  }

  ghost predicate Faithful(list: seq<Dense>, file: seq<Byte>) {
    Normal(list) && forall i :: 0 <= i < |list| ==> SliceOf(list[i], file)
  }

  lemma AddingStaysFaithful(list: seq<Dense>, p: Dense, file: seq<Byte>)
    requires Faithful(list, file) && SliceOf(p, file)
    ensures Faithful(Insert(list, p), file)
  {
    InsertIsNormal(list, p);
    InsertKeeps(list, p);
    var result := Insert(list, p);
    forall i | 0 <= i < |result| ensures SliceOf(result[i], file) {
      assert result[i] in result;
    }
  }

  const WORD64 := 0x1_0000_0000_0000_0000

  /** `data` is what lies behind the returned pointer, None for NULL. */
  datatype Lookup = Lookup(data: Option<seq<Byte>>, length: nat)

  /** DenseData::dataAt. */
  function DenseDataAt(p: Dense, offset: nat): Option<seq<Byte>>
    requires |p.data| == p.range.length
  {
    if offset >= p.range.End() || offset < p.range.start then None
    else Some(p.data[offset - p.range.start..])
  }

  ghost predicate Allocated(list: seq<Dense>) {
    forall i :: 0 <= i < |list| ==> |list[i].data| == list[i].range.length
  }

  function DataAt(list: seq<Dense>, offset: nat): (r: Lookup)
    requires Allocated(list)
  {
    if list == [] then Lookup(None, 0)
    else
      var r := list[0].range;
      if r.Covers(offset) then Lookup(DenseDataAt(list[0], offset), (r.End() - offset) % WORD64)
      else if offset < r.start then Lookup(None, r.start - offset)
      else DataAt(list[1..], offset)
  }

  method FindDataAt(list: seq<Dense>, offset: nat) returns (r: Lookup)
    requires Allocated(list)
    ensures r == DataAt(list, offset)
  {
    for iter := 0 to |list|
      invariant DataAt(list[iter..], offset) == DataAt(list, offset)
    {
      var range := list[iter].range;
      assert list[iter..][1..] == list[iter + 1..];
      if offset >= range.start && (range.toEof || offset < range.End()) {
        return Lookup(DenseDataAt(list[iter], offset), (range.length + (range.start - offset)) % WORD64);
      } else if offset < range.start {
        return Lookup(None, range.start - offset);
      }
    }
    return Lookup(None, 0);
  }

  /** A covered offset is looked up in a piece that covers it. */
  lemma {:induction false} DataAtFindsPiece(list: seq<Dense>, offset: nat) returns (i: nat)
    requires Normal(list) && Allocated(list) && Covered(list, offset)
    ensures i < |list| && list[i].range.Covers(offset)
    ensures DataAt(list, offset) == Lookup(DenseDataAt(list[i], offset), (list[i].range.End() - offset) % WORD64)
    decreases |list|
  {
    if list[0].range.Covers(offset) {
      i := 0;
    } else {
      var j :| 0 <= j < |list| && list[j].range.Covers(offset);
      assert Before(list[0].range, list[j].range);
      assert list[1..][j - 1] == list[j];
      i := DataAtFindsPiece(list[1..], offset);
      i := i + 1;
    }
  }

  /** On a list of true slices, a covered offset inside the file yields exactly the
      file's bytes from there on, up to the end of a piece that covers it. */
  lemma DataAtAgreesWithFile(list: seq<Dense>, file: seq<Byte>, offset: nat)
    requires Faithful(list, file) && Covered(list, offset)
    requires offset < |file| < WORD64
    ensures var r := DataAt(list, offset);
            && 0 < r.length && offset + r.length <= |file|
            && r.data == Some(file[offset..offset + r.length])
            && exists i :: 0 <= i < |list| && list[i].range.Covers(offset) && offset + r.length == list[i].range.End()
  {
    hide DataAt, Normal, Covered;
    var i := DataAtFindsPiece(list, offset);
    assert SliceOf(list[i], file);
  }

  lemma CoveredSplit(list: seq<Dense>, b: nat)
    requires list != []
    ensures Covered(list, b) <==> list[0].range.Covers(b) || Covered(list[1..], b)
  {
    if Covered(list, b) {
      var i :| 0 <= i < |list| && list[i].range.Covers(b);
      assert 0 < i ==> list[1..][i - 1] == list[i];
    }
    if Covered(list[1..], b) {
      var i :| 0 <= i < |list[1..]| && list[1..][i].range.Covers(b);
      assert list[i + 1].range.Covers(b);
    }
  }

  /** Where nothing is covered, NULL comes back with the distance to the next piece, or
      with zero when there is none. */
  lemma {:induction false} DataAtReportsGap(list: seq<Dense>, offset: nat)
    requires Normal(list) && Allocated(list) && !Covered(list, offset)
    ensures var r := DataAt(list, offset);
            && r.data == None
            && (r.length == 0 <==> forall i :: 0 <= i < |list| ==> list[i].range.start <= offset)
            && forall b: nat :: offset <= b < offset + r.length ==> !Covered(list, b)
    ensures var r := DataAt(list, offset);
            0 < r.length ==> Covered(list, offset + r.length)
    decreases |list|
  {
    if list != [] {
      assert !list[0].range.Covers(offset);
      if offset < list[0].range.start {
        assert list[0].range.Covers(list[0].range.start);
      } else {
        var rest := list[1..];
        assert forall i :: 0 <= i < |rest| ==> rest[i] == list[i + 1];
        forall b: nat ensures Covered(list, b) <==> list[0].range.Covers(b) || Covered(rest, b) {
          CoveredSplit(list, b);
        }
        DataAtReportsGap(rest, offset);
        assert !list[0].range.toEof && list[0].range.End() <= offset;
      }
    }
  }

  /** Offsets at or past the end of the file are covered exactly when an end-of-file
      piece is at hand.  NULL comes back for them too, but the length is then neither a
      distance nor, except at the very end of the file, zero: it has wrapped around. */
  lemma {:induction false} DataAtPastTheEnd(list: seq<Dense>, file: seq<Byte>, offset: nat)
    requires Faithful(list, file) && |file| <= offset < WORD64
    ensures Covered(list, offset) <==> exists i :: 0 <= i < |list| && list[i].range.toEof
    ensures var r := DataAt(list, offset);
            r == Lookup(None, if Covered(list, offset) then (|file| - offset) % WORD64 else 0)
    ensures DataAt(list, offset).length == 0 <==> offset == |file| || !Covered(list, offset)
    decreases |list|
  {
    if list != [] {
      assert SliceOf(list[0], file);
      var rest := list[1..];
      assert forall i :: 0 <= i < |rest| ==> rest[i] == list[i + 1];
      CoveredSplit(list, offset);
      DataAtPastTheEnd(rest, file, offset);
    }
  }

  /** The documentation of `dataAt` promises length 0 where no valid data follows.  It is
      kept at every offset of a file if and only if no end-of-file piece is at hand, or
      the offset is not past the file's end. */
  lemma NothingFollowsReportsZero(list: seq<Dense>, file: seq<Byte>, offset: nat)
    requires Faithful(list, file) && offset < WORD64 && |file| < WORD64
    requires forall b: nat :: offset <= b < |file| ==> !Covered(list, b)
    ensures DataAt(list, offset).data == None
    ensures DataAt(list, offset).length == 0 <==>
              offset <= |file| || forall i :: 0 <= i < |list| ==> !list[i].range.toEof
  {
    if |file| <= offset {
      DataAtPastTheEnd(list, file, offset);
    } else {
      DataAtReportsGap(list, offset);
      forall i | 0 <= i < |list| ensures list[i].range.start <= offset {
        assert SliceOf(list[i], file) && list[i].range.Covers(list[i].range.start);
        assert Covered(list, list[i].range.start);
      }
    }
  }

  /** A one-byte file at hand as a whole, asked for what lies two bytes in. */
  lemma WrappedLength()
    ensures var list := [Piece(Range(0, 1, true), [7])];
            Faithful(list, [7]) && DataAt(list, 2) == Lookup(None, WORD64 - 1)
  {
  }

  /** A request that `isContainedBy` accepts can be read off the pieces byte by byte. */
  lemma ContainedMeansReadable(q: Range, list: seq<Dense>, file: seq<Byte>, offset: nat)
    requires Faithful(list, file) && Contained(q, list)
    requires (q.Covers(offset) || offset == q.start) && offset < |file| < WORD64
    ensures var r := DataAt(list, offset);
            r.data.Some? && 0 < |r.data.value| && r.data.value[0] == file[offset]
  {
    DataAtAgreesWithFile(list, file, offset);
  }
}
