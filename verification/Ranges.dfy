/** Byte ranges of a file and sorted lists of them (libcore/src/transfer/Range.hpp).
    A range that goes to the end of the file stands for every byte from its start on,
    although only `length` of them are at hand. */
module Ranges {

  datatype Range = Range(start: nat, length: nat, toEof: bool) {
    function End(): nat { start + length }

    /** The bytes a range stands for. */
    predicate Covers(b: nat) { start <= b && (toEof || b < End()) }

    predicate Contains(other: Range) {
      if toEof then start <= other.start
      else !other.toEof && start <= other.start && other.End() <= End()
    }
  }

  /** A list element: a bare range, or a range with its data. */
  datatype Piece<+T> = Piece(range: Range, data: T)

  /** The single-range test agrees with the bytes covered, for every range that
      covers any. */
  lemma ContainsMeansCovers(a: Range, b: Range)
    requires 0 < b.length || b.toEof
    ensures a.Contains(b) <==> forall x: nat :: b.Covers(x) ==> a.Covers(x)
  {
    assert b.Covers(b.start);
    if !a.Contains(b) && a.Covers(b.start) {
      var x := if b.toEof then (if a.End() < b.start then b.start else a.End()) else b.End() - 1;
      assert b.Covers(x) && !a.Covers(x);
    }
  }

  // ----- lists in normal form -----

  /** Starts strictly increase, ends weakly increase, and only the last range may go to
      the end of the file. */
  ghost predicate Normal<T>(list: seq<Piece<T>>) {
    && (forall i :: 0 <= i < |list| ==> 0 < list[i].range.length)
    && (forall i, j :: 0 <= i < j < |list| ==> Before(list[i].range, list[j].range))
  }

  predicate Before(a: Range, b: Range) {
    a.start < b.start && !a.toEof && (b.toEof || a.End() <= b.End())
  }

  ghost predicate Covered<T>(list: seq<Piece<T>>, b: nat) {
    exists i :: 0 <= i < |list| && list[i].range.Covers(b)
  }

  // ----- adding a piece -----

  /** How many leading pieces start below `s`. */
  function Below<T>(list: seq<Piece<T>>, s: nat): (k: nat)
    ensures k <= |list|
    ensures forall i :: 0 <= i < k ==> list[i].range.start < s
    ensures k < |list| ==> s <= list[k].range.start
  {
    if list == [] || s <= list[0].range.start then 0 else 1 + Below(list[1..], s)
  }

  /** `x` alone makes `r` superfluous. */
  predicate Subsumes(x: Range, r: Range) {
    x.start <= r.start && (x.toEof || (r.End() < x.End() && !r.toEof))
  }

  predicate AnySubsumes<T>(list: seq<Piece<T>>, r: Range) {
    exists i :: 0 <= i < |list| && Subsumes(list[i].range, r)
  }

  /** The pieces from r's start on that r does not make superfluous. */
  function Surviving<T>(list: seq<Piece<T>>, r: Range): (kept: seq<Piece<T>>)
    ensures forall i :: 0 <= i < |kept| ==> kept[i] in list && !Erases(r, kept[i].range)
    ensures forall x :: x in list && !Erases(r, x.range) ==> x in kept
  {
    if list == [] then []
    else if Erases(r, list[0].range) then Surviving(list[1..], r)
    else [list[0]] + Surviving(list[1..], r)
  }

  predicate Erases(r: Range, x: Range) { r.toEof || (!x.toEof && x.End() <= r.End()) }

  function Insert<T>(list: seq<Piece<T>>, p: Piece<T>): (result: seq<Piece<T>>) {
    var r := p.range;
    if r.length == 0 then list
    else if r.start == 0 && r.toEof then [p]
    else if AnySubsumes(list, r) then list
    else
      var k := Below(list, r.start);
      list[..k] + [p] + Surviving(list[k..], r)
  }

  lemma {:induction false} SurvivingIsNormal<T>(list: seq<Piece<T>>, r: Range)
    requires Normal(list)
    ensures Normal(Surviving(list, r))
    decreases |list|
  {
    if list != [] {
      SurvivingIsNormal(list[1..], r);
      var rest := Surviving(list[1..], r);
      assert forall i :: 0 <= i < |rest| ==> rest[i] in list[1..];
      assert forall x :: x in list[1..] ==> Before(list[0].range, x.range);
    }
  }

  lemma JoinIsNormal<T>(low: seq<Piece<T>>, p: Piece<T>, high: seq<Piece<T>>)
    requires Normal(low) && Normal(high) && 0 < p.range.length
    requires forall i :: 0 <= i < |low| ==> Before(low[i].range, p.range)
    requires forall j :: 0 <= j < |high| ==> Before(p.range, high[j].range)
    ensures Normal(low + [p] + high)
  {
  }

  /** The piece fits between what stays on either side of it. */
  lemma InsertionFits<T>(list: seq<Piece<T>>, r: Range)
    requires Normal(list) && !AnySubsumes(list, r)
    ensures forall i :: 0 <= i < Below(list, r.start) ==> Before(list[i].range, r)
    ensures forall x :: x in list[Below(list, r.start)..] && !Erases(r, x.range) ==> Before(r, x.range)
  {
    var k := Below(list, r.start);
    forall i | 0 <= i < k ensures Before(list[i].range, r) {
      assert !Subsumes(list[i].range, r);
    }
    forall j | k <= j < |list| && !Erases(r, list[j].range) ensures Before(r, list[j].range) {
      assert !Subsumes(list[j].range, r);
      assert list[k].range.start <= list[j].range.start;
    }
  }

  /** Adding a piece keeps the list in normal form. */
  lemma InsertIsNormal<T>(list: seq<Piece<T>>, p: Piece<T>)
    requires Normal(list)
    ensures Normal(Insert(list, p))
  {
    var r := p.range;
    if r.length != 0 && !(r.start == 0 && r.toEof) && !AnySubsumes(list, r) {
      var k := Below(list, r.start);
      SurvivingIsNormal(list[k..], r);
      InsertionFits(list, r);
      JoinIsNormal(list[..k], p, Surviving(list[k..], r));
    }
  }

  /** Adding a piece covers exactly the old bytes and the new ones. */
  lemma InsertCovers<T>(list: seq<Piece<T>>, p: Piece<T>, b: nat)
    requires Normal(list) && 0 < p.range.length
    ensures Covered(Insert(list, p), b) <==> Covered(list, b) || p.range.Covers(b)
  {
    var r, result := p.range, Insert(list, p);
    if r.start == 0 && r.toEof {
      assert result[0] == p;
    } else if AnySubsumes(list, r) {
      var i :| 0 <= i < |list| && Subsumes(list[i].range, r);
      assert r.Covers(b) ==> list[i].range.Covers(b);
    } else {
      var k := Below(list, r.start);
      assert result[k] == p;
      InsertKeeps(list, p);
      if Covered(list, b) {
        var i :| 0 <= i < |list| && list[i].range.Covers(b);
        if list[i] !in result {
          ErasedIsCovered(list, r, i, b);
        }
      }
    }
  }

  lemma ErasedIsCovered<T>(list: seq<Piece<T>>, r: Range, i: nat, b: nat)
    requires Normal(list) && Below(list, r.start) <= i < |list|
    requires Erases(r, list[i].range) && list[i].range.Covers(b)
    ensures r.Covers(b)
  {
    assert list[Below(list, r.start)].range.start <= list[i].range.start;
  }

  /** Which pieces a list has after an insertion. */
  lemma InsertKeeps<T>(list: seq<Piece<T>>, p: Piece<T>)
    ensures forall x :: x in Insert(list, p) ==> x == p || x in list
    ensures var r := p.range;
            !(r.start == 0 && r.toEof) ==>
              forall i :: 0 <= i < |list| && list[i] !in Insert(list, p)
                          ==> Below(list, r.start) <= i && Erases(r, list[i].range)
  {
    hide Surviving, AnySubsumes, Erases, Below;
    var r := p.range;
    if r.length != 0 && !(r.start == 0 && r.toEof) && !AnySubsumes(list, r) {
      var k := Below(list, r.start);
      var kept := Surviving(list[k..], r);
      var result := list[..k] + [p] + kept;
      forall x | x in result ensures x == p || x in list {
        if x in kept {
          assert x in list[k..];
        }
      }
      assert forall i :: 0 <= i < k ==> result[i] == list[i];
      forall i | k <= i < |list| && list[i] !in result ensures Erases(r, list[i].range) {
        assert list[k..][i - k] == list[i];
        assert list[i] !in kept;
      }
    }
  }

  /** The new piece is refused if and only if a single old one contains it and reaches
      further. */
  ghost predicate Refused<T>(list: seq<Piece<T>>, r: Range) {
    && !(r.start == 0 && r.toEof)
    && exists i ::
         0 <= i < |list| && list[i].range.Contains(r) && (list[i].range.toEof || r.End() < list[i].range.End())
  }

  /** Exactly what a list holds after an insertion, in terms of containment alone: the old
      pieces if the new one is refused, and otherwise the new piece with the old ones that
      it does not contain. */
  lemma InsertIsExact<T>(list: seq<Piece<T>>, p: Piece<T>)
    requires Normal(list) && 0 < p.range.length
    ensures Refused(list, p.range) ==> Insert(list, p) == list
    ensures !Refused(list, p.range) ==>
              forall x :: x in Insert(list, p) <==> x == p || (x in list && !p.range.Contains(x.range))
  {
    hide Normal, Below, Surviving;
    var r := p.range;
    if r.start == 0 && r.toEof {
      assert Insert(list, p) == [p];
      return;
    }
    SubsumesMeansContains(list, r);
    if !AnySubsumes(list, r) {
      SplitsAtStart(list, r);
      var k := Below(list, r.start);
      var kept := Surviving(list[k..], r);
      assert Insert(list, p) == list[..k] + [p] + kept;
      assert forall x :: x in kept <==> x in list[k..] && !r.Contains(x.range);
      assert list == list[..k] + list[k..];
    }
  }

  lemma SubsumesMeansContains<T>(list: seq<Piece<T>>, r: Range)
    requires !(r.start == 0 && r.toEof)
    ensures AnySubsumes(list, r) <==> Refused(list, r)
  {
    if AnySubsumes(list, r) {
      var i :| 0 <= i < |list| && Subsumes(list[i].range, r);
      assert list[i].range.Contains(r);
    }
  }

  /** Pieces below the position start below the range, the others do not. */
  lemma SplitsAtStart<T>(list: seq<Piece<T>>, r: Range)
    requires Normal(list)
    ensures var k := Below(list, r.start);
            && (forall x :: x in list[..k] ==> !r.Contains(x.range))
            && (forall x :: x in list[k..] ==> (r.Contains(x.range) <==> Erases(r, x.range)))
  {
    var k := Below(list, r.start);
    forall j | k <= j < |list| ensures r.start <= list[j].range.start {
      assert k < j ==> Before(list[k].range, list[j].range);
    }
  }

  /** Adds a piece in place: finds its position, gives up if an earlier piece makes it
      superfluous, and otherwise inserts it and erases what it makes superfluous. */
  method AddToList<T>(p: Piece<T>, list: seq<Piece<T>>) returns (result: seq<Piece<T>>)
    requires Normal(list)
    ensures result == Insert(list, p)
  {
    var r := p.range;
    result := list;
    if r.length <= 0 {
      return;
    }
    if r.start == 0 && r.toEof {
      result := [p];
      return;
    }
    var iter, superfluous := FindPosition(r, list);
    if superfluous {
      return;
    }
    var tail := EraseSuperfluous(list[iter..], r);
    result := list[..iter] + [p] + tail;
  }

  /** The scanning loop: where the range belongs, and whether it is needed at all. */
  method FindPosition<T>(r: Range, list: seq<Piece<T>>) returns (iter: nat, superfluous: bool)
    requires Normal(list)
    ensures iter == Below(list, r.start)
    ensures superfluous <==> AnySubsumes(list, r)
  {
    var maxend: nat, includesEof := r.start, false;
    iter := 0;
    assert Summary(list, r, 0, maxend, includesEof) && AllBelow(list, r.start, 0);
    hide Summary, Below, AnySubsumes, Normal, Covered, AllBelow;
    ghost var seen := 0;
    while iter < |list|
      invariant 0 <= iter <= |list| && seen == iter
      invariant AllBelow(list, r.start, iter)
      invariant Summary(list, r, seen, maxend, includesEof)
    {
      var x := list[iter].range;
      if x.start > r.start {
        break;
      }
      SummaryStep(list, r, seen, maxend, includesEof);
      if x.End() > maxend {
        maxend := x.End();
      }
      if x.toEof {
        includesEof := true;
      }
      seen := seen + 1;
      if x.start >= r.start {
        break;
      }
      AllBelowStep(list, r.start, iter);
      iter := iter + 1;
    }
    NoneFurtherBelow(list, r, iter, seen);
    superfluous := includesEof || (maxend > r.End() && !r.toEof);
    SummaryDecides(list, r, seen, maxend, includesEof);
  }

  ghost predicate AllBelow<T>(list: seq<Piece<T>>, s: nat, n: nat)
    requires n <= |list|
  {
    forall i :: 0 <= i < n ==> list[i].range.start < s
  }

  lemma AllBelowStep<T>(list: seq<Piece<T>>, s: nat, n: nat)
    requires n < |list| && AllBelow(list, s, n) && list[n].range.start < s
    ensures AllBelow(list, s, n + 1)
  {
  }

  /** Where the scan stops, nothing more starts at or below the range. */
  lemma NoneFurtherBelow<T>(list: seq<Piece<T>>, r: Range, iter: nat, seen: nat)
    requires Normal(list) && iter <= seen <= |list| && AllBelow(list, r.start, iter)
    requires iter < |list| ==> r.start <= list[iter].range.start
    requires seen == iter || (seen == iter + 1 && list[iter].range.start <= r.start)
    requires seen == iter && iter < |list| ==> r.start < list[iter].range.start
    ensures iter == Below(list, r.start)
    ensures forall i :: seen <= i < |list| ==> r.start < list[i].range.start
  {
    BelowIsUnique(list, r.start, iter);
    forall i | seen <= i < |list| ensures r.start < list[i].range.start {
      assert iter < i ==> Before(list[iter].range, list[i].range);
    }
  }

  /** What the scan has gathered from the first n pieces. */
  ghost predicate Summary<T>(list: seq<Piece<T>>, r: Range, n: nat, maxend: nat, includesEof: bool)
    requires n <= |list|
  {
    && (forall i :: 0 <= i < n ==> list[i].range.start <= r.start)
    && (includesEof <==> exists i :: 0 <= i < n && list[i].range.toEof)
    && r.start <= maxend
    && (forall i :: 0 <= i < n ==> list[i].range.End() <= maxend)
    && (maxend == r.start || exists i :: 0 <= i < n && list[i].range.End() == maxend)
  }

  lemma SummaryStep<T>(list: seq<Piece<T>>, r: Range, n: nat, maxend: nat, includesEof: bool)
    requires n < |list| && Summary(list, r, n, maxend, includesEof) && list[n].range.start <= r.start
    ensures var x := list[n].range;
            Summary(list, r, n + 1, if x.End() > maxend then x.End() else maxend, includesEof || x.toEof)
  {
  }

  lemma SummaryDecides<T>(list: seq<Piece<T>>, r: Range, n: nat, maxend: nat, includesEof: bool)
    requires n <= |list| && Summary(list, r, n, maxend, includesEof)
    requires forall i :: n <= i < |list| ==> r.start < list[i].range.start
    ensures (includesEof || (maxend > r.End() && !r.toEof)) <==> AnySubsumes(list, r)
  {
    if maxend > r.End() && !r.toEof {
      var i :| 0 <= i < n && list[i].range.End() == maxend;
      assert Subsumes(list[i].range, r);
    }
    if includesEof {
      var i :| 0 <= i < n && list[i].range.toEof;
      assert Subsumes(list[i].range, r);
    }
  }

  lemma BelowIsUnique<T>(list: seq<Piece<T>>, s: nat, k: nat)
    requires k <= |list| && forall i :: 0 <= i < k ==> list[i].range.start < s
    requires k < |list| ==> s <= list[k].range.start
    ensures Below(list, s) == k
  {
  }

  method EraseSuperfluous<T>(list: seq<Piece<T>>, r: Range) returns (result: seq<Piece<T>>)
    ensures result == Surviving(list, r)
  {
    hide Surviving;
    result := list;
    var iter := 0;
    assert result[iter..] == list;
    while iter < |result|
      invariant 0 <= iter <= |result|
      invariant result[..iter] + Surviving(result[iter..], r) == Surviving(list, r)
      decreases |result| - iter
    {
      ghost var rest := result[iter..];
      SurvivingStep(result[..iter], rest, r);
      if r.toEof || (!result[iter].range.toEof && result[iter].range.End() <= r.End()) {
        result := result[..iter] + result[iter + 1..];
        assert result[iter..] == rest[1..];
      } else {
        assert result[..iter + 1] == result[..iter] + [rest[0]];
        assert result[iter + 1..] == rest[1..];
        iter := iter + 1;
      }
    }
    SurvivingNone<T>(r);
    assert result[iter..] == [] && result[..iter] + [] == result;
  }

  lemma SurvivingNone<T>(r: Range)
    ensures Surviving<T>([], r) == []
  {
  }

  lemma SurvivingStep<T>(done: seq<Piece<T>>, rest: seq<Piece<T>>, r: Range)
    requires rest != []
    ensures done + Surviving(rest, r)
         == (if Erases(r, rest[0].range) then done else done + [rest[0]]) + Surviving(rest[1..], r)
  {
  }

  // ----- looking a range up -----

  /** All bytes the request stands for are covered; an empty request asks for its
      first byte all the same. */
  ghost predicate Contained<T>(q: Range, list: seq<Piece<T>>) {
    Covered(list, q.start) && forall b: nat :: q.Covers(b) ==> Covered(list, b)
  }

  method IsContainedBy<T>(q: Range, list: seq<Piece<T>>) returns (found: bool)
    requires Normal(list)
    ensures found <==> Contained(q, list)
  {
    var iter, lastEnd := 0, 0;
    found := false;
    while iter < |list|
      invariant 0 <= iter <= |list| && !found
      invariant forall i :: 0 <= i < iter ==> !list[i].range.Covers(q.start)
    {
      var x := list[iter].range;
      if q.start >= x.start && x.toEof {
        assert x.Covers(q.start) && forall b: nat :: q.Covers(b) ==> x.Covers(b);
        return true;
      }
      if q.start >= x.start && q.start < x.End() {
        found := true;
        lastEnd := x.End();
        break;
      }
      iter := iter + 1;
    }
    if !found {
      return false;
    }
    assert Covered(list, q.start);
    found := false;
    while iter < |list|
      invariant 0 <= iter <= |list| && !found
      invariant q.start < lastEnd
      invariant || q.toEof || lastEnd < q.End()
                || (iter < |list| && list[iter].range.start <= q.start && list[iter].range.End() == lastEnd)
      invariant forall b: nat :: q.start <= b < lastEnd ==> Covered(list, b)
      invariant forall i :: 0 <= i < iter ==> !list[i].range.toEof && list[i].range.End() <= lastEnd
    {
      var x := list[iter].range;
      if x.start > lastEnd {
        break;
      }
      if x.toEof {
        return true;
      }
      if !q.toEof && q.End() <= x.End() {
        return true;
      }
      lastEnd := x.End();
      iter := iter + 1;
    }
    assert !Covered(list, lastEnd);
  }

  // ----- space -----

  function Space<T>(list: seq<Piece<T>>): (n: nat) {
    if list == [] then 0 else list[0].range.length + Space(list[1..])
  }

  lemma {:induction false} SpaceOfJoin<T>(a: seq<Piece<T>>, b: seq<Piece<T>>)
    ensures Space(a + b) == Space(a) + Space(b)
    decreases |a|
  {
    if a == [] {
      assert a + b == b;
    } else {
      assert (a + b)[1..] == a[1..] + b;
      SpaceOfJoin(a[1..], b);
    }
  }

  lemma {:induction false} SurvivingSpace<T>(list: seq<Piece<T>>, r: Range)
    ensures Space(Surviving(list, r)) <= Space(list)
    decreases |list|
  {
    if list != [] {
      SurvivingSpace(list[1..], r);
      var rest := Surviving(list[1..], r);
      assert ([list[0]] + rest)[1..] == rest;
    }
  }

  lemma SpaceOfParts<T>(list: seq<Piece<T>>, k: nat, p: Piece<T>, kept: seq<Piece<T>>)
    requires k <= |list|
    ensures Space(list[..k] + [p] + kept) == Space(list) - Space(list[k..]) + p.range.length + Space(kept)
  {
    SpaceOfJoin(list[..k], list[k..]);
    assert list[..k] + list[k..] == list;
    SpaceOfJoin(list[..k] + [p], kept);
    SpaceOfJoin(list[..k], [p]);
    assert Space([p]) == p.range.length;
  }

  /** Adding a piece grows the space in use by at most the piece's length. */
  lemma InsertSpace<T>(list: seq<Piece<T>>, p: Piece<T>)
    ensures Space(Insert(list, p)) <= Space(list) + p.range.length
  {
    var r := p.range;
    if r.length != 0 && !(r.start == 0 && r.toEof) && !AnySubsumes(list, r) {
      var k := Below(list, r.start);
      var kept := Surviving(list[k..], r);
      SurvivingSpace(list[k..], r);
      SpaceOfParts(list, k, p, kept);
    }
  }
}
