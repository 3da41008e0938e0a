/** The text form of a range list in the disk cache's index (`serializeRanges` and
    `unserializeRanges` in libcore/src/transfer/DiskCacheLayer.hpp): "start length; "
    for each range, with the length negated when the range goes to the end of the file.
    Numbers are read as C++ streams read them: white space, a sign, digits; a number
    out of range counts as the nearest limit and ends the reading. */
module RangeText {
  import opened Ranges

  type Text = seq<char>

  type RangeList = seq<Piece<()>>

  const TWO63: int := 0x8000_0000_0000_0000
  const TWO64: int := 0x1_0000_0000_0000_0000

  // ----- decimal numbers -----

  predicate IsDigit(c: char) { '0' <= c <= '9' }

  function DigitValue(c: char): nat
    requires IsDigit(c)
  {
    c as int - '0' as int
  }

  function Digits(n: nat): (t: Text)
    ensures t != [] && forall i :: 0 <= i < |t| ==> IsDigit(t[i])
    ensures t[0] == '0' ==> n == 0 && |t| == 1
  {
    var last := [('0' as int + n % 10) as char];
    if n < 10 then last else Digits(n / 10) + last
  }

  function Decimal(n: int): Text { if n < 0 then ['-'] + Digits(-n) else Digits(n) }

  function ValueOf(t: Text): nat
    requires forall i :: 0 <= i < |t| ==> IsDigit(t[i])
  {
    if t == [] then 0 else 10 * ValueOf(t[..|t| - 1]) + DigitValue(t[|t| - 1])
  }

  lemma {:induction false} ValueOfDigits(n: nat)
    ensures ValueOf(Digits(n)) == n
  {
    var t := Digits(n);
    if n < 10 {
      assert t[..0] == [];
    } else {
      assert t[..|t| - 1] == Digits(n / 10);
      ValueOfDigits(n / 10);
    }
  }

  // ----- reading from a stream -----

  predicate IsSpace(c: char) { c == ' ' || '\t' <= c <= '\r' }

  function SkipSpace(t: Text): (r: Text)
    ensures |r| <= |t|
  {
    if t != [] && IsSpace(t[0]) then SkipSpace(t[1..]) else t
  }

  /** How many digits the text begins with. */
  function Leading(t: Text): (k: nat)
    ensures k <= |t| && forall i :: 0 <= i < k ==> IsDigit(t[i])
    ensures k < |t| ==> !IsDigit(t[k])
  {
    if t == [] || !IsDigit(t[0]) then 0 else 1 + Leading(t[1..])
  }

  /** What extraction of a number leaves: a reading that used up the text has set the
      stream's end mark. */
  datatype Reading = Failed | Read(value: int, rest: Text)

  function ReadNumber(text: Text): (r: Reading)
    ensures r.Read? ==> |r.rest| < |text|
  {
    var t := SkipSpace(text);
    var negative := t != [] && t[0] == '-';
    var u := if t != [] && (t[0] == '-' || t[0] == '+') then t[1..] else t;
    var k := Leading(u);
    if k == 0 then Failed
    else
      var magnitude: int := ValueOf(u[..k]);
      Read(if negative then -magnitude else magnitude, u[k..])
  }

  // ----- one range -----

  /** Conversion of an unsigned 64-bit number to a signed one, and back. */
  function Signed(n: nat): int { if n < TWO63 then n else n - TWO64 }

  function Unsigned(n: int): nat { n % TWO64 }

  /** Signed 64-bit negation; the least number has no negative and is taken to wrap. */
  function Negate(n: int): int { if n == -TWO63 then n else -n }

  function LengthField(r: Range): int {
    if r.toEof then Negate(Signed(r.length)) else Signed(r.length)
  }

  /** The range that a start and a length read back stand for. */
  function FromFields(start: nat, length: int): Range {
    if length < 0 then Range(start, Unsigned(Negate(length)), true) else Range(start, Unsigned(length), false)
  }

  function Line(r: Range): Text { Digits(r.start) + [' '] + Decimal(LengthField(r)) + [';', ' '] }

  function Reread(r: Range): Range { FromFields(r.start, LengthField(r)) }

  /** Ranges of 64-bit numbers. */
  predicate Wide(r: Range) { 0 < r.length && r.End() < TWO64 }

  /** The lengths that fit a signed number. */
  predicate Fits(r: Range) { r.length < TWO63 || (r.toEof && r.length == TWO63) }

  lemma RereadIsExact(r: Range)
    requires Wide(r)
    ensures Reread(r) == r <==> Fits(r)
    ensures Reread(r).start == r.start && LengthField(r) != 0 && -TWO63 <= LengthField(r) < TWO63
  {
  }

  // ----- lists -----

  function Serialize(list: RangeList): Text {
    if list == [] then [] else Line(list[0].range) + Serialize(list[1..])
  }

  /** What is read from `text`, added to `list`. */
  function Unserialize(text: Text, list: RangeList): RangeList
    decreases |text|
  {
    match ReadNumber(text)
    case Failed => list
    case Read(start, rest) =>
      if rest == [] || !(-TWO64 < start < TWO64) then list
      else
        match ReadNumber(rest)
        case Failed => list
        case Read(length, more) =>
          if length == 0 then Unserialize(more, list)
          else
            var result := Insert(list, Piece(FromFields(Unsigned(start), Clamp(length)), ()));
            var t := SkipSpace(more);
            if t == [] || Clamp(length) != length then result else Unserialize(t[1..], result)
  }

  function Clamp(n: int): int { if n < -TWO63 then -TWO63 else if TWO63 <= n then TWO63 - 1 else n }

  lemma SerializeStep(list: RangeList, i: nat, out: Text)
    requires i < |list|
    ensures out + Serialize(list[i..]) == (out + Line(list[i].range)) + Serialize(list[i + 1..])
  {
    hide Line;
    assert list[i..][0] == list[i] && list[i..][1..] == list[i + 1..];
  }

  lemma SerializeNothing(list: RangeList)
    requires list == []
    ensures Serialize(list) == []
  {
  }

  method SerializeRanges(list: RangeList) returns (out: Text)
    ensures out == Serialize(list)
  {
    hide Digits, Decimal, Signed, Negate, Serialize;
    out := [];
    var i := 0;
    assert list[0..] == list;
    while i < |list|
      invariant 0 <= i <= |list|
      invariant out + Serialize(list[i..]) == Serialize(list)
    {
      var r := list[i].range;
      var len := Signed(r.length);
      if r.toEof {
        len := Negate(len);
      }
      SerializeStep(list, i, out);
      out := out + (Digits(r.start) + [' '] + Decimal(len) + [';', ' ']);
      i := i + 1;
    }
    SerializeNothing(list[i..]);
  }

  /** The stream loop; `good` is the stream's state. */
  method UnserializeRanges(text: Text, rlist: RangeList) returns (result: RangeList)
    requires Normal(rlist)
    ensures result == Unserialize(text, rlist) && Normal(result)
  {
    hide Normal, Insert, SkipSpace, ReadNumber, FromFields;
    var rest, good := text, true;
    result := rlist;
    while good
      invariant Normal(result)
      invariant (if good then Unserialize(rest, result) else result) == Unserialize(text, rlist)
      decreases good, |rest|
    {
      var start: nat, length: int, toAdd: Range := 0, 0, Range(0, 0, false);
      var first := ReadNumber(rest);
      if first.Failed? || first.rest == [] || !(-TWO64 < first.value < TWO64) {
        good := false;
      } else {
        start := Unsigned(first.value);
        var second := ReadNumber(first.rest);
        if second.Failed? {
          good := false;
        } else {
          length := Clamp(second.value);
          good := second.rest != [] && length == second.value;
          rest := second.rest;
        }
      }
      if length == 0 {
        continue;
      }
      toAdd := FromFields(start, length);
      InsertIsNormal(result, Piece(toAdd, ()));
      result := AddToList(Piece(toAdd, ()), result);
      if good {
        rest := SkipSpace(rest);
        if rest == [] {
          good := false;
        } else {
          rest := rest[1..];
        }
      }
    }
  }

  // ----- the round trip -----

  lemma NotSpace(t: Text)
    requires t == [] || !IsSpace(t[0])
    ensures SkipSpace(t) == t
  {
  }

  lemma LeadingDigits(d: Text, t: Text)
    requires forall i :: 0 <= i < |d| ==> IsDigit(d[i])
    requires t == [] || !IsDigit(t[0])
    ensures Leading(d + t) == |d| && (d + t)[..|d|] == d && (d + t)[|d|..] == t
  {
    hide Leading;
    assert forall i :: 0 <= i < |d| ==> (d + t)[i] == d[i];
    assert t != [] ==> (d + t)[|d|] == t[0];
  }

  /** A printed number is read back, and reading stops right behind it. */
  lemma DecimalReadsBack(n: int, t: Text)
    requires t == [] || !IsDigit(t[0])
    ensures ReadNumber(Decimal(n) + t) == Read(n, t)
  {
    hide ReadNumber, Digits;
    if n < 0 {
      NegativeReadsBack(n, t);
    } else {
      DigitsReadBack(n, t);
    }
  }

  lemma DigitsReadBack(n: nat, t: Text)
    requires t == [] || !IsDigit(t[0])
    ensures ReadNumber(Digits(n) + t) == Read(n, t)
  {
    hide ValueOf, Digits, Leading, SkipSpace;
    var d := Digits(n);
    LeadingDigits(d, t);
    ValueOfDigits(n);
    assert (d + t)[0] == d[0];
    NotSpace(d + t);
  }

  lemma NegativeReadsBack(n: int, t: Text)
    requires n < 0 && (t == [] || !IsDigit(t[0]))
    ensures ReadNumber(['-'] + Digits(-n) + t) == Read(n, t)
  {
    hide ValueOf, Digits, Leading, SkipSpace;
    var d := Digits(-n);
    LeadingDigits(d, t);
    ValueOfDigits(-n);
    var text := ['-'] + d + t;
    assert text[0] == '-' && text[1..] == d + t;
    NotSpace(text);
  }

  lemma SpaceIsSkipped(t: Text)
    ensures SkipSpace([' '] + t) == SkipSpace(t) && ReadNumber([' '] + t) == ReadNumber(t)
  {
    assert ([' '] + t)[1..] == t;
  }

  lemma LeadingSpaceIsSkipped(t: Text, list: RangeList)
    ensures Unserialize([' '] + t, list) == Unserialize(t, list)
  {
    hide ReadNumber;
    SpaceIsSkipped(t);
  }

  /** One line is read as one range. */
  lemma LineReadsBack(r: Range, t: Text, list: RangeList)
    requires Wide(r)
    ensures Unserialize(Line(r) + t, list) == Unserialize(t, Insert(list, Piece(Reread(r), ())))
  {
    hide ReadNumber, Digits, Insert, SkipSpace, LengthField, FromFields;
    var n := LengthField(r);
    var ending := [';', ' '] + t;
    var middle := [' '] + (Decimal(n) + ending);
    assert Line(r) + t == Decimal(r.start) + middle;
    DecimalReadsBack(r.start, middle);
    SpaceIsSkipped(Decimal(n) + ending);
    DecimalReadsBack(n, ending);
    RereadIsExact(r);
    NotSpace(ending);
    assert ending[1..] == [' '] + t;
    LeadingSpaceIsSkipped(t, Insert(list, Piece(Reread(r), ())));
  }

  /** What the text looks like. */
  lemma TextExample()
    ensures Serialize([Piece(Range(0, 5, false), ()), Piece(Range(7, 3, true), ())]) == "0 5; 7 -3; "
  {
    var a, b := Piece(Range(0, 5, false), ()), Piece(Range(7, 3, true), ());
    assert Decimal(5) == "5" && Decimal(-3) == "-3" && Digits(0) == "0" && Digits(7) == "7";
    assert Line(a.range) == "0 5; " && Line(b.range) == "7 -3; ";
    assert [a, b][1..] == [b] && [b][1..] == [];
    assert Serialize([b]) == Line(b.range) + [];
  }

  /** A length of 0 ends the reading: the separator behind it is taken for a number. */
  lemma ZeroLengthEndsReading(start: nat, t: Text, list: RangeList)
    requires start < TWO64
    ensures Unserialize(Decimal(start) + ([' '] + (Decimal(0) + ([';'] + t))), list) == list
  {
    hide Digits, ReadNumber, SkipSpace;
    var ending := [';'] + t;
    var middle := [' '] + (Decimal(0) + ending);
    DecimalReadsBack(start, middle);
    SpaceIsSkipped(Decimal(0) + ending);
    DecimalReadsBack(0, ending);
    SeparatorIsNoNumber(t);
  }

  lemma SeparatorIsNoNumber(t: Text)
    ensures ReadNumber([';'] + t) == Failed
  {
    hide SkipSpace, ValueOf;
    NotSpace([';'] + t);
    assert Leading([';'] + t) == 0;
  }

  /** What one entry of the text means, whatever numbers it holds: a negative start wraps,
      a negative length marks the end of the file, and a length out of range is taken for
      the nearest limit and ends the reading. */
  lemma EntryMeaning(start: int, n: int, t: Text, list: RangeList)
    requires -TWO64 < start < TWO64 && n != 0
    ensures var first := if start < 0 then start + TWO64 else start;
            var text := Decimal(start) + ([' '] + (Decimal(n) + ([';'] + t)));
            Unserialize(text, list)
            == if n >= TWO63 then Insert(list, Piece(Range(first, TWO63 - 1, false), ()))
               else if n < -TWO63 then Insert(list, Piece(Range(first, TWO63, true), ()))
               else Unserialize(t, Insert(list, Piece(Range(first, if n < 0 then -n else n, n < 0), ())))
  {
    hide Digits, SkipSpace, ReadNumber, Insert;
    var ending := [';'] + t;
    var middle := [' '] + (Decimal(n) + ending);
    DecimalReadsBack(start, middle);
    SpaceIsSkipped(Decimal(n) + ending);
    DecimalReadsBack(n, ending);
    NotSpace(ending);
    assert ending[1..] == t;
  }

  /** Adding the ranges of a list one after the other. */
  function AddAll(list: RangeList, more: RangeList): RangeList
    decreases |more|
  {
    if more == [] then list else AddAll(Insert(list, more[0]), more[1..])
  }

  function RereadAll(list: RangeList): (r: RangeList)
    ensures |r| == |list| && forall i :: 0 <= i < |r| ==> r[i] == Piece(Reread(list[i].range), ())
  {
    if list == [] then [] else [Piece(Reread(list[0].range), ())] + RereadAll(list[1..])
  }

  /** Reading a list's text adds its ranges, each as it is read back. */
  lemma {:induction false} TextAddsRanges(list: RangeList, start: RangeList)
    requires forall i :: 0 <= i < |list| ==> Wide(list[i].range)
    ensures Unserialize(Serialize(list), start) == AddAll(start, RereadAll(list))
    decreases |list|
  {
    hide Insert, Line, Reread, Unserialize;
    if list == [] {
      NothingToRead(start);
    } else {
      LineReadsBack(list[0].range, Serialize(list[1..]), start);
      TextAddsRanges(list[1..], Insert(start, Piece(Reread(list[0].range), ())));
      assert RereadAll(list)[1..] == RereadAll(list[1..]);
    }
  }

  lemma NothingToRead(list: RangeList)
    ensures Unserialize([], list) == list
  {
  }

  /** A range that belongs at the end of a list in normal form is added there. */
  lemma InsertAtEnd(list: RangeList, p: Piece<()>)
    requires Normal(list + [p])
    ensures Insert(list, p) == list + [p]
  {
    var all := list + [p];
    assert all[|list|] == p;
    forall i | 0 <= i < |list| ensures Before(list[i].range, p.range) {
      assert all[i] == list[i];
    }
    BelowIsUnique(list, p.range.start, |list|);
    assert list[..|list|] == list && list[|list|..] == [];
  }

  /** Lists in normal form are rebuilt exactly by adding their ranges in order. */
  lemma {:induction false} AddAllRebuilds(list: RangeList, more: RangeList)
    requires Normal(list + more)
    ensures AddAll(list, more) == list + more
    decreases |more|
  {
    hide Insert;
    if more == [] {
      assert list + more == list;
    } else {
      var next := list + [more[0]];
      assert list + more == next + more[1..];
      PrefixIsNormal(next, more[1..]);
      InsertAtEnd(list, more[0]);
      AddAllRebuilds(next, more[1..]);
    }
  }

  lemma PrefixIsNormal(a: RangeList, b: RangeList)
    requires Normal(a + b)
    ensures Normal(a)
  {
    assert forall i :: 0 <= i < |a| ==> (a + b)[i] == a[i];
  }

  lemma {:induction false} AddAllAddsOnly(list: RangeList, more: RangeList, x: Piece<()>)
    requires x in AddAll(list, more)
    ensures x in list || x in more
    decreases |more|
  {
    hide Insert;
    if more != [] {
      InsertKeeps(list, more[0]);
      AddAllAddsOnly(Insert(list, more[0]), more[1..], x);
    }
  }

  /** A list in normal form survives being written and read exactly when all its
      lengths fit a signed 64-bit number. */
  lemma TextRoundTrip(list: RangeList)
    requires Normal(list) && forall i :: 0 <= i < |list| ==> Wide(list[i].range)
    ensures Unserialize(Serialize(list), []) == list <==> forall i :: 0 <= i < |list| ==> Fits(list[i].range)
  {
    hide Normal, AddAll, Unserialize, Serialize, Reread, Fits;
    TextAddsRanges(list, []);
    if forall i :: 0 <= i < |list| ==> Fits(list[i].range) {
      FittingIsReread(list);
      assert [] + list == list;
      AddAllRebuilds([], list);
    } else {
      var i :| 0 <= i < |list| && !Fits(list[i].range);
      UnfitIsNotReread(list, i);
      if list[i] in AddAll([], RereadAll(list)) {
        AddAllAddsOnly([], RereadAll(list), list[i]);
      }
    }
  }

  lemma FittingIsReread(list: RangeList)
    requires forall i :: 0 <= i < |list| ==> Wide(list[i].range) && Fits(list[i].range)
    ensures RereadAll(list) == list
  {
    hide Reread, Fits;
    forall i | 0 <= i < |list| ensures RereadAll(list)[i] == list[i] {
      RereadIsExact(list[i].range);
      assert list[i].data == ();
    }
  }

  /** A range that does not fit is not among those read back: it alone has its start. */
  lemma UnfitIsNotReread(list: RangeList, i: nat)
    requires Normal(list) && forall j :: 0 <= j < |list| ==> Wide(list[j].range)
    requires i < |list| && !Fits(list[i].range)
    ensures list[i] !in RereadAll(list)
  {
    hide Reread, Fits;
    forall j | 0 <= j < |list| ensures RereadAll(list)[j] != list[i] {
      RereadIsExact(list[j].range);
      assert j < i ==> Before(list[j].range, list[i].range);
      assert i < j ==> Before(list[i].range, list[j].range);
    }
  }
}
