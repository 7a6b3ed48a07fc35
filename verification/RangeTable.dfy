/** Range lists (section 2.17.3 of DWARF 4), parsed when first asked for and kept sorted by offset. */
module RangeTable {
  import opened Wrappers
  import opened Bytes
  import opened Input
  import opened Algorithms

  datatype Range = Range(start: nat, end: nat) {
    predicate IsEndOfList() {
      start == 0 && end == 0
    }

    /** With 64-bit wrap-around. */
    predicate Contains(base: nat, address: nat) {
      (base + start) % WORD64 <= address && address < (base + end) % WORD64
    }
  }

  datatype RangeSet = RangeSet(offset: nat, ranges: seq<Range>)

  function Offset(s: RangeSet): nat {
    s.offset
  }

  /** The list at `pos`: pairs up to a pair of zeros, or as far as whole numbers go. */
  function RangesAt(data: seq<Byte>, bigEndian: bool, width: nat, pos: nat): seq<Range>
    requires pos <= |data| && width > 0
    decreases |data| - pos
  {
    if pos + 2 * width > |data| then []
    else
      var r := Range(Fixed(data[pos..pos + width], bigEndian), Fixed(data[pos + width..pos + 2 * width], bigEndian));
      if r.IsEndOfList() then [] else [r] + RangesAt(data, bigEndian, width, pos + 2 * width)
  }

  /** Where the list at `pos` stops: behind its pair of zeros, or at the end of the section. */
  function ListEnd(data: seq<Byte>, bigEndian: bool, width: nat, pos: nat): (end: nat)
    requires pos <= |data| && width > 0
    ensures pos <= end <= |data| && (pos < |data| ==> pos < end)
    decreases |data| - pos
  {
    if pos + 2 * width > |data| then |data|
    else
      var r := Range(Fixed(data[pos..pos + width], bigEndian), Fixed(data[pos + width..pos + 2 * width], bigEndian));
      if r.IsEndOfList() then pos + 2 * width else ListEnd(data, bigEndian, width, pos + 2 * width)
  }

  predicate AnyContains(ranges: seq<Range>, base: nat, address: nat) {
    exists i | 0 <= i < |ranges| :: ranges[i].Contains(base, address)
  }

  // ---- The table as a memo ----

  predicate HasOffset(table: seq<RangeSet>, offset: nat) {
    exists i | 0 <= i < |table| :: table[i].offset == offset
  }

  function SetFor(data: seq<Byte>, bigEndian: bool, width: nat, offset: nat): RangeSet
    requires width > 0
  {
    var at := Min(offset, |data|);
    RangeSet(at, RangesAt(data, bigEndian, width, at))
  }

  /** The table after one more set. */
  function Inserted(table: seq<RangeSet>, x: RangeSet): seq<RangeSet> {
    InsertAt(table, LowerIndex(table, Offset, x.offset), x)
  }

  /** The table after a list was asked for. */
  function Asked(data: seq<Byte>, bigEndian: bool, width: nat, table: seq<RangeSet>, offset: nat): seq<RangeSet>
    requires width > 0
  {
    if HasOffset(table, offset) then table else Inserted(table, SetFor(data, bigEndian, width, offset))
  }

  /** The table after a whole history of questions. */
  function AskedAll(data: seq<Byte>, bigEndian: bool, width: nat, table: seq<RangeSet>,
      offsets: seq<nat>): seq<RangeSet>
    requires width > 0
    decreases |offsets|
  {
    if offsets == [] then table
    else AskedAll(data, bigEndian, width, Asked(data, bigEndian, width, table, offsets[0]), offsets[1..])
  }

  /** Strictly sorted, and every entry is what a fresh parse at its offset gives. */
  predicate Memo(data: seq<Byte>, bigEndian: bool, width: nat, table: seq<RangeSet>)
    requires width > 0
  {
    && StrictlySortedBy(table, Offset)
    && forall i | 0 <= i < |table| ::
         table[i].offset <= |data| && table[i] == SetFor(data, bigEndian, width, table[i].offset)
  }

  /** A strictly sorted table stays so with one more set if and only if the offset is new. */
  lemma InsertedStrict(table: seq<RangeSet>, x: RangeSet)
    requires StrictlySortedBy(table, Offset)
    ensures StrictlySortedBy(Inserted(table, x), Offset) <==> !HasOffset(table, x.offset)
  {
    var i := LowerIndex(table, Offset, x.offset);
    var after := Inserted(table, x);
    if HasOffset(table, x.offset) {
      var k :| 0 <= k < |table| && table[k].offset == x.offset;
      assert k >= i && Offset(after[i]) == Offset(after[k + 1]);
    } else {
      assert i < |table| ==> Offset(table[i]) > x.offset;
      InsertSorted(table, Offset, x, i);
    }
  }

  /** In the exact case it is a memo again: the offset is in the section, or nothing was filed at the
      end of the section yet. */
  lemma AskedKeepsOrder(data: seq<Byte>, bigEndian: bool, width: nat, table: seq<RangeSet>, offset: nat)
    requires width > 0 && Memo(data, bigEndian, width, table)
    ensures
      var after := Asked(data, bigEndian, width, table, offset);
      Memo(data, bigEndian, width, after) <==> offset <= |data| || !HasOffset(table, |data|)
  {
    hide RangesAt, Inserted;
    var x := SetFor(data, bigEndian, width, offset);
    if !HasOffset(table, offset) {
      InsertedStrict(table, x);
      InsertedEntries(table, x);
      var after := Inserted(table, x);
      forall i | 0 <= i < |after|
        ensures after[i].offset <= |data| && after[i] == SetFor(data, bigEndian, width, after[i].offset) {
        assert after[i] in after;
      }
    } else {
      var k :| 0 <= k < |table| && table[k].offset == offset;
    }
  }

  lemma InsertedEntries(table: seq<RangeSet>, x: RangeSet)
    ensures forall s | s in Inserted(table, x) :: s == x || s in table
  {
  }

  /** In every history of questions inside the section the table is strictly sorted, and holds fresh
      parses. */
  lemma {:induction false} HistoryKeepsOrder(data: seq<Byte>, bigEndian: bool, width: nat, table: seq<RangeSet>,
      offsets: seq<nat>)
    requires width > 0 && Memo(data, bigEndian, width, table)
    requires forall k | 0 <= k < |offsets| :: offsets[k] <= |data|
    ensures Memo(data, bigEndian, width, AskedAll(data, bigEndian, width, table, offsets))
    decreases |offsets|
  {
    hide Memo, Asked;
    if offsets != [] {
      AskedKeepsOrder(data, bigEndian, width, table, offsets[0]);
      HistoryKeepsOrder(data, bigEndian, width, Asked(data, bigEndian, width, table, offsets[0]), offsets[1..]);
    }
  }

  /** A question behind any section that has a first list, asked twice after that list: the same empty
      list is filed twice. */
  lemma {:induction false} AskedTwice(data: seq<Byte>, bigEndian: bool, width: nat, offset: nat)
    requires width > 0 && 0 < |data| < offset
    ensures
      var first, end := SetFor(data, bigEndian, width, 0), RangeSet(|data|, []);
      var table := AskedAll(data, bigEndian, width, [], [0, offset, offset]);
      table == [first, end, end] && !StrictlySortedBy(table, Offset)
  {
    hide AskedAll, Asked, RangesAt;
    var first, end := SetFor(data, bigEndian, width, 0), RangeSet(|data|, []);
    AtEnd(data, bigEndian, width, offset);
    NewAtEnd(data, bigEndian, width, [], 0);
    NewAtEnd(data, bigEndian, width, [first], offset);
    NewAtEnd(data, bigEndian, width, [first, end], offset);
    assert [] + [first] == [first] && [first] + [end] == [first, end] && [first, end] + [end] == [first, end, end];
    AskedThree(data, bigEndian, width, 0, offset, offset);
    assert Offset([first, end, end][1]) == Offset([first, end, end][2]);
  }

  lemma AtEnd(data: seq<Byte>, bigEndian: bool, width: nat, offset: nat)
    requires width > 0 && offset >= |data|
    ensures SetFor(data, bigEndian, width, offset) == RangeSet(|data|, [])
  {
  }

  /** A set that is not below any other goes before those at its own offset, or at the end. */
  lemma {:induction false} NewAtEnd(data: seq<Byte>, bigEndian: bool, width: nat, table: seq<RangeSet>, offset: nat)
    requires width > 0 && !HasOffset(table, offset) && SortedBy(table, Offset)
    requires var x := SetFor(data, bigEndian, width, offset);
      forall i | 0 <= i < |table| :: table[i].offset < x.offset || table[i] == x
    ensures Asked(data, bigEndian, width, table, offset) == table + [SetFor(data, bigEndian, width, offset)]
  {
    hide RangesAt;
    var x := SetFor(data, bigEndian, width, offset);
    var i := LowerIndex(table, Offset, x.offset);
    var after := Inserted(table, x);
    forall k | i <= k < |table| ensures table[k] == x {
      assert Offset(table[i]) >= x.offset && (i < k ==> Offset(table[i]) <= Offset(table[k]));
    }
    assert after == table + [x];
  }

  lemma AskedThree(data: seq<Byte>, bigEndian: bool, width: nat, a: nat, b: nat, c: nat)
    requires width > 0
    ensures
      AskedAll(data, bigEndian, width, [], [a, b, c]) ==
      Asked(data, bigEndian, width, Asked(data, bigEndian, width, Asked(data, bigEndian, width, [], a), b), c)
  {
    hide Asked;
    assert [a, b, c][1..] == [b, c] && [b, c][1..] == [c] && [c][1..] == [];
    var one := Asked(data, bigEndian, width, [], a);
    var two := Asked(data, bigEndian, width, one, b);
    assert AskedAll(data, bigEndian, width, two, [c]) == Asked(data, bigEndian, width, two, c);
    assert AskedAll(data, bigEndian, width, one, [b, c]) == AskedAll(data, bigEndian, width, two, [c]);
  }

  /** All the lists from `pos` on, one behind the other. */
  function ListsAt(data: seq<Byte>, bigEndian: bool, width: nat, pos: nat): (table: seq<RangeSet>)
    requires pos <= |data| && width > 0
    ensures StrictlySortedBy(table, Offset) && forall s | s in table :: s.offset >= pos
    decreases |data| - pos
  {
    hide RangesAt;
    if pos == |data| then []
    else [SetFor(data, bigEndian, width, pos)] + ListsAt(data, bigEndian, width, ListEnd(data, bigEndian, width, pos))
  }

  lemma {:induction false} ListsStep(data: seq<Byte>, bigEndian: bool, width: nat, pos: nat, before: seq<RangeSet>)
    requires pos < |data| && width > 0
    ensures
      var rest := ListsAt(data, bigEndian, width, ListEnd(data, bigEndian, width, pos));
      before + ListsAt(data, bigEndian, width, pos) == before + [SetFor(data, bigEndian, width, pos)] + rest
  {
    hide SetFor, ListEnd;
  }

  lemma ListsEnd(data: seq<Byte>, bigEndian: bool, width: nat, before: seq<RangeSet>)
    requires width > 0
    ensures before + ListsAt(data, bigEndian, width, |data|) == before
  {
  }

  /** All sets filed lie before the stream's position. */
  predicate FiledBefore(table: seq<RangeSet>, pos: nat) {
    forall s | s in table :: s.offset < pos
  }

  lemma FiledNext(table: seq<RangeSet>, x: RangeSet, next: nat)
    requires FiledBefore(table, x.offset) && x.offset < next
    ensures Inserted(table, x) == table + [x] && FiledBefore(table + [x], next)
  {
    InsertedLast(table, x);
  }

  lemma NoneFiled(pos: nat)
    ensures FiledBefore([], pos)
  {
  }

  lemma SetOffset(data: seq<Byte>, bigEndian: bool, width: nat, pos: nat)
    requires pos <= |data| && width > 0
    ensures SetFor(data, bigEndian, width, pos) == RangeSet(pos, RangesAt(data, bigEndian, width, pos))
  {
  }

  lemma InsertedLast(table: seq<RangeSet>, x: RangeSet)
    requires FiledBefore(table, x.offset)
    ensures Inserted(table, x) == table + [x]
  {
    LowerIndexIs(table, Offset, x.offset, |table|);
  }

  method ContainsAddress(s: RangeSet, base: nat, address: nat) returns (r: bool)
    ensures r == AnyContains(s.ranges, base, address)
  {
    r := false;
    var i := 0;
    while i < |s.ranges| && !r
      invariant i <= |s.ranges|
      invariant r ==> AnyContains(s.ranges, base, address)
      invariant !r ==> forall k | 0 <= k < i :: !s.ranges[k].Contains(base, address)
    {
      r := s.ranges[i].Contains(base, address);
      i := i + 1;
    }
  }

  class RangeTable {
    ghost const data: seq<Byte>
    ghost const bigEndian: bool
    var table: seq<RangeSet>

    constructor (ghost data: seq<Byte>, ghost bigEndian: bool)
      ensures this.data == data && this.bigEndian == bigEndian && table == []
    {
      this.data, this.bigEndian := data, bigEndian;
      table := [];
    }

    /** Sorted, and every entry is what a fresh parse at its offset gives. */
    ghost predicate Valid(width: nat)
      reads this
    {
      && width in {4, 8} && SortedBy(table, Offset)
      && forall i | 0 <= i < |table| ::
           table[i].offset <= |data| && table[i].ranges == RangesAt(data, bigEndian, width, table[i].offset)
    }

    method GetRangeBy(offset: nat) returns (r: Option<RangeSet>)
      requires SortedBy(table, Offset)
      ensures r.Some? ==> r.value in table && r.value.offset == offset
      ensures r.None? ==> forall s | s in table :: s.offset != offset
    {
      r := None;
      var i := LowerBound(table, Offset, offset);
      if i != |table| && table[i].offset == offset {
        r := Some(table[i]);
      }
      forall s | s in table && r.None? ensures s.offset != offset {
        var k :| 0 <= k < |table| && table[k] == s;
        if i <= k && i < |table| {
          assert Offset(table[i]) <= Offset(table[k]) || i == k;
        }
      }
    }

    /** The list at an offset: the same whatever was looked up before. */
    method ExtractRangeSetBy(addressSize: nat, stream: Stream, offset: nat) returns (r: Option<RangeSet>)
      requires Valid(addressSize)
      requires stream.Valid() && stream.data == data && stream.bigEndian == bigEndian && stream.policy == Clamp
      modifies this, stream
      ensures Valid(addressSize) && stream.Valid()
      ensures r == Some(SetFor(data, bigEndian, addressSize, offset))
      ensures table == Asked(data, bigEndian, addressSize, old(table), offset)
      ensures old(StrictlySortedBy(table, Offset)) ==>
        (StrictlySortedBy(table, Offset) <==> offset <= |data| || forall s | s in old(table) :: s.offset != |data|)
    {
      hide RangesAt, Inserted;
      r := GetRangeBy(offset);
      if r.None? {
        ghost var was := table;
        stream.Seek(offset);
        r := Extract(addressSize, stream);
        if StrictlySortedBy(was, Offset) {
          InsertedStrict(was, r.value);
        }
      }
    }

    /** Reads the list at the stream's position into its place in the table. */
    method Extract(addressSize: nat, stream: Stream) returns (r: Option<RangeSet>)
      requires addressSize in {4, 8} ==> Valid(addressSize)
      requires stream.Valid() && stream.data == data && stream.bigEndian == bigEndian
      modifies this, stream
      ensures stream.Valid()
      ensures addressSize !in {4, 8} ==> r == None && table == old(table) && stream.position == old(stream.position)
      ensures addressSize in {4, 8} ==>
        && Valid(addressSize)
        && r == Some(SetFor(data, bigEndian, addressSize, old(stream.position)))
        && table == Inserted(old(table), r.value)
        && stream.position == ListEnd(data, bigEndian, addressSize, old(stream.position))
    {
      hide RangesAt, Inserted;
      if addressSize !in {4, 8} {
        return None;
      }
      var start := stream.position;
      var ranges := ReadRanges(addressSize, stream);
      var curset := RangeSet(start, ranges);
      curset := Insert(addressSize, curset);
      r := Some(curset);
    }

    method Insert(addressSize: nat, curset: RangeSet) returns (r: RangeSet)
      requires Valid(addressSize)
      requires curset.offset <= |data| && curset.ranges == RangesAt(data, bigEndian, addressSize, curset.offset)
      modifies this
      ensures Valid(addressSize) && r == curset && table == Inserted(old(table), curset)
    {
      hide RangesAt;
      var i := LowerBound(table, Offset, curset.offset);
      LowerIndexIs(table, Offset, curset.offset, i);
      InsertSorted(table, Offset, curset, i);
      table := InsertAt(table, i, curset);
      r := table[i];
    }

    /** Reads all the lists of a stream one after another.  They are in order already, and each is
        there once; the result is false all the same. */
    method Parse(addressSize: nat, stream: Stream) returns (ret: bool)
      requires stream.Valid() && stream.data == data && stream.bigEndian == bigEndian
      modifies this, stream
      ensures stream.Valid() && !ret
      ensures addressSize in {4, 8} ==>
        Valid(addressSize) && table == ListsAt(data, bigEndian, addressSize, old(stream.position))
      ensures addressSize !in {4, 8} ==> table == []
    {
      hide RangesAt, ListEnd, Inserted, ListsAt, SetFor;
      ret := false;
      table := [];
      ExtractAll(addressSize, stream);
      ghost var was := table;
      table := Sort(table, Offset);
      if addressSize in {4, 8} {
        SortedAlready(table, was, Offset);
      }
    }

    /** The loop over the stream, from an empty table. */
    method ExtractAll(addressSize: nat, stream: Stream)
      requires stream.Valid() && stream.data == data && stream.bigEndian == bigEndian && table == []
      modifies this, stream
      ensures stream.Valid()
      ensures addressSize in {4, 8} ==>
        Valid(addressSize) && table == ListsAt(data, bigEndian, addressSize, old(stream.position))
      ensures addressSize !in {4, 8} ==> table == []
    {
      hide RangesAt, ListEnd, Inserted, ListsAt, SetFor, FiledBefore, StrictlySortedBy;
      ghost var start := stream.position;
      NoneFiled(start);
      while stream.position < |stream.data|
        invariant stream.Valid()
        invariant addressSize in {4, 8} ==>
          && Valid(addressSize) && FiledBefore(table, stream.position)
          && [] + ListsAt(data, bigEndian, addressSize, start)
            == table + ListsAt(data, bigEndian, addressSize, stream.position)
        invariant addressSize !in {4, 8} ==> table == []
        decreases |stream.data| - stream.position
      {
        ghost var was, pos := table, stream.position;
        var set_ := Extract(addressSize, stream);
        if set_.None? {
          break;
        }
        SetOffset(data, bigEndian, addressSize, pos);
        FiledNext(was, set_.value, stream.position);
        ListsStep(data, bigEndian, addressSize, pos, was);
      }
      if addressSize in {4, 8} {
        ListsEnd(data, bigEndian, addressSize, table);
        ghost var all := ListsAt(data, bigEndian, addressSize, start);
        assert [] + all == all;
      }
    }
  }

  method ReadRanges(width: nat, stream: Stream) returns (ranges: seq<Range>)
    requires stream.Valid() && width > 0
    modifies stream
    ensures stream.Valid() && ranges == RangesAt(stream.data, stream.bigEndian, width, old(stream.position))
    ensures stream.position == ListEnd(stream.data, stream.bigEndian, width, old(stream.position))
  {
    hide Fixed;
    ranges := [];
    ghost var whole := RangesAt(stream.data, stream.bigEndian, width, stream.position);
    ghost var end := ListEnd(stream.data, stream.bigEndian, width, stream.position);
    assert [] + whole == whole;
    while stream.position < |stream.data|
      invariant stream.Valid() && stream.position >= old(stream.position)
      invariant end == ListEnd(stream.data, stream.bigEndian, width, stream.position)
      invariant whole == ranges + RangesAt(stream.data, stream.bigEndian, width, stream.position)
      decreases |stream.data| - stream.position
    {
      var pair := ReadPair(width, stream);
      if pair.None? {
        assert ranges + [] == ranges;
        return;
      }
      ghost var rest := RangesAt(stream.data, stream.bigEndian, width, stream.position);
      assert ranges + ([pair.value] + rest) == ranges + [pair.value] + rest;
      ranges := ranges + [pair.value];
      if ranges[|ranges| - 1].IsEndOfList() {
        ranges := ranges[..|ranges| - 1];
        assert ranges + [] == ranges;
        return;
      }
    }
    assert ranges + [] == ranges;
  }

  /** Two numbers, if both are there. */
  method ReadPair(width: nat, stream: Stream) returns (r: Option<Range>)
    requires stream.Valid() && stream.position < |stream.data| && width > 0
    modifies stream
    ensures stream.Valid() && stream.position > old(stream.position)
    ensures
      var pos := old(stream.position);
      if pos + 2 * width > |stream.data| then r == None && stream.position == |stream.data|
      else
        && stream.position == pos + 2 * width
        && r == Some(Range(Fixed(stream.data[pos..pos + width], stream.bigEndian),
                           Fixed(stream.data[pos + width..pos + 2 * width], stream.bigEndian)))
  {
    r := None;
    var begin, count := stream.ReadFixed(width, 0);
    if count == width {
      var end;
      end, count := stream.ReadFixed(width, 0);
      if count == width {
        r := Some(Range(begin, end));
      }
    }
  }

  /** A range list as section 2.17.3 writes it: the pairs, then a pair of zeros. */
  function EncodeRanges(ranges: seq<Range>, width: nat, bigEndian: bool): seq<Byte> {
    if ranges == [] then EncodeFixed(0, width, bigEndian) + EncodeFixed(0, width, bigEndian)
    else
      var pair := EncodeFixed(ranges[0].start, width, bigEndian) + EncodeFixed(ranges[0].end, width, bigEndian);
      pair + EncodeRanges(ranges[1..], width, bigEndian)
  }

  /** An encoded list, anywhere in the section, is parsed to exactly its ranges. */
  lemma {:induction false} RangesRoundTrip(pre: seq<Byte>, ranges: seq<Range>, width: nat, bigEndian: bool,
      rest: seq<Byte>)
    requires width > 0
    requires forall i | 0 <= i < |ranges| ::
      !ranges[i].IsEndOfList() && ranges[i].start < Pow256(width) && ranges[i].end < Pow256(width)
    ensures RangesAt(pre + EncodeRanges(ranges, width, bigEndian) + rest, bigEndian, width, |pre|) == ranges
    decreases |ranges|
  {
    hide *;
    EncodeUnfold(ranges, width, bigEndian);
    if ranges == [] {
      PairRead(pre, Range(0, 0), width, bigEndian, rest);
      var zero := EncodeFixed(0, width, bigEndian);
      assert pre + (zero + zero) + rest == pre + zero + zero + rest;
    } else {
      var x, y := EncodeFixed(ranges[0].start, width, bigEndian), EncodeFixed(ranges[0].end, width, bigEndian);
      var tail := EncodeRanges(ranges[1..], width, bigEndian);
      PairRead(pre, ranges[0], width, bigEndian, tail + rest);
      assert pre + (x + y + tail) + rest == pre + x + y + (tail + rest) == (pre + x + y) + tail + rest;
      RangesRoundTrip(pre + x + y, ranges[1..], width, bigEndian, rest);
    }
  }

  lemma EncodeUnfold(ranges: seq<Range>, width: nat, bigEndian: bool)
    ensures Range(0, 0).IsEndOfList() && 0 < Pow256(width)
    ensures
      var zero := EncodeFixed(0, width, bigEndian);
      EncodeRanges(ranges, width, bigEndian) ==
      if ranges == [] then zero + zero
      else
        EncodeFixed(ranges[0].start, width, bigEndian) + EncodeFixed(ranges[0].end, width, bigEndian)
        + EncodeRanges(ranges[1..], width, bigEndian)
  {
    hide EncodeFixed, Pow256;
  }

  /** The pair at hand, and what follows it. */
  lemma {:induction false} PairRead(pre: seq<Byte>, r: Range, width: nat, bigEndian: bool, rest: seq<Byte>)
    requires width > 0 && r.start < Pow256(width) && r.end < Pow256(width)
    ensures
      var x, y := EncodeFixed(r.start, width, bigEndian), EncodeFixed(r.end, width, bigEndian);
      var data := pre + x + y + rest;
      && |pre| + 2 * width == |pre + x + y| <= |data|
      && RangesAt(data, bigEndian, width, |pre|) ==
         if r.IsEndOfList() then [] else [r] + RangesAt(data, bigEndian, width, |pre + x + y|)
  {
    hide Fixed, EncodeFixed, Pow256;
    PairHere(pre, r.start, r.end, width, bigEndian, rest);
  }
}
