/** Address ranges by unit (section 6.1.2 of DWARF 4) and the lookup over them. */
module ArangeTable {
  import opened Wrappers
  import opened Bytes
  import opened Input
  import opened Algorithms

  datatype Range = Range(begin: nat, end: nat, cuOffset: nat) {
    predicate Contains(address: nat) {
      begin <= address < end
    }
  }

  function End(r: Range): nat {
    r.end
  }

  datatype Tuples = Tuples(ok: bool, ranges: seq<Range>, end: nat)

  /** The tuples at `pos`, up to a pair of zeros or the end of the stream.  The end address is
      computed in the width of the addresses. */
  function TuplesAt(data: seq<Byte>, bigEndian: bool, width: nat, cuOffset: nat, pos: nat): (t: Tuples)
    requires pos <= |data| && width > 0
    ensures pos <= t.end <= |data|
    decreases |data| - pos
  {
    if pos == |data| then Tuples(true, [], pos)
    else if pos + 2 * width > |data| then Tuples(false, [], |data|)
    else
      var address := Fixed(data[pos..pos + width], bigEndian);
      var length := Fixed(data[pos + width..pos + 2 * width], bigEndian);
      var next := pos + 2 * width;
      if address == 0 && length == 0 then Tuples(true, [], next)
      else
        var t := TuplesAt(data, bigEndian, width, cuOffset, next);
        Tuples(t.ok, [Range(address, (address + length) % Pow256(width), cuOffset)] + t.ranges, t.end)
  }

  /** The first multiple of `step` that is at least `n`. */
  function RoundUp(n: nat, step: nat): (r: nat)
    requires step > 0
    ensures r >= n
    decreases n
  {
    if n == 0 then 0 else if n <= step then step else step + RoundUp(n - step, step)
  }

  /** One set: the header, the tuples from the next multiple of their size after it. */
  function SetAt(data: seq<Byte>, bigEndian: bool, policy: SeekPolicy, pos: nat): (t: Tuples)
    requires pos <= |data|
    ensures t.end <= |data| && (pos < |data| ==> t.end > pos)
  {
    var p1 := Min(pos + 4, |data|);
    var p2 := Min(p1 + 2, |data|);
    var p3 := Min(p2 + 4, |data|);
    var p4 := Min(p3 + 1, |data|);
    var p5 := Min(p4 + 1, |data|);
    var length := FixedAt(data, pos, 4, bigEndian, 0);
    var cuOffset := FixedAt(data, p2, 4, bigEndian, 0);
    var width := FixedAt(data, p3, 1, bigEndian, 0);
    if p1 + length <= |data| && width in {4, 8} then
      TuplesAt(data, bigEndian, width, cuOffset, SeekTo(policy, |data|, p5, pos + RoundUp(p5 - pos, 2 * width)))
    else Tuples(false, [], p5)
  }

  /** All the sets of a stream, as far as each holds at least one range. */
  function SetsAt(data: seq<Byte>, bigEndian: bool, policy: SeekPolicy, pos: nat): Tuples
    requires pos <= |data|
    decreases |data| - pos
  {
    if pos == |data| then Tuples(true, [], pos)
    else
      var t := SetAt(data, bigEndian, policy, pos);
      if !t.ok || t.ranges == [] then Tuples(false, t.ranges, t.end)
      else
        var rest := SetsAt(data, bigEndian, policy, t.end);
        Tuples(rest.ok, t.ranges + rest.ranges, rest.end)
  }

  /** How many leading ranges end before the address. */
  function EndsBefore(ranges: seq<Range>, address: nat): (i: nat)
    ensures i <= |ranges| && (i < |ranges| ==> ranges[i].end >= address)
    ensures forall k | 0 <= k < i :: ranges[k].end < address
  {
    if ranges == [] || ranges[0].end >= address then 0 else 1 + EndsBefore(ranges[1..], address)
  }

  /** The lookup: the first range that does not end before the address, or else the one before it. */
  function Lookup(ranges: seq<Range>, address: nat): Option<Range> {
    var i := EndsBefore(ranges, address);
    if i == |ranges| then None
    else if ranges[i].Contains(address) then Some(ranges[i])
    else
      var j := if i > 0 then i - 1 else i;
      if ranges[j].Contains(address) then Some(ranges[j]) else None
  }

  predicate Disjoint(ranges: seq<Range>) {
    && (forall i | 0 <= i < |ranges| :: ranges[i].begin < ranges[i].end)
    && forall i, j | 0 <= i < j < |ranges| :: ranges[i].end <= ranges[j].begin || ranges[j].end <= ranges[i].begin
  }

  /** Only a range that contains the address is returned. */
  lemma LookupSound(ranges: seq<Range>, address: nat)
    ensures var r := Lookup(ranges, address); r.Some? ==> r.value in ranges && r.value.Contains(address)
  {
  }

  /** When one range holds the address and no other does, it is found if and only if every range
      before it, in the order of the ends, ends before the address; otherwise nothing is. */
  lemma {:induction false} LookupExact(ranges: seq<Range>, address: nat, k: nat)
    requires SortedBy(ranges, End) && k < |ranges|
    requires forall i | 0 <= i < |ranges| :: ranges[i].Contains(address) <==> i == k
    ensures Lookup(ranges, address) == Some(ranges[k]) <==> forall i | 0 <= i < k :: ranges[i].end < address
    ensures (exists i | 0 <= i < k :: ranges[i].end >= address) ==> Lookup(ranges, address) == None
  {
    var e := EndsBefore(ranges, address);
    assert ranges[k].Contains(address) && e <= k;
    forall i | e <= i < |ranges| ensures ranges[i].end >= address {
      assert i > e ==> End(ranges[e]) <= End(ranges[i]);
    }
  }

  /** Among disjoint ranges, none empty, the one that holds the address is found unless another
      ends exactly there. */
  lemma {:induction false} DisjointLookup(ranges: seq<Range>, address: nat, k: nat)
    requires SortedBy(ranges, End) && Disjoint(ranges)
    requires k < |ranges| && ranges[k].Contains(address)
    ensures Lookup(ranges, address) == Some(ranges[k]) <==> forall i | 0 <= i < |ranges| :: ranges[i].end != address
  {
    LookupExact(ranges, address, k);
    forall i | 0 <= i < |ranges| && i != k ensures i < k ==> ranges[i].end <= address
      ensures i > k ==> ranges[i].end > address
    {
      assert i < k ==> End(ranges[i]) <= End(ranges[k]);
      assert i > k ==> End(ranges[k]) <= End(ranges[i]);
    }
  }

  /** Two units, one behind the other: the first address of the second is not found. */
  lemma EndHidesNext()
    ensures
      var ranges := [Range(0, 10, 0), Range(10, 20, 1)];
      SortedBy(ranges, End) && Disjoint(ranges) && ranges[1].Contains(10) && Lookup(ranges, 10) == None
  {
    var ranges := [Range(0, 10, 0), Range(10, 20, 1)];
    assert EndsBefore(ranges, 10) == 0;
  }

  /** An empty range, sorted before one with the same end, hides all of it. */
  lemma EmptyHidesOther(address: nat)
    requires address < 10
    ensures
      var ranges := [Range(10, 10, 0), Range(0, 10, 1)];
      SortedBy(ranges, End) && ranges[1].Contains(address) && Lookup(ranges, address) == None
  {
    var ranges := [Range(10, 10, 0), Range(0, 10, 1)];
    assert EndsBefore(ranges, address) == 0;
  }

  lemma SetsEnd(data: seq<Byte>, bigEndian: bool, policy: SeekPolicy)
    ensures SetsAt(data, bigEndian, policy, |data|) == Tuples(true, [], |data|)
  {
  }

  lemma {:induction false} SetsStep(data: seq<Byte>, bigEndian: bool, policy: SeekPolicy, pos: nat, before: seq<Range>)
    requires pos < |data|
    ensures
      var all, t := SetsAt(data, bigEndian, policy, pos), SetAt(data, bigEndian, policy, pos);
      if !t.ok || t.ranges == [] then !all.ok && all.ranges == t.ranges
      else
        var rest := SetsAt(data, bigEndian, policy, t.end);
        all.ok == rest.ok && before + all.ranges == before + t.ranges + rest.ranges
  {
  }

  lemma {:induction false} TuplesStep(data: seq<Byte>, bigEndian: bool, width: nat, cuOffset: nat, pos: nat,
      before: seq<Range>)
    requires pos < |data| && width > 0
    ensures
      var all := TuplesAt(data, bigEndian, width, cuOffset, pos);
      if pos + 2 * width > |data| then all == Tuples(false, [], |data|)
      else
        var address := Fixed(data[pos..pos + width], bigEndian);
        var length := Fixed(data[pos + width..pos + 2 * width], bigEndian);
        var next := pos + 2 * width;
        if address == 0 && length == 0 then all == Tuples(true, [], next)
        else
          var r := Range(address, (address + length) % Pow256(width), cuOffset);
          var t := TuplesAt(data, bigEndian, width, cuOffset, next);
          all.ok == t.ok && all.end == t.end && before + all.ranges == before + [r] + t.ranges
  {
    hide Fixed, Pow256;
  }

  class ArangeTable {
    var ranges: seq<Range>

    constructor ()
      ensures ranges == []
    {
      ranges := [];
    }

    method ParseSet(stream: Stream) returns (ret: bool)
      requires stream.Valid()
      modifies this, stream
      ensures stream.Valid()
      ensures
        var t := SetAt(stream.data, stream.bigEndian, stream.policy, old(stream.position));
        && ranges == old(ranges) + t.ranges && stream.position == t.end && ret == (t.ok && t.ranges != [])
    {
      hide Fixed, TuplesAt, RoundUp;
      var start := stream.position;
      var startOfLength, length, cuOffset, addrSize := ParseHeader(stream);
      var tuples := [];
      ret := false;
      if startOfLength + length <= |stream.data| && addrSize in {4, 8} {
        var headerSize := stream.position - start;
        var firstTupleOffset := FirstTuple(headerSize, 2 * addrSize);
        stream.Seek(start + firstTupleOffset);
        ret, tuples := ParseTuples(stream, addrSize, cuOffset);
      }
      ranges := ranges + tuples;
      ret := ret && |tuples| > 0;
    }

    /** Reads every set there is, then sorts the ranges by their end. */
    method Parse(stream: Stream) returns (ret: bool)
      requires stream.Valid()
      modifies this, stream
      ensures stream.Valid() && SortedBy(ranges, End)
      ensures
        var t := SetsAt(stream.data, stream.bigEndian, stream.policy, old(stream.position));
        multiset(ranges) == multiset(t.ranges) && ret == (t.ok && t.ranges != [])
    {
      ret := false;
      ranges := [];
      ghost var whole := SetsAt(stream.data, stream.bigEndian, stream.policy, stream.position);
      SetsEnd(stream.data, stream.bigEndian, stream.policy);
      hide SetAt, SetsAt;
      while stream.position < |stream.data|
        invariant stream.Valid()
        invariant ret == (ranges != [])
        invariant
          var rest := SetsAt(stream.data, stream.bigEndian, stream.policy, stream.position);
          whole.ranges == ranges + rest.ranges && whole.ok == rest.ok
        decreases |stream.data| - stream.position
      {
        SetsStep(stream.data, stream.bigEndian, stream.policy, stream.position, ranges);
        var more := ParseSet(stream);
        if !more {
          ret := false;
          break;
        }
        ret := true;
      }
      assert whole.ranges == ranges && ret == (whole.ok && whole.ranges != []);
      ranges := Sort(ranges, End);
    }

    method GetRangesBy(address: nat) returns (r: Option<Range>)
      requires SortedBy(ranges, End)
      ensures r == Lookup(ranges, address)
    {
      r := None;
      var it := LowerBound(ranges, End, address);
      LowerBoundIs(ranges, address, it);
      if it != |ranges| {
        var range := ranges[it];
        if address >= range.begin && address < range.end {
          r := Some(range);
        } else {
          if it != 0 {
            range := ranges[it - 1];
          }
          if address >= range.begin && address < range.end {
            r := Some(range);
          }
        }
      }
    }
  }

  lemma {:induction false} LowerBoundIs(ranges: seq<Range>, address: nat, i: nat)
    requires IsLowerBound(ranges, End, address, i)
    ensures i == EndsBefore(ranges, address)
  {
    var e := EndsBefore(ranges, address);
    assert i < |ranges| ==> End(ranges[i]) >= address;
    assert e < |ranges| ==> End(ranges[e]) >= address;
  }

  method ParseHeader(stream: Stream) returns (startOfLength: nat, length: nat, cuOffset: nat, addrSize: nat)
    requires stream.Valid()
    modifies stream
    ensures stream.Valid()
    ensures
      var data, pos := stream.data, old(stream.position);
      var p1 := Min(pos + 4, |data|);
      var p2 := Min(p1 + 2, |data|);
      var p3 := Min(p2 + 4, |data|);
      var p4 := Min(p3 + 1, |data|);
      && startOfLength == p1 && stream.position == Min(p4 + 1, |data|)
      && length == FixedAt(data, pos, 4, stream.bigEndian, 0)
      && cuOffset == FixedAt(data, p2, 4, stream.bigEndian, 0)
      && addrSize == FixedAt(data, p3, 1, stream.bigEndian, 0)
  {
    hide FixedAt;
    var count, version, segSize;
    length, count := stream.ReadFixed(4, 0);
    startOfLength := stream.position;
    version, count := stream.ReadFixed(2, 0);
    cuOffset, count := stream.ReadFixed(4, 0);
    addrSize, count := stream.ReadFixed(1, 0);
    segSize, count := stream.ReadFixed(1, 0);
  }

  method FirstTuple(headerSize: nat, tupleSize: nat) returns (offset: nat)
    requires tupleSize > 0
    ensures offset == RoundUp(headerSize, tupleSize)
  {
    offset := 0;
    while offset < headerSize
      invariant RoundUp(headerSize, tupleSize) ==
        if offset < headerSize then offset + RoundUp(headerSize - offset, tupleSize) else offset
      decreases headerSize - offset
    {
      offset := offset + tupleSize;
    }
  }

  method ParseTuples(stream: Stream, width: nat, cuOffset: nat) returns (ret: bool, tuples: seq<Range>)
    requires stream.Valid() && width in {4, 8}
    modifies stream
    ensures stream.Valid()
    ensures Tuples(ret, tuples, stream.position)
      == TuplesAt(stream.data, stream.bigEndian, width, cuOffset, old(stream.position))
  {
    hide Fixed, Pow256, TuplesAt;
    ret, tuples := true, [];
    var more := true;
    ghost var whole := TuplesAt(stream.data, stream.bigEndian, width, cuOffset, stream.position);
    TuplesEnd(stream.data, stream.bigEndian, width, cuOffset);
    while stream.position < |stream.data| && more
      invariant stream.Valid() && (more ==> ret)
      invariant more ==>
        var rest := TuplesAt(stream.data, stream.bigEndian, width, cuOffset, stream.position);
        whole.ok == rest.ok && whole.end == rest.end && whole.ranges == tuples + rest.ranges
      invariant !more ==> whole == Tuples(ret, tuples, stream.position)
      decreases |stream.data| - stream.position, more
    {
      TuplesStep(stream.data, stream.bigEndian, width, cuOffset, stream.position, tuples);
      var address, length;
      ret, address, length := ReadTuple(stream, width);
      if (address != 0 || length != 0) && ret {
        tuples := tuples + [Range(address, (address + length) % Pow256(width), cuOffset)];
      } else {
        more := false;
      }
    }
  }

  lemma TuplesEnd(data: seq<Byte>, bigEndian: bool, width: nat, cuOffset: nat)
    requires width > 0
    ensures TuplesAt(data, bigEndian, width, cuOffset, |data|) == Tuples(true, [], |data|)
  {
  }

  method ReadTuple(stream: Stream, width: nat) returns (ret: bool, address: nat, length: nat)
    requires stream.Valid() && stream.position < |stream.data| && width > 0
    modifies stream
    ensures stream.Valid() && stream.position == Min(old(stream.position) + 2 * width, |stream.data|)
    ensures
      var pos := old(stream.position);
      && ret == (pos + 2 * width <= |stream.data|)
      && (ret ==> && address == Fixed(stream.data[pos..pos + width], stream.bigEndian)
                  && length == Fixed(stream.data[pos + width..pos + 2 * width], stream.bigEndian))
  {
    ret := true;
    var count;
    address, count := stream.ReadFixed(width, 0);
    if count != width {
      ret := false;
    }
    length, count := stream.ReadFixed(width, 0);
    if count != width {
      ret := false;
    }
  }

  // ---- Sets as section 6.1.2 writes them ----

  datatype RawSet = RawSet(cuOffset: nat, width: nat, entries: seq<(nat, nat)>)

  predicate WellFormed(x: RawSet) {
    && x.width in {4, 8} && x.cuOffset < Pow256(4) && x.entries != []
    && 12 + 2 * x.width * (|x.entries| + 1) < Pow256(4)
    && forall i | 0 <= i < |x.entries| ::
         && x.entries[i].0 + x.entries[i].1 < Pow256(x.width) && x.entries[i] != (0, 0)
  }

  function RangesOf(entries: seq<(nat, nat)>, cuOffset: nat): seq<Range> {
    if entries == [] then []
    else [Range(entries[0].0, entries[0].0 + entries[0].1, cuOffset)] + RangesOf(entries[1..], cuOffset)
  }

  function EncodeTuples(entries: seq<(nat, nat)>, width: nat, bigEndian: bool): (bs: seq<Byte>)
    ensures |bs| == 2 * width * (|entries| + 1)
  {
    if entries == [] then EncodeFixed(0, width, bigEndian) + EncodeFixed(0, width, bigEndian)
    else
      var pair := EncodeFixed(entries[0].0, width, bigEndian) + EncodeFixed(entries[0].1, width, bigEndian);
      pair + EncodeTuples(entries[1..], width, bigEndian)
  }

  /** Length, version 2, unit offset, address size, segment size 0, four bytes of padding. */
  function EncodeHeader(x: RawSet, bigEndian: bool): (bs: seq<Byte>)
    requires WellFormed(x)
    ensures |bs| == 16
  {
    EncodeFixed(12 + 2 * x.width * (|x.entries| + 1), 4, bigEndian) + EncodeFixed(2, 2, bigEndian)
    + EncodeFixed(x.cuOffset, 4, bigEndian) + EncodeFixed(x.width, 1, bigEndian) + [0] + [0, 0, 0, 0]
  }

  function EncodeSets(xs: seq<RawSet>, bigEndian: bool): seq<Byte>
    requires forall i | 0 <= i < |xs| :: WellFormed(xs[i])
  {
    if xs == [] then []
    else
      EncodeHeader(xs[0], bigEndian) + EncodeTuples(xs[0].entries, xs[0].width, bigEndian)
      + EncodeSets(xs[1..], bigEndian)
  }

  function AllRanges(xs: seq<RawSet>): seq<Range> {
    if xs == [] then [] else RangesOf(xs[0].entries, xs[0].cuOffset) + AllRanges(xs[1..])
  }

  lemma {:induction false} TuplesRoundTrip(pre: seq<Byte>, entries: seq<(nat, nat)>, width: nat, bigEndian: bool,
                                           cuOffset: nat, rest: seq<Byte>)
    requires width > 0
    requires forall i | 0 <= i < |entries| :: entries[i].0 + entries[i].1 < Pow256(width) && entries[i] != (0, 0)
    ensures
      var bs := EncodeTuples(entries, width, bigEndian);
      TuplesAt(pre + bs + rest, bigEndian, width, cuOffset, |pre|)
        == Tuples(true, RangesOf(entries, cuOffset), |pre| + |bs|)
    decreases |entries|
  {
    hide EncodeFixed, Pow256, TuplesAt;
    var bs := EncodeTuples(entries, width, bigEndian);
    if entries == [] {
      TuplesLast(pre, width, bigEndian, cuOffset, rest);
    } else {
      var (a, n) := entries[0];
      var x, y := EncodeFixed(a, width, bigEndian), EncodeFixed(n, width, bigEndian);
      var tail := EncodeTuples(entries[1..], width, bigEndian);
      assert pre + bs + rest == pre + x + y + (tail + rest) == (pre + x + y) + tail + rest;
      TuplesFirst(pre, a, n, width, bigEndian, cuOffset, tail + rest);
      TuplesRoundTrip(pre + x + y, entries[1..], width, bigEndian, cuOffset, rest);
    }
  }

  lemma {:induction false} TuplesLast(pre: seq<Byte>, width: nat, bigEndian: bool, cuOffset: nat, rest: seq<Byte>)
    requires width > 0
    ensures
      var zero := EncodeFixed(0, width, bigEndian);
      TuplesAt(pre + (zero + zero) + rest, bigEndian, width, cuOffset, |pre|) == Tuples(true, [], |pre| + 2 * width)
  {
    hide Fixed, EncodeFixed, TuplesAt;
    var zero := EncodeFixed(0, width, bigEndian);
    PairHere(pre, 0, 0, width, bigEndian, rest);
    assert pre + (zero + zero) + rest == pre + zero + zero + rest;
    TuplesStep(pre + zero + zero + rest, bigEndian, width, cuOffset, |pre|, []);
  }

  lemma {:induction false} TuplesFirst(pre: seq<Byte>, a: nat, n: nat, width: nat, bigEndian: bool, cuOffset: nat,
      rest: seq<Byte>)
    requires width > 0 && a + n < Pow256(width) && (a, n) != (0, 0)
    ensures
      var x, y := EncodeFixed(a, width, bigEndian), EncodeFixed(n, width, bigEndian);
      var data := pre + x + y + rest;
      var t := TuplesAt(data, bigEndian, width, cuOffset, |pre + x + y|);
      TuplesAt(data, bigEndian, width, cuOffset, |pre|) == Tuples(t.ok, [Range(a, a + n, cuOffset)] + t.ranges, t.end)
  {
    hide Fixed, EncodeFixed, Pow256;
    PairHere(pre, a, n, width, bigEndian, rest);
    ModSmall(a + n, Pow256(width));
  }

  lemma ModSmall(x: nat, m: nat)
    requires x < m
    ensures x % m == x
  {
  }

  lemma {:induction false} HeaderReadBack(pre: seq<Byte>, x: RawSet, bigEndian: bool, rest: seq<Byte>)
    requires WellFormed(x)
    ensures
      var data, pos := pre + EncodeHeader(x, bigEndian) + rest, |pre|;
      && FixedAt(data, pos, 4, bigEndian, 0) == 12 + 2 * x.width * (|x.entries| + 1)
      && FixedAt(data, pos + 6, 4, bigEndian, 0) == x.cuOffset
      && FixedAt(data, pos + 10, 1, bigEndian, 0) == x.width
  {
    hide EncodeFixed, FixedAt;
    var length := 12 + 2 * x.width * (|x.entries| + 1);
    var a, b, c, d := EncodeFixed(length, 4, bigEndian), EncodeFixed(2, 2, bigEndian),
      EncodeFixed(x.cuOffset, 4, bigEndian), EncodeFixed(x.width, 1, bigEndian);
    var zeros: seq<Byte> := [0, 0, 0, 0];
    var data := pre + EncodeHeader(x, bigEndian) + rest;
    assert data == pre + a + (b + c + d + [0] + zeros + rest);
    assert data == (pre + a + b) + c + (d + [0] + zeros + rest);
    assert data == (pre + a + b + c) + d + ([0] + zeros + rest);
    assert Pow256(1) == 0x100;
    FixedHere(pre, length, 4, bigEndian, b + c + d + [0] + zeros + rest);
    FixedHere(pre + a + b, x.cuOffset, 4, bigEndian, d + [0] + zeros + rest);
    FixedHere(pre + a + b + c, x.width, 1, bigEndian, [0] + zeros + rest);
  }

  lemma {:induction false} SetRoundTrip(pre: seq<Byte>, x: RawSet, bigEndian: bool, policy: SeekPolicy, rest: seq<Byte>)
    requires WellFormed(x)
    ensures
      var header, bs := EncodeHeader(x, bigEndian), EncodeTuples(x.entries, x.width, bigEndian);
      SetAt(pre + header + bs + rest, bigEndian, policy, |pre|)
        == Tuples(true, RangesOf(x.entries, x.cuOffset), |pre| + |header| + |bs|)
  {
    hide EncodeTuples, EncodeHeader, TuplesAt, FixedAt;
    var header, bs := EncodeHeader(x, bigEndian), EncodeTuples(x.entries, x.width, bigEndian);
    var data := pre + header + bs + rest;
    assert data == pre + header + (bs + rest) == (pre + header) + bs + rest;
    HeaderReadBack(pre, x, bigEndian, bs + rest);
    TuplesRoundTrip(pre + header, x.entries, x.width, bigEndian, x.cuOffset, rest);
    assert RoundUp(12, 2 * x.width) == 16;
  }

  /** Serialised sets are parsed to exactly their ranges, to the end of the stream. */
  lemma {:induction false} SetsRoundTrip(pre: seq<Byte>, xs: seq<RawSet>, bigEndian: bool, policy: SeekPolicy)
    requires forall i | 0 <= i < |xs| :: WellFormed(xs[i])
    ensures
      var t := SetsAt(pre + EncodeSets(xs, bigEndian), bigEndian, policy, |pre|);
      t.ok && t.ranges == AllRanges(xs)
    decreases |xs|
  {
    hide SetAt, SetsAt, EncodeHeader, EncodeTuples, RangesOf;
    var data := pre + EncodeSets(xs, bigEndian);
    if xs == [] {
      assert data == pre;
      SetsEnd(data, bigEndian, policy);
    } else {
      var header, bs := EncodeHeader(xs[0], bigEndian), EncodeTuples(xs[0].entries, xs[0].width, bigEndian);
      var tail := EncodeSets(xs[1..], bigEndian);
      var first := RangesOf(xs[0].entries, xs[0].cuOffset);
      assert data == pre + header + bs + tail == (pre + header + bs) + tail;
      SetRoundTrip(pre, xs[0], bigEndian, policy, tail);
      RangesOfNonEmpty(xs[0].entries, xs[0].cuOffset);
      SetsFirst(data, bigEndian, policy, |pre|, first, |pre + header + bs|);
      SetsRoundTrip(pre + header + bs, xs[1..], bigEndian, policy);
    }
  }

  lemma {:induction false} SetsFirst(data: seq<Byte>, bigEndian: bool, policy: SeekPolicy, pos: nat,
      first: seq<Range>, next: nat)
    requires pos < |data| && first != []
    requires SetAt(data, bigEndian, policy, pos) == Tuples(true, first, next)
    ensures next <= |data|
    ensures
      var all, rest := SetsAt(data, bigEndian, policy, pos), SetsAt(data, bigEndian, policy, next);
      all.ok == rest.ok && all.ranges == first + rest.ranges
  {
    hide SetAt;
  }

  lemma RangesOfNonEmpty(entries: seq<(nat, nat)>, cuOffset: nat)
    ensures |RangesOf(entries, cuOffset)| == |entries|
  {
  }
}
