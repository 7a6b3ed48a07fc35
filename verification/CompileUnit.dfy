/** A compile unit: the table of its entries, the questions about it, and the search for the
    entries that hold an address. */
module CompileUnit {
  import opened Wrappers
  import opened Bytes
  import opened Input
  import opened Leb128
  import opened FormValue
  import opened DebugInfo
  import opened DieTree
  import opened DieQueries
  import opened RangeTable

  const TAG_INLINED_SUBROUTINE: nat := 0x1d
  const TAG_SUBPROGRAM: nat := 0x2e
  const AT_HIGH_PC := 0x12
  const AT_RANGES := 0x55

  // ---- The header of a unit (section 7.5.1.1 of DWARF 4) ----

  const HEADER_SIZE: nat := 11

  /** Of the version and the address size only the low four bits are looked at. */
  datatype Header = Header(length: nat, version: nat, abbrOffset: nat, addrSize: nat) {
    predicate Supported() {
      length != 0xffff_ffff && 2 <= version <= 4 && addrSize in {4, 8}
    }
  }

  function HeaderAt(data: seq<Byte>, bigEndian: bool, pos: nat): Header
    requires pos + HEADER_SIZE <= |data|
  {
    Header(Fixed(data[pos..pos + 4], bigEndian), Fixed(data[pos + 4..pos + 6], bigEndian) % 0x10,
           Fixed(data[pos + 6..pos + 10], bigEndian), Fixed(data[pos + 10..pos + 11], bigEndian) % 0x10)
  }

  function SectionFor(data: seq<Byte>, bigEndian: bool, table: AbbreviationTable, h: Header): Section
    requires h.Supported()
  {
    Section(data, bigEndian, table, RawEnv.Env(h.addrSize, 32, h.version))
  }

  // ---- Which addresses an entry holds (section 2.17 of DWARF 4) ----

  datatype FormClass = InvalidClass | AddressClass | BlockClass | ConstantClass | ExprlocClass | FlagClass
    | ReferenceClass | StringClass

  function ClassOf(form: Form): FormClass {
    match form
    case Addr => AddressClass
    case Block | Block1 | Block2 | Block4 => BlockClass
    case Data1 | Data2 | Data4 | Data8 | Sdata | Udata => ConstantClass
    case Exprloc => ExprlocClass
    case Flag | FlagPresent => FlagClass
    case RefAddr | Ref1 | Ref2 | Ref4 | Ref8 | RefUdata | RefSig8 => ReferenceClass
    case String | Strp => StringClass
    case _ => InvalidClass
  }

  function LowPC(die: Entry): nat {
    AddressBy(die, AT_LOW_PC)
  }

  function HighPC(die: Entry, version: nat): nat {
    match FormBy(die, AT_HIGH_PC)
    case None => INVALID_ADDRESS
    case Some(v) =>
      if version >= 4 then
        match ClassOf(v.form)
        case ConstantClass => if LowPC(die) == INVALID_ADDRESS then INVALID_ADDRESS
          else (LowPC(die) + AsUInt64(v.value)) % WORD64
        case AddressClass => AsUInt64(v.value)
        case _ => INVALID_ADDRESS
      else AsUInt64(v.value)
  }

  /** The section with the range lists, if there is one. */
  datatype RangeSection = NoRanges | RangeSection(data: seq<Byte>, bigEndian: bool, width: nat) {
    predicate Usable() {
      RangeSection? ==> width > 0
    }
  }

  /** By the interval of the two attributes if there are both, or else by the range list. */
  predicate InRange(die: Entry, address: nat, base: nat, version: nat, r: RangeSection)
    requires r.Usable()
  {
    var hi, lo := HighPC(die, version), LowPC(die);
    if hi == INVALID_ADDRESS || lo == INVALID_ADDRESS then
      match FormBy(die, AT_RANGES)
      case None => false
      case Some(v) =>
        && r.RangeSection?
        && AnyContains(RangesAt(r.data, r.bigEndian, r.width, Min(AsUInt64(v.value), |r.data|)), base, address)
    else lo <= address < hi
  }

  /** In version 4 a constant is an offset: the entry holds exactly the addresses from the low one
      on, as many as it says, as long as the sum stays below the value that stands for "none". */
  lemma HighPcIsOffset(die: Entry, address: nat, base: nat, r: RangeSection)
    requires r.Usable()
    requires FormBy(die, AT_HIGH_PC).Some? && ClassOf(FormBy(die, AT_HIGH_PC).value.form) == ConstantClass
    requires FormBy(die, AT_LOW_PC).Some? && LowPC(die) < INVALID_ADDRESS
    ensures
      var length := AsUInt64(FormBy(die, AT_HIGH_PC).value.value);
      LowPC(die) + length < INVALID_ADDRESS ==>
        (InRange(die, address, base, 4, r) <==> LowPC(die) <= address < LowPC(die) + length)
  {
  }

  /** Without a range list beside it, that is also the only way: at or above that value the sum is
      taken for "none" or wraps, and the entry holds nothing. */
  lemma {:induction false} HighPcExact(die: Entry, base: nat, r: RangeSection)
    requires r.Usable() && FormBy(die, AT_RANGES).None?
    requires FormBy(die, AT_HIGH_PC).Some? && ClassOf(FormBy(die, AT_HIGH_PC).value.form) == ConstantClass
    requires FormBy(die, AT_LOW_PC).Some? && LowPC(die) < INVALID_ADDRESS
    requires AsUInt64(FormBy(die, AT_HIGH_PC).value.value) < WORD64
    ensures
      var length := AsUInt64(FormBy(die, AT_HIGH_PC).value.value);
      (forall address | 0 <= address < WORD64 ::
         InRange(die, address, base, 4, r) <==> LowPC(die) <= address < LowPC(die) + length)
      <==> LowPC(die) + length < INVALID_ADDRESS
  {
    var low, length := LowPC(die), AsUInt64(FormBy(die, AT_HIGH_PC).value.value);
    if low + length >= INVALID_ADDRESS {
      assert !InRange(die, low, base, 4, r);
    }
  }

  /** From 1 on, 2^64 - 2 addresses long: such an entry holds no address. */
  lemma {:induction false} HighPcLost(tag: nat, base: nat, r: RangeSection, address: nat)
    requires r.Usable()
    ensures
      var low, high := Kept(AT_LOW_PC, Addr, Unsigned(1)), Kept(AT_HIGH_PC, Data8, Unsigned(WORD64 - 2));
      !InRange(Entry(tag, [low, high], 1, false), address, base, 4, r)
  {
    var low, high := Kept(AT_LOW_PC, Addr, Unsigned(1)), Kept(AT_HIGH_PC, Data8, Unsigned(WORD64 - 2));
    assert [low, high][1..] == [high] && [high][1..] == [];
    assert FindKept([high], AT_RANGES) == None && FindKept([high], AT_HIGH_PC) == Some(high);
  }

  // ---- Lazy and full entries ----

  /** The entry that full parsing finds at an offset. */
  function FullAt(s: Section, offset: nat): Entry
    requires offset <= |s.data|
  {
    ReadEntry(s, true, NEW_ENTRY, offset).1
  }

  /** A row is as the skipping pass left it, or as full parsing leaves it. */
  predicate RowValid(s: Section, row: Node) {
    && row.offset < |s.data|
    && ReadEntry(s, true, NEW_ENTRY, row.offset).0
    && (row.die == FullAt(s, row.offset) || row.die == FullAt(s, row.offset).(values := []))
  }

  predicate RowsValid(s: Section, rows: seq<Node>) {
    forall i | 0 <= i < |rows| :: RowValid(s, rows[i])
  }

  lemma {:induction false} FullIndependent(s: Section, row: Node)
    requires RowValid(s, row)
    ensures
      var (ok, die, _) := ReadEntry(s, true, row.die, row.offset);
      ok && die == FullAt(s, row.offset)
  {
    hide AllValues;
  }

  /** Without the values. */
  function Outline(row: Node): Node {
    row.(die := row.die.(values := []))
  }

  /** The lazy pass makes the same rows as the eager one, values apart, and parsing a row's entry
      at its offset afterwards gives the row of the eager pass. */
  lemma {:induction false} LazyIsEager(s: Section, pos: nat, end: nat, depth: nat)
    requires pos <= |s.data| && end <= |s.data| && Complete(s, true, pos, end)
    ensures
      var lazy, eager := Rows(s, false, pos, end, depth), Rows(s, true, pos, end, depth);
      && |lazy| == |eager| && RowsValid(s, lazy)
      && Complete(s, false, pos, end)
      && forall i | 0 <= i < |lazy| ::
           && Outline(lazy[i]) == Outline(eager[i])
           && FullAt(s, lazy[i].offset) == eager[i].die
    decreases |s.data| - pos
  {
    hide ReadEntry, EntryComplete, Rows, Complete;
    if pos < end {
      RowsUnfold(s, pos, end, depth);
      var (ok, die, next) := ReadEntry(s, true, NEW_ENTRY, pos);
      var below := if !ok then (depth + WORD32 - 1) % WORD32 else if die.hasChild then (depth + 1) % WORD32 else depth;
      LazyIsEager(s, next, end, below);
    } else {
      RowsNone(s, pos, end, depth);
    }
  }

  lemma RowsNone(s: Section, pos: nat, end: nat, depth: nat)
    requires end <= pos <= |s.data|
    ensures forall full :: Rows(s, full, pos, end, depth) == [] && Complete(s, full, pos, end)
  {
  }

  lemma {:induction false} RowsUnfold(s: Section, pos: nat, end: nat, depth: nat)
    requires pos < end <= |s.data| && Complete(s, true, pos, end)
    ensures
      var (ok, die, next) := ReadEntry(s, true, NEW_ENTRY, pos);
      var (ok0, die0, next0) := ReadEntry(s, false, NEW_ENTRY, pos);
      var below := if !ok then (depth + WORD32 - 1) % WORD32 else if die.hasChild then (depth + 1) % WORD32 else depth;
      && next0 == next > pos && ok0 == ok && Complete(s, true, next, end)
      && (Complete(s, false, next, end) ==> Complete(s, false, pos, end))
      && Rows(s, true, pos, end, depth) == (if ok then [Node(pos, die, depth)] else [])
        + Rows(s, true, next, end, below)
      && Rows(s, false, pos, end, depth) == (if ok then [Node(pos, die0, depth)] else [])
        + Rows(s, false, next, end, below)
      && (ok ==> RowValid(s, Node(pos, die0, depth)))
  {
    hide AllValues, NoValues, LengthsComplete;
    EntryForward(s, true, NEW_ENTRY, pos);
    SkipEntryAgrees(s, NEW_ENTRY, pos);
    RowsStep(s, true, pos, end, depth);
    RowsStep(s, false, pos, end, depth);
    LazyEntry(s, pos);
  }

  lemma {:induction false} LazyEntry(s: Section, pos: nat)
    requires pos < |s.data| && EntryComplete(s, pos)
    ensures
      var (ok, full, _) := ReadEntry(s, true, NEW_ENTRY, pos);
      var (ok0, lazy, _) := ReadEntry(s, false, NEW_ENTRY, pos);
      ok ==> lazy == full || lazy == full.(values := [])
  {
    hide AllValues, NoValues, LengthsComplete;
  }

  // ---- The search ----

  datatype Query = Query(address: nat, base: nat, version: nat, ranges: RangeSection)

  predicate Holds(s: Section, row: Node, q: Query)
    requires row.offset <= |s.data| && q.ranges.Usable()
  {
    InRange(FullAt(s, row.offset), q.address, q.base, q.version, q.ranges)
  }

  predicate Below(idxs: seq<nat>, n: nat) {
    forall k | 0 <= k < |idxs| :: idxs[k] < n
  }

  /** Of the given rows, the inlined subroutines that hold the address. */
  function InlinedBy(s: Section, rows: seq<Node>, q: Query, idxs: seq<nat>): seq<nat>
    requires q.ranges.Usable() && RowsValid(s, rows) && Below(idxs, |rows|)
  {
    if idxs == [] then []
    else
      var row := rows[idxs[0]];
      var rest := InlinedBy(s, rows, q, idxs[1..]);
      if row.die.tag == TAG_INLINED_SUBROUTINE && Holds(s, row, q) then [idxs[0]] + rest else rest
  }

  lemma {:induction false} DeeperInBounds(depths: seq<nat>, j: nat, depth: nat)
    requires j <= |depths|
    ensures Below(ScanDeeper(depths, j, depth), |depths|)
    decreases |depths| - j
  {
    if j < |depths| && depths[j] >= depth {
      DeeperInBounds(depths, j + 1, depth);
    }
  }

  lemma {:induction false} ChildrenInBounds(depths: seq<nat>, i: nat)
    requires i < |depths|
    ensures Below(AllChildrenOf(depths, i), |depths|)
  {
    DeeperInBounds(depths, i + 1, depths[i] + 1);
  }

  /** What row `i` contributes: itself, if it is a subprogram that holds the address, and then
      its inlined ones. */
  function DiesAt(s: Section, rows: seq<Node>, q: Query, i: nat): seq<nat>
    requires q.ranges.Usable() && RowsValid(s, rows) && i < |rows|
  {
    if rows[i].die.tag == TAG_SUBPROGRAM && Holds(s, rows[i], q) then
      hide RowValid, Holds, DepthList, AllChildrenOf, InlinedBy;
      ChildrenInBounds(DepthList(rows), i);
      [i] + InlinedBy(s, rows, q, AllChildrenOf(DepthList(rows), i))
    else []
  }

  /** What the rows from `i` on contribute, in order. */
  function DiesBy(s: Section, rows: seq<Node>, q: Query, i: nat): seq<nat>
    requires q.ranges.Usable() && RowsValid(s, rows) && i <= |rows|
    decreases |rows| - i
  {
    if i == |rows| then [] else DiesAt(s, rows, q, i) + DiesBy(s, rows, q, i + 1)
  }

  /** Only the outline and the offsets matter. */
  lemma {:induction false} InlinedStable(s: Section, rows: seq<Node>, rows1: seq<Node>, q: Query, idxs: seq<nat>)
    requires q.ranges.Usable() && RowsValid(s, rows) && RowsValid(s, rows1)
    requires Below(idxs, |rows|)
    requires SameOutlines(rows, rows1)
    ensures InlinedBy(s, rows, q, idxs) == InlinedBy(s, rows1, q, idxs)
    decreases |idxs|
  {
    hide RowValid;
    if idxs != [] {
      InlinedStable(s, rows, rows1, q, idxs[1..]);
      assert Outline(rows[idxs[0]]) == Outline(rows1[idxs[0]]);
    }
  }

  /** The stream of the entries, and, if there is a section with range lists, its memo table
      and stream. */
  ghost predicate Readable(s: Section, stream: Stream, r: RangeSection, ranges: RangeTable?, rangeStream: Stream)
    reads stream, ranges, rangeStream
  {
    && stream != rangeStream
    && stream.Valid() && stream.data == s.data && stream.bigEndian == s.bigEndian && stream.policy == Clamp
    && RangesReadable(r, ranges, rangeStream)
  }

  ghost predicate RangesReadable(r: RangeSection, ranges: RangeTable?, rangeStream: Stream)
    reads ranges, rangeStream
  {
    && (ranges == null <==> r.NoRanges?)
    && (ranges != null ==>
          && r.width in {4, 8} && ranges.Valid(r.width) && ranges.data == r.data && ranges.bigEndian == r.bigEndian
          && rangeStream.Valid() && rangeStream.data == r.data && rangeStream.bigEndian == r.bigEndian
            && rangeStream.policy == Clamp)
  }

  lemma ReadableIs(s: Section, stream: Stream, r: RangeSection, ranges: RangeTable?, rangeStream: Stream)
    ensures
      Readable(s, stream, r, ranges, rangeStream) <==>
      && stream != rangeStream
      && stream.Valid() && stream.data == s.data && stream.bigEndian == s.bigEndian && stream.policy == Clamp
      && RangesReadable(r, ranges, rangeStream)
    ensures Readable(s, stream, r, ranges, rangeStream) ==> r.Usable()
  {
  }

  /** Whether a full entry holds an address; the range list comes from the memo table. */
  method IsInRange(die: Entry, address: nat, base: nat, version: nat, r: RangeSection,
                   ranges: RangeTable?, rangeStream: Stream) returns (ret: bool)
    requires RangesReadable(r, ranges, rangeStream)
    modifies ranges, rangeStream
    ensures RangesReadable(r, ranges, rangeStream)
    ensures r.Usable() && ret == InRange(die, address, base, version, r)
  {
    hide RangesAt, AnyContains;
    var hi, lo := HighPC(die, version), LowPC(die);
    ret := false;
    if hi == INVALID_ADDRESS || lo == INVALID_ADDRESS {
      var attr := FormBy(die, AT_RANGES);
      if attr.Some? && ranges != null {
        var set_ := ranges.ExtractRangeSetBy(r.width, rangeStream, AsUInt64(attr.value.value));
        if set_.Some? {
          ret := ContainsAddress(set_.value, base, address);
        }
      }
    } else {
      ret := lo <= address < hi;
    }
  }

  class CompileUnit {
    var entries: seq<Node>
    var baseAddress: nat
    var version: nat

    constructor ()
      ensures entries == [] && baseAddress == INVALID_ADDRESS && version == 0
    {
      entries, baseAddress, version := [], INVALID_ADDRESS, 0;
    }

    /** Reads a unit: its header, and then its entries up to where the header says it ends.  A
        unit that the section cuts short is not allowed for: the loop would not end. */
    method Parse(table: AbbreviationTable, stream: Stream) returns (ret: bool)
      requires stream.Valid() && stream.policy == Clamp && stream.position + HEADER_SIZE <= |stream.data|
      requires
        var pos, h := stream.position, HeaderAt(stream.data, stream.bigEndian, stream.position);
        h.Supported() ==>
          && pos + 4 + h.length <= |stream.data|
          && Complete(SectionFor(stream.data, stream.bigEndian, table, h), false, pos + HEADER_SIZE, pos + 4 + h.length)
      modifies this, stream
      ensures stream.Valid()
      ensures
        var pos := old(stream.position);
        var h := HeaderAt(stream.data, stream.bigEndian, pos);
        if h.Supported() then
          && entries ==
             Rows(SectionFor(stream.data, stream.bigEndian, table, h), false, pos + HEADER_SIZE, pos + 4 + h.length, 0)
          && baseAddress == BaseOf(old(baseAddress), entries) && version == h.version
          && ret == (entries != [])
        else !ret && entries == old(entries) && baseAddress == old(baseAddress)
    {
      hide Rows, Complete, Fixed, BaseOf;
      ret := false;
      ghost var h := HeaderAt(stream.data, stream.bigEndian, stream.position);
      var length, count := stream.ReadFixed(4, 0);
      if length == 0xffff_ffff {
        return;
      }
      var end := stream.position + length;
      var rawVersion, abbrOffset, rawSize;
      rawVersion, count := stream.ReadFixed(2, 0);
      abbrOffset, count := stream.ReadFixed(4, 0);
      rawSize, count := stream.ReadFixed(1, 0);
      version := rawVersion % 0x10;
      var addrSize := rawSize % 0x10;
      assert h == Header(length, version, abbrOffset, addrSize);
      if 2 <= version <= 4 && addrSize in {4, 8} {
        var s := Section(stream.data, stream.bigEndian, table, RawEnv.Env(addrSize, 32, version));
        ParseEntries(s, stream, end);
        ret := entries != [];
      }
    }

    /** The entries between the stream's position and `end`, values skipped. */
    method ParseEntries(s: Section, stream: Stream, end: nat)
      requires stream.Valid() && stream.data == s.data && stream.bigEndian == s.bigEndian && stream.policy == Clamp
      requires end <= |s.data| && Complete(s, false, stream.position, end)
      modifies this`entries, this`baseAddress, stream
      ensures stream.Valid()
      ensures entries == Rows(s, false, old(stream.position), end, 0)
      ensures baseAddress == BaseOf(old(baseAddress), entries)
    {
      hide ReadEntry, EntryComplete, Rows, Complete, BaseOf;
      var depth: nat := 0;
      entries := [];
      ghost var whole := Rows(s, false, stream.position, end, 0);
      BaseOfNone(baseAddress);
      assert [] + whole == whole;
      while stream.position < end
        invariant stream.Valid() && Complete(s, false, stream.position, end)
        invariant whole == entries + Rows(s, false, stream.position, end, depth)
        invariant baseAddress == BaseOf(old(baseAddress), entries)
        decreases |s.data| - stream.position
      {
        LoopStep(s, stream.position, end, depth, entries);
        var die := Extract(s, stream, depth);
        if die.Some? {
          if die.value.hasChild {
            depth := (depth + 1) % WORD32;
          }
        } else {
          depth := (depth + WORD32 - 1) % WORD32;
        }
      }
      LoopEnd(s, stream.position, end, depth);
      assert entries + [] == entries;
    }

    /** One more row, unless there is a null entry or the entry cannot be read. */
    method Extract(s: Section, stream: Stream, depth: nat) returns (die: Option<Entry>)
      requires stream.Valid() && stream.data == s.data && stream.bigEndian == s.bigEndian && stream.policy == Clamp
      requires EntryComplete(s, stream.position)
      modifies this`entries, this`baseAddress, stream
      ensures stream.Valid()
      ensures
        var (ok, e, next) := ReadEntry(s, false, NEW_ENTRY, old(stream.position));
        && stream.position == next && die == (if ok then Some(e) else None)
        && entries == old(entries) + (if ok then [Node(old(stream.position), e, depth)] else [])
        && baseAddress == (if ok then BaseAfter(old(baseAddress), e) else old(baseAddress))
        && BaseOf(old(baseAddress), if ok then [Node(old(stream.position), e, depth)] else []) == baseAddress
    {
      hide ReadEntry, EntryComplete;
      var offset := stream.position;
      entries := entries + [Node(offset, NEW_ENTRY, 0)];
      var ok, e := ParseIf(s, NEW_ENTRY, stream);
      if !ok {
        entries := entries[..|entries| - 1];
        die := None;
      } else {
        entries := entries[|entries| - 1 := Node(offset, e, depth)];
        die := Some(e);
        if e.tag == TAG_COMPILE_UNIT {
          baseAddress := AddressBy(e, AT_LOW_PC);
          if baseAddress == INVALID_ADDRESS {
            baseAddress := AddressBy(e, AT_ENTRY_PC);
          }
        }
      }
    }

    /** From the parent of an entry up to the root. */
    method GetParentsIdxs(idx: nat) returns (ret: seq<nat>)
      requires idx < |entries| || idx == INVALID_IDX
      ensures ret == if idx == INVALID_IDX then [] else ParentsOf(DepthList(entries), idx)
    {
      hide *;
      ret := [];
      if idx != INVALID_IDX && entries[idx].depth > 0 {
        ghost var depths := DepthList(entries);
        var depth: nat := entries[idx].depth - 1;
        var i := idx;
        ghost var all := Climb(depths, i, depth);
        ClimbFrom(depths, idx);
        assert [] + all == all;
        while i > 0
          invariant 0 <= i <= idx && all == ret + Climb(depths, i, depth)
        {
          ClimbStep(depths, i, depth, ret);
          if entries[i - 1].depth <= depth {
            ret := ret + [i - 1];
            if depth == 0 {
              return;
            }
            depth := depth - 1;
          }
          i := i - 1;
        }
        ClimbEnd(depths, depth);
        assert ret + [] == ret;
      } else if idx != INVALID_IDX {
        NoneAtRoot(DepthList(entries), idx);
      }
    }

    /** The direct children, as far as they follow one another. */
    method GetChildrensIdxs(idx: nat) returns (ret: seq<nat>)
      requires idx < |entries| || idx == INVALID_IDX
      ensures ret == if idx == INVALID_IDX then [] else ChildrenOf(DepthList(entries), idx)
    {
      hide *;
      ret := [];
      if idx != INVALID_IDX && entries[idx].depth > 0 {
        ghost var depths := DepthList(entries);
        var depth: nat := entries[idx].depth + 1;
        var i := idx + 1;
        ghost var all := ScanEqual(depths, i, depth);
        ScansFrom(depths, idx);
        assert [] + all == all;
        while i < |entries|
          invariant i <= |entries| && all == ret + ScanEqual(depths, i, depth)
        {
          ScanEqualStep(depths, i, depth, ret);
          if entries[i].depth == depth {
            ret := ret + [i];
          } else {
            return;
          }
          i := i + 1;
        }
        ScansEnd(depths, depth);
        assert ret + [] == ret;
      } else if idx != INVALID_IDX {
        NoneAtRoot(DepthList(entries), idx);
      }
    }

    /** The whole subtree under an entry. */
    method GetAllChildrensIdxs(idx: nat) returns (ret: seq<nat>)
      requires idx < |entries| || idx == INVALID_IDX
      ensures ret == if idx == INVALID_IDX then [] else AllChildrenOf(DepthList(entries), idx)
    {
      hide *;
      ret := [];
      if idx != INVALID_IDX && entries[idx].depth > 0 {
        ghost var depths := DepthList(entries);
        var depth: nat := entries[idx].depth + 1;
        var i := idx + 1;
        ghost var all := ScanDeeper(depths, i, depth);
        ScansFrom(depths, idx);
        assert [] + all == all;
        while i < |entries|
          invariant i <= |entries| && all == ret + ScanDeeper(depths, i, depth)
        {
          ScanDeeperStep(depths, i, depth, ret);
          if entries[i].depth >= depth {
            ret := ret + [i];
          } else {
            return;
          }
          i := i + 1;
        }
        ScansEnd(depths, depth);
        assert ret + [] == ret;
      } else if idx != INVALID_IDX {
        NoneAtRoot(DepthList(entries), idx);
      }
    }

    /** Parses the whole entry of a row, at the offset the row has. */
    method FullExtract(s: Section, stream: Stream, idx: nat) returns (ok: bool)
      requires stream.Valid() && stream.data == s.data && stream.bigEndian == s.bigEndian && stream.policy == Clamp
      requires idx < |entries| && RowsValid(s, entries)
      modifies this`entries, stream
      ensures stream.Valid() && ok
      ensures RowsValid(s, entries)
      ensures entries == old(entries)[idx := old(entries)[idx].(die := FullAt(s, old(entries)[idx].offset))]
    {
      hide ReadEntry;
      stream.Seek(entries[idx].offset);
      FullIndependent(s, entries[idx]);
      var die;
      ok, die := ParseAll(s, entries[idx].die, stream);
      entries := entries[idx := entries[idx].(die := die)];
    }

    /** Of the given rows, the inlined subroutines that hold an address, their values parsed. */
    method GetInlinedBy(s: Section, stream: Stream, idxs: seq<nat>, q: Query, ranges: RangeTable?, rangeStream: Stream)
      returns (ret: seq<nat>)
      requires Readable(s, stream, q.ranges, ranges, rangeStream)
      requires RowsValid(s, entries) && q.base == baseAddress && q.version == version
      requires Below(idxs, |entries|)
      modifies this`entries, stream, ranges, rangeStream
      ensures Readable(s, stream, q.ranges, ranges, rangeStream)
      ensures RowsValid(s, entries) && SameOutlines(old(entries), entries)
      ensures ret == InlinedBy(s, old(entries), q, idxs)
    {
      hide *;
      ret := [];
      ghost var rows := entries;
      ReadableIs(s, stream, q.ranges, ranges, rangeStream);
      ghost var all := InlinedBy(s, rows, q, idxs);
      assert [] + all == all && idxs[0..] == idxs;
      OutlinesRefl(rows);
      var j := 0;
      while j < |idxs|
        invariant j <= |idxs| && |entries| == |rows| && q.base == baseAddress && q.version == version
        invariant Readable(s, stream, q.ranges, ranges, rangeStream)
        invariant RowsValid(s, rows) && RowsValid(s, entries) && SameOutlines(rows, entries)
        invariant Below(idxs, |rows|) && Below(idxs[j..], |rows|)
        invariant all == ret + InlinedBy(s, rows, q, idxs[j..])
      {
        InlinedByStep(s, rows, q, idxs, j, ret);
        var idx := idxs[j];
        SameRow(s, rows, entries, idx);
        if entries[idx].die.tag == TAG_INLINED_SUBROUTINE {
          ghost var before := entries;
          ReadableIs(s, stream, q.ranges, ranges, rangeStream);
          var ok := FullExtract(s, stream, idx);
          FilledRow(s, rows, before, entries, idx);
          if ok {
            var holds := IsInRange(entries[idx].die, q.address, q.base, q.version, q.ranges, ranges, rangeStream);
            HoldsFull(s, rows[idx], q);
            if holds {
              ret := ret + [idx];
            }
          }
          ReadableIs(s, stream, q.ranges, ranges, rangeStream);
        }
        j := j + 1;
      }
      assert idxs[j..] == [];
      InlinedByEnd(s, rows, q);
      assert ret + [] == ret;
    }

    /** The rows of the subprograms that hold an address, each followed by the inlined subroutines
        of its subtree that hold it.  Values are parsed where they are needed. */
    method GetDIEIdxsBy(s: Section, stream: Stream, q: Query, ranges: RangeTable?, rangeStream: Stream)
      returns (ret: seq<nat>)
      requires Readable(s, stream, q.ranges, ranges, rangeStream)
      requires RowsValid(s, entries) && q.base == baseAddress && q.version == version
      requires |entries| < INVALID_IDX
      modifies this`entries, stream, ranges, rangeStream
      ensures Readable(s, stream, q.ranges, ranges, rangeStream)
      ensures RowsValid(s, entries) && SameOutlines(old(entries), entries)
      ensures ret == DiesBy(s, old(entries), q, 0)
    {
      hide *;
      ret := [];
      ghost var rows := entries;
      ReadableIs(s, stream, q.ranges, ranges, rangeStream);
      ghost var all := DiesBy(s, rows, q, 0);
      assert [] + all == all;
      OutlinesRefl(rows);
      var i := 0;
      while i < |entries|
        invariant i <= |entries| == |rows| < INVALID_IDX && q.base == baseAddress && q.version == version
        invariant Readable(s, stream, q.ranges, ranges, rangeStream)
        invariant q.ranges.Usable() && RowsValid(s, rows) && RowsValid(s, entries) && SameOutlines(rows, entries)
        invariant all == ret + DiesBy(s, rows, q, i)
      {
        DiesByStep(s, rows, q, i, ret);
        var found := GetDIEIdxsAt(s, stream, rows, i, q, ranges, rangeStream);
        ret := ret + found;
        i := i + 1;
      }
      DiesByEnd(s, rows, q);
      assert ret + [] == ret;
    }

    /** One round of the search: what row `i`, if it is a subprogram, contributes. */
    method GetDIEIdxsAt(s: Section, stream: Stream, ghost rows: seq<Node>, i: nat, q: Query, ranges: RangeTable?,
        rangeStream: Stream)
      returns (ret: seq<nat>)
      requires Readable(s, stream, q.ranges, ranges, rangeStream)
      requires RowsValid(s, rows) && RowsValid(s, entries) && SameOutlines(rows, entries)
      requires q.base == baseAddress && q.version == version && i < |entries| == |rows| < INVALID_IDX
      modifies this`entries, stream, ranges, rangeStream
      ensures Readable(s, stream, q.ranges, ranges, rangeStream)
      ensures RowsValid(s, entries) && SameOutlines(rows, entries) && |entries| == |rows|
      ensures ret == DiesAt(s, rows, q, i)
    {
      hide *;
      ret := [];
      ReadableIs(s, stream, q.ranges, ranges, rangeStream);
      DiesAtIs(s, rows, q, i);
      SameRow(s, rows, entries, i);
      if entries[i].die.tag == TAG_SUBPROGRAM {
        if entries[i].die.values == [] {
          ghost var before := entries;
          var _ := FullExtract(s, stream, i);
          FilledRow(s, rows, before, entries, i);
        }
        HoldsFull(s, rows[i], q);
        var holds := IsInRange(entries[i].die, q.address, q.base, q.version, q.ranges, ranges, rangeStream);
        ReadableIs(s, stream, q.ranges, ranges, rangeStream);
        if holds {
          var idxs := GetAllChildrensIdxs(i);
          SameDepths(rows, entries);
          ChildrenInBounds(DepthList(rows), i);
          ghost var filled := entries;
          InlinedStable(s, rows, entries, q, idxs);
          var inlined := GetInlinedBy(s, stream, idxs, q, ranges, rangeStream);
          OutlinesTrans(rows, filled, entries);
          ret := [i] + inlined;
        }
      }
    }
  }

  predicate SameOutlines(rows: seq<Node>, rows1: seq<Node>) {
    && |rows| == |rows1|
    && forall k | 0 <= k < |rows| :: Outline(rows[k]) == Outline(rows1[k])
  }

  lemma {:induction false} SameDepths(rows: seq<Node>, rows1: seq<Node>)
    requires SameOutlines(rows, rows1)
    ensures DepthList(rows) == DepthList(rows1)
  {
    forall k | 0 <= k < |rows| ensures DepthList(rows)[k] == DepthList(rows1)[k] {
      assert Outline(rows[k]) == Outline(rows1[k]);
    }
  }

  lemma OutlinesRefl(rows: seq<Node>)
    ensures SameOutlines(rows, rows)
  {
  }

  lemma {:induction false} OutlinesTrans(a: seq<Node>, b: seq<Node>, c: seq<Node>)
    requires SameOutlines(a, b) && SameOutlines(b, c)
    ensures SameOutlines(a, c)
  {
    forall k | 0 <= k < |a| ensures Outline(a[k]) == Outline(c[k]) {
      assert Outline(a[k]) == Outline(b[k]) && Outline(b[k]) == Outline(c[k]);
    }
  }

  /** A row of the table, compared with the row it was at first. */
  lemma {:induction false} SameRow(s: Section, rows: seq<Node>, rows1: seq<Node>, i: nat)
    requires i < |rows| && SameOutlines(rows, rows1) && RowsValid(s, rows) && RowsValid(s, rows1)
    ensures |rows1| == |rows|
    ensures rows1[i].die.tag == rows[i].die.tag && rows1[i].offset == rows[i].offset <= |s.data|
    ensures rows1[i].die.values != [] ==> rows1[i].die == FullAt(s, rows[i].offset)
  {
    hide ReadEntry;
    assert Outline(rows[i]) == Outline(rows1[i]);
    assert RowValid(s, rows[i]) && RowValid(s, rows1[i]);
  }

  lemma {:induction false} FilledRow(s: Section, rows: seq<Node>, before: seq<Node>, after: seq<Node>, i: nat)
    requires i < |before| && SameOutlines(rows, before) && RowsValid(s, before)
    requires before[i].offset <= |s.data| && after == before[i := before[i].(die := FullAt(s, before[i].offset))]
    ensures SameOutlines(rows, after) && |after| == |rows| && rows[i].offset <= |s.data|
    ensures after[i].die == FullAt(s, rows[i].offset)
  {
    hide ReadEntry;
    assert RowValid(s, before[i]);
    forall k | 0 <= k < |rows| ensures Outline(rows[k]) == Outline(after[k]) {
      assert Outline(rows[k]) == Outline(before[k]);
    }
  }

  lemma DiesAtIs(s: Section, rows: seq<Node>, q: Query, i: nat)
    requires q.ranges.Usable() && RowsValid(s, rows) && i < |rows|
    ensures rows[i].offset <= |s.data|
    ensures
      var below := AllChildrenOf(DepthList(rows), i);
      && Below(below, |rows|)
      && DiesAt(s, rows, q, i) ==
         if rows[i].die.tag == TAG_SUBPROGRAM && Holds(s, rows[i], q) then [i] + InlinedBy(s, rows, q, below) else []
  {
    hide ReadEntry, Holds, InlinedBy, AllChildrenOf, DepthList;
    assert RowValid(s, rows[i]);
    ChildrenInBounds(DepthList(rows), i);
  }

  /** What a search finds depends on the outlines of the rows only: it is the same before and after any
      of them were parsed in full, by an earlier search or otherwise. */
  lemma {:induction false} SearchAgain(s: Section, rows: seq<Node>, rows1: seq<Node>, q: Query, i: nat)
    requires q.ranges.Usable() && RowsValid(s, rows) && RowsValid(s, rows1) && SameOutlines(rows, rows1)
    requires i <= |rows| == |rows1|
    ensures DiesBy(s, rows, q, i) == DiesBy(s, rows1, q, i)
    decreases |rows| - i
  {
    hide *;
    if i == |rows| {
      DiesByEnd(s, rows, q);
      DiesByEnd(s, rows1, q);
    } else {
      DiesByStep(s, rows, q, i, []);
      DiesByStep(s, rows1, q, i, []);
      DiesAtAgain(s, rows, rows1, q, i);
      SearchAgain(s, rows, rows1, q, i + 1);
      NothingBefore(DiesBy(s, rows, q, i), DiesAt(s, rows, q, i));
      NothingBefore(DiesBy(s, rows1, q, i), DiesAt(s, rows1, q, i));
    }
  }

  lemma {:induction false} DiesAtAgain(s: Section, rows: seq<Node>, rows1: seq<Node>, q: Query, i: nat)
    requires q.ranges.Usable() && RowsValid(s, rows) && RowsValid(s, rows1) && SameOutlines(rows, rows1)
    requires i < |rows| == |rows1|
    ensures DiesAt(s, rows, q, i) == DiesAt(s, rows1, q, i)
  {
    hide *;
    SameRow(s, rows, rows1, i);
    SameDepths(rows, rows1);
    DiesAtIs(s, rows, q, i);
    DiesAtIs(s, rows1, q, i);
    InlinedStable(s, rows, rows1, q, AllChildrenOf(DepthList(rows), i));
    HoldsFull(s, rows[i], q);
    HoldsFull(s, rows1[i], q);
  }

  lemma NothingBefore(a: seq<nat>, b: seq<nat>)
    ensures [] + a == a && [] + b == b
  {
  }

  lemma HoldsFull(s: Section, row: Node, q: Query)
    requires row.offset <= |s.data| && q.ranges.Usable()
    ensures Holds(s, row, q) == InRange(FullAt(s, row.offset), q.address, q.base, q.version, q.ranges)
  {
  }

  lemma {:induction false} InlinedByStep(s: Section, rows: seq<Node>, q: Query, idxs: seq<nat>, j: nat,
      before: seq<nat>)
    requires q.ranges.Usable() && RowsValid(s, rows) && j < |idxs| && Below(idxs, |rows|) && Below(idxs[j..], |rows|)
    ensures idxs[j] < |rows| && rows[idxs[j]].offset <= |s.data| && Below(idxs[j + 1..], |rows|)
    ensures before + InlinedBy(s, rows, q, idxs[j..]) ==
      (if rows[idxs[j]].die.tag == TAG_INLINED_SUBROUTINE && Holds(s, rows[idxs[j]], q)
       then before + [idxs[j]] else before)
        + InlinedBy(s, rows, q, idxs[j + 1..])
  {
    hide ReadEntry, Holds;
    assert idxs[j] == idxs[j..][0] && idxs[j..][1..] == idxs[j + 1..];
    var tail := idxs[j + 1..];
    forall k | 0 <= k < |tail| ensures tail[k] < |rows| {
      assert tail[k] == idxs[j + 1 + k];
    }
    assert RowValid(s, rows[idxs[j]]);
  }

  lemma InlinedByEnd(s: Section, rows: seq<Node>, q: Query)
    requires q.ranges.Usable() && RowsValid(s, rows)
    ensures InlinedBy(s, rows, q, []) == []
  {
  }

  lemma {:induction false} DiesByStep(s: Section, rows: seq<Node>, q: Query, i: nat, before: seq<nat>)
    requires q.ranges.Usable() && RowsValid(s, rows) && i < |rows|
    ensures before + DiesBy(s, rows, q, i) == before + DiesAt(s, rows, q, i) + DiesBy(s, rows, q, i + 1)
  {
    hide DiesAt, RowsValid;
  }

  lemma DiesByEnd(s: Section, rows: seq<Node>, q: Query)
    requires q.ranges.Usable() && RowsValid(s, rows)
    ensures DiesBy(s, rows, q, |rows|) == []
  {
  }

  lemma ClimbStep(depths: seq<nat>, i: nat, depth: nat, before: seq<nat>)
    requires 0 < i <= |depths|
    ensures before + Climb(depths, i, depth)
      == if depths[i - 1] > depth then before + Climb(depths, i - 1, depth)
         else if depth == 0 then before + [i - 1]
         else before + [i - 1] + Climb(depths, i - 1, depth - 1)
  {
  }

  lemma ClimbEnd(depths: seq<nat>, depth: nat)
    ensures Climb(depths, 0, depth) == []
  {
  }

  lemma ScanEqualStep(depths: seq<nat>, i: nat, depth: nat, before: seq<nat>)
    requires i < |depths|
    ensures before + ScanEqual(depths, i, depth)
      == if depths[i] == depth then before + [i] + ScanEqual(depths, i + 1, depth) else before
  {
  }

  lemma ScanDeeperStep(depths: seq<nat>, i: nat, depth: nat, before: seq<nat>)
    requires i < |depths|
    ensures before + ScanDeeper(depths, i, depth)
      == if depths[i] >= depth then before + [i] + ScanDeeper(depths, i + 1, depth) else before
  {
  }

  lemma ScansEnd(depths: seq<nat>, depth: nat)
    ensures ScanEqual(depths, |depths|, depth) == [] && ScanDeeper(depths, |depths|, depth) == []
  {
  }

  lemma BaseOfNone(base: nat)
    ensures BaseOf(base, []) == base
  {
  }

  lemma {:induction false} BaseOfAppend(base: nat, a: seq<Node>, b: seq<Node>)
    ensures BaseOf(base, a + b) == BaseOf(BaseOf(base, a), b)
    decreases |a|
  {
    if a == [] {
      assert a + b == b;
    } else {
      assert (a + b)[1..] == a[1..] + b;
      BaseOfAppend(BaseAfter(base, a[0].die), a[1..], b);
    }
  }

  lemma {:induction false} LoopStep(s: Section, pos: nat, end: nat, depth: nat, before: seq<Node>)
    requires pos < end <= |s.data| && Complete(s, false, pos, end)
    ensures EntryComplete(s, pos)
    ensures
      var (ok, e, next) := ReadEntry(s, false, NEW_ENTRY, pos);
      var row := if ok then [Node(pos, e, depth)] else [];
      var below := if !ok then (depth + WORD32 - 1) % WORD32 else if e.hasChild then (depth + 1) % WORD32 else depth;
      && next > pos && Complete(s, false, next, end)
      && before + Rows(s, false, pos, end, depth) == before + row + Rows(s, false, next, end, below)
      && forall base :: BaseOf(base, before + row) == BaseOf(BaseOf(base, before), row)
  {
    hide ReadEntry, EntryComplete, BaseOf, Complete, Rows;
    CompleteParts(s, pos, end);
    EntryForward(s, false, NEW_ENTRY, pos);
    RowsStep(s, false, pos, end, depth);
    var (ok, e, next) := ReadEntry(s, false, NEW_ENTRY, pos);
    var row := if ok then [Node(pos, e, depth)] else [];
    var below := if !ok then (depth + WORD32 - 1) % WORD32 else if e.hasChild then (depth + 1) % WORD32 else depth;
    Concat3(before, row, Rows(s, false, next, end, below));
    forall base ensures BaseOf(base, before + row) == BaseOf(BaseOf(base, before), row) {
      BaseOfAppend(base, before, row);
    }
  }

  lemma CompleteParts(s: Section, pos: nat, end: nat)
    requires pos < end <= |s.data| && Complete(s, false, pos, end)
    ensures EntryComplete(s, pos)
    ensures var next := ReadEntry(s, false, NEW_ENTRY, pos).2; next > pos ==> Complete(s, false, next, end)
  {
    hide ReadEntry, EntryComplete;
  }

  lemma LoopEnd(s: Section, pos: nat, end: nat, depth: nat)
    requires end <= pos <= |s.data|
    ensures Rows(s, false, pos, end, depth) == []
  {
  }
}
