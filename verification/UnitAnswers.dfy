/** A whole unit, from its bytes to the answers about its tree. */
module UnitAnswers {
  import opened Bytes
  import opened Input
  import opened FormValue
  import opened DebugInfo
  import opened DieTree
  import opened DieQueries
  import opened CompileUnit

  function HeaderBytes(s: Section, length: nat): seq<Byte> {
    EncodeFixed(length, 4, s.bigEndian) + EncodeFixed(s.env.version, 2, s.bigEndian)
    + EncodeFixed(0, 4, s.bigEndian) + EncodeFixed(s.env.addrSize, 1, s.bigEndian)
  }

  function UnitBytes(s: Section, t: Tree): seq<Byte>
    requires WellFormed(t, s)
  {
    HeaderBytes(s, 7 + |TreeBytes(t, s)|) + TreeBytes(t, s)
  }

  /** The four fields of a header, one behind the other. */
  lemma {:induction false} HeaderSlices(data: seq<Byte>, pos: nat, a: seq<Byte>, b: seq<Byte>, c: seq<Byte>,
      d: seq<Byte>)
    requires |a| == 4 && |b| == 2 && |c| == 4 && |d| == 1
    requires pos + HEADER_SIZE <= |data| && data[pos..pos + HEADER_SIZE] == a + b + c + d
    ensures data[pos..pos + 4] == a && data[pos + 4..pos + 6] == b && data[pos + 6..pos + 10] == c
      && data[pos + 10..pos + 11] == d
  {
    var all := a + b + c + d;
    assert all[..4] == a && all[4..6] == b && all[6..10] == c && all[10..] == d;
    assert data[pos..pos + 11] == all;
  }

  lemma {:induction false} HeaderReadBack(s: Section, pos: nat, length: nat)
    requires At(s, pos, HeaderBytes(s, length)) && length < WORD32
    ensures |HeaderBytes(s, length)| == HEADER_SIZE
    ensures HeaderAt(s.data, s.bigEndian, pos) == Header(length, s.env.version, 0, s.env.addrSize)
  {
    hide *;
    FieldWidths(s, length);
    HeaderFields(s, pos, length);
    FixedRoundTrip(length, 4, s.bigEndian);
    FixedRoundTrip(s.env.version, 2, s.bigEndian);
    FixedRoundTrip(0, 4, s.bigEndian);
    FixedRoundTrip(s.env.addrSize, 1, s.bigEndian);
  }

  lemma FieldWidths(s: Section, length: nat)
    requires length < WORD32
    ensures length < Pow256(4) && s.env.version < 0x10 && s.env.addrSize < 0x10
    ensures s.env.version < Pow256(2) && 0 < Pow256(4) && s.env.addrSize < Pow256(1)
  {
    assert Pow256(1) == 0x100 && Pow256(2) == 0x1_0000 && Pow256(3) == 0x100_0000 && Pow256(4) == WORD32;
  }

  /** The fields are read each from its own slice. */
  lemma {:induction false} HeaderFields(s: Section, pos: nat, length: nat)
    requires At(s, pos, HeaderBytes(s, length))
    ensures |HeaderBytes(s, length)| == HEADER_SIZE && pos + HEADER_SIZE <= |s.data|
    ensures
      var be := s.bigEndian;
      HeaderAt(s.data, be, pos) ==
      Header(Fixed(EncodeFixed(length, 4, be), be), Fixed(EncodeFixed(s.env.version, 2, be), be) % 0x10,
             Fixed(EncodeFixed(0, 4, be), be), Fixed(EncodeFixed(s.env.addrSize, 1, be), be) % 0x10)
  {
    hide Fixed, EncodeFixed;
    HeaderSlices(s.data, pos, EncodeFixed(length, 4, s.bigEndian), EncodeFixed(s.env.version, 2, s.bigEndian),
                 EncodeFixed(0, 4, s.bigEndian), EncodeFixed(s.env.addrSize, 1, s.bigEndian));
  }

  /** Which units are taken: of any version and address size whose low four bits are those of a version
      from 2 to 4 and of 4 or 8 bytes, so that version 18 is taken for 2. */
  lemma {:induction false} HeaderTaken(data: seq<Byte>, pos: nat, length: nat, version: nat, offset: nat,
      addrSize: nat, bigEndian: bool)
    requires length < WORD32 && version < 0x1_0000 && offset < WORD32 && addrSize < 0x100
    requires pos + 11 <= |data| && data[pos..pos + 11] ==
      EncodeFixed(length, 4, bigEndian) + EncodeFixed(version, 2, bigEndian) + EncodeFixed(offset, 4, bigEndian)
      + EncodeFixed(addrSize, 1, bigEndian)
    ensures HeaderAt(data, bigEndian, pos).Supported() <==>
      length != 0xFFFF_FFFF && version % 16 in {2, 3, 4} && addrSize % 16 in {4, 8}
  {
    hide Fixed, EncodeFixed, Pow256;
    Widths();
    HeaderSlices(data, pos, EncodeFixed(length, 4, bigEndian), EncodeFixed(version, 2, bigEndian),
                 EncodeFixed(offset, 4, bigEndian), EncodeFixed(addrSize, 1, bigEndian));
    FixedRoundTrip(length, 4, bigEndian);
    FixedRoundTrip(version, 2, bigEndian);
    FixedRoundTrip(addrSize, 1, bigEndian);
  }

  lemma Widths()
    ensures Pow256(1) == 0x100 && Pow256(2) == 0x1_0000 && Pow256(4) == WORD32
  {
    assert Pow256(3) == 0x100_0000;
  }

  /** The bytes of a unit stand at `pos`. */
  predicate UnitAt(s: Section, t: Tree, pos: nat)
    requires WellFormed(t, s)
  {
    At(s, pos, UnitBytes(s, t)) && |TreeBytes(t, s)| + 8 < WORD32 && s.env.format == 32
  }

  /** The header says where the unit ends and how its values are to be read. */
  lemma {:induction false} UnitHeader(s: Section, t: Tree, pos: nat)
    requires WellFormed(t, s) && UnitAt(s, t, pos)
    ensures |UnitBytes(s, t)| == HEADER_SIZE + |TreeBytes(t, s)| && pos + |UnitBytes(s, t)| <= |s.data|
    ensures At(s, pos + HEADER_SIZE, TreeBytes(t, s)) && |TreeBytes(t, s)| < WORD32
    ensures
      var h := HeaderAt(s.data, s.bigEndian, pos);
      h.Supported() && h.length == |UnitBytes(s, t)| - 4 && SectionFor(s.data, s.bigEndian, s.table, h) == s
  {
    hide TreeBytes, HeaderAt, WellFormed;
    var body := TreeBytes(t, s);
    AtSplit(s, pos, HeaderBytes(s, 7 + |body|), body);
    HeaderReadBack(s, pos, 7 + |body|);
  }

  /** A unit of one tree, written as section 7.5 says, is parsed to the rows of the tree in prefix
      order at their true depths, and nothing stands in the way of the parser. */
  lemma {:induction false} UnitParsed(s: Section, t: Tree, full: bool, pos: nat)
    requires WellFormed(t, s) && UnitAt(s, t, pos)
    ensures
      var start, end := pos + HEADER_SIZE, pos + |UnitBytes(s, t)|;
      && start <= end <= |s.data| && Complete(s, full, start, end)
      && Rows(s, full, start, end, 0) == Preorder(t, s, full, start, 0)
  {
    hide *;
    UnitHeader(s, t, pos);
    UnitReadBack(s, t, full, pos + HEADER_SIZE);
  }

  /** Of such a unit, for every row but the root: the rows of its ancestors and of its subtree are
      found, and parsing the row's entry later gives what parsing it at once would have. */
  lemma {:induction false} UnitAnswers(s: Section, t: Tree, pos: nat, i: nat)
    requires WellFormed(t, s) && UnitAt(s, t, pos) && 0 < i < Count(t)
    ensures
      var rows := Rows(s, false, pos + HEADER_SIZE, pos + |UnitBytes(s, t)|, 0);
      var eager := Preorder(t, s, true, pos + HEADER_SIZE, 0);
      && |rows| == |eager| == Count(t) && RowsValid(s, rows)
      && ParentsOf(DepthList(rows), i) == Ancestors([t], 0, i, [])
      && AllChildrenOf(DepthList(rows), i) == Interval(i + 1, i + Count(EntryAt([t], 0, i)))
      && FullAt(s, rows[i].offset) == eager[i].die
  {
    hide *;
    UnitParsed(s, t, false, pos);
    UnitParsed(s, t, true, pos);
    PreorderDepths(t, s, false, pos + HEADER_SIZE, 0);
    ParentsAreAncestors(t, i);
    ChildrenAreSubtree(t, i);
    LazyIsEager(s, pos + HEADER_SIZE, pos + |UnitBytes(s, t)|, 0);
  }
}
