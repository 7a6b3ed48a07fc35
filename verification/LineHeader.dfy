/** The header of a line table (section 6.2.4 of DWARF 4) and a whole table, written and read back. */
module LineHeader {
  import opened Bytes
  import opened Input
  import opened Leb128
  import opened FormValue
  import opened FormEncoding
  import opened LineProgram
  import opened LineTable
  import opened LineRows

  datatype FileEntry = FileEntry(name: seq<Byte>, directory: nat, time: nat, size: nat)

  /** What stands in a header. */
  datatype Written = Written(version: nat, params: Params, maxOps: Byte, directories: seq<seq<Byte>>,
    files: seq<FileEntry>)

  predicate IsName(s: seq<Byte>) {
    s != [] && 0 !in s && |s| < 4096
  }

  predicate Proper(h: Written) {
    && 2 <= h.version <= 4 && h.params.opcodeBase > 0
    && (forall k | 0 <= k < |h.directories| :: IsName(h.directories[k]))
    && forall k | 0 <= k < |h.files| :: IsName(h.files[k].name)
  }

  function DirectoryBytes(names: seq<seq<Byte>>): seq<Byte> {
    if names == [] then [0] else names[0] + [0] + DirectoryBytes(names[1..])
  }

  function FileBytes(f: FileEntry): seq<Byte> {
    f.name + [0] + (EncodeUleb(f.directory) + (EncodeUleb(f.time) + EncodeUleb(f.size)))
  }

  function FilesBytes(files: seq<FileEntry>): seq<Byte> {
    if files == [] then [0] else FileBytes(files[0]) + FilesBytes(files[1..])
  }

  /** The fields of one byte each, then the operand counts. */
  function FieldBytes(h: Written): seq<Byte> {
    var p := h.params;
    [p.minInst] + (if h.version == 4 then [h.maxOps] else [])
    + [if p.defaultIsStmt then 1 else 0, if p.lineBase < 0 then p.lineBase + 0x100 else p.lineBase,
       p.lineRange, p.opcodeBase]
    + p.lengths
  }

  /** What the length of the header counts. */
  function TailBytes(h: Written): seq<Byte> {
    FieldBytes(h) + (DirectoryBytes(h.directories) + FilesBytes(h.files))
  }

  function HeaderBytes(h: Written, program: nat, bigEndian: bool): seq<Byte> {
    EncodeFixed(6 + |TailBytes(h)| + program, 4, bigEndian) + EncodeFixed(h.version, 2, bigEndian)
    + EncodeFixed(|TailBytes(h)|, 4, bigEndian) + TailBytes(h)
  }

  // ---- Reading the parts ----

  /** `bs` stands at `pos`. */
  predicate Stands(data: seq<Byte>, pos: nat, bs: seq<Byte>) {
    pos + |bs| <= |data| && forall k | 0 <= k < |bs| :: data[pos + k] == bs[k]
  }

  lemma StandsParts(data: seq<Byte>, pos: nat, a: seq<Byte>, b: seq<Byte>)
    requires Stands(data, pos, a + b)
    ensures Stands(data, pos, a) && Stands(data, pos + |a|, b) && pos + |a| + |b| <= |data|
  {
    forall k | 0 <= k < |a| ensures data[pos + k] == a[k] {
      assert data[pos + k] == (a + b)[k];
    }
    forall k | 0 <= k < |b| ensures data[pos + |a| + k] == b[k] {
      assert data[pos + (|a| + k)] == (a + b)[|a| + k];
    }
  }

  lemma Around(data: seq<Byte>, pos: nat, bs: seq<Byte>)
    requires Stands(data, pos, bs)
    ensures pos + |bs| <= |data| && data == data[..pos] + bs + data[pos + |bs|..]
  {
  }

  lemma {:induction false} LengthsRead(data: seq<Byte>, pos: nat, lengths: seq<Byte>)
    requires Stands(data, pos, lengths)
    ensures LengthsAt(data, pos, |lengths|) == (lengths, pos + |lengths|)
    decreases |lengths|
  {
    if lengths != [] {
      assert data[pos + 0] == lengths[0];
      forall k | 0 <= k < |lengths[1..]| ensures data[pos + 1 + k] == lengths[1..][k] {
        assert data[pos + (k + 1)] == lengths[k + 1];
      }
      LengthsRead(data, pos + 1, lengths[1..]);
      assert [lengths[0]] + lengths[1..] == lengths && After(data, pos, 1) == pos + 1;
    }
  }

  lemma {:induction false} FieldsRead(h: Written, data: seq<Byte>, pos: nat)
    requires Proper(h) && Stands(data, pos, FieldBytes(h))
    ensures pos + |FieldBytes(h)| <= |data|
    ensures ParamsAt(h.version, data, pos) == (h.params, pos + |FieldBytes(h)|)
  {
    hide LengthsAt;
    var p := h.params;
    var four := [if p.defaultIsStmt then 1 else 0, if p.lineBase < 0 then p.lineBase + 0x100 else p.lineBase,
                 p.lineRange, p.opcodeBase];
    var first := [p.minInst] + if h.version == 4 then [h.maxOps] else [];
    StandsParts(data, pos, first + four, p.lengths);
    StandsParts(data, pos, first, four);
    LengthsRead(data, pos + |first + four|, p.lengths);
    assert data[pos + 0] == first[0];
    var at := pos + |first|;
    assert data[at + 0] == four[0] && data[at + 1] == four[1] && data[at + 2] == four[2] && data[at + 3] == four[3];
  }

  /** A name and the NUL behind it are read; of an empty one only the NUL. */
  lemma {:induction false} NameLength(data: seq<Byte>, pos: nat, name: seq<Byte>)
    requires Stands(data, pos, name + [0]) && 0 !in name && |name| < 4096
    ensures pos + |name| + 1 <= |data| && StringLength(data, pos, NAME_MAX) == |name| + 1
    ensures ByteAt(data, pos) == if name == [] then 0 else name[0]
  {
    hide StringLength;
    Around(data, pos, name + [0]);
    var pre, rest := data[..pos], data[pos + |name + [0]|..];
    assert pre + (name + [0]) + rest == pre + name + [0] + rest;
    StringHere(pre, name, rest, NAME_MAX);
    assert data[pos + 0] == (name + [0])[0];
  }

  lemma {:induction false} DirectoriesRead(data: seq<Byte>, pos: nat, names: seq<seq<Byte>>, end: nat)
    requires forall k | 0 <= k < |names| :: IsName(names[k])
    requires Stands(data, pos, DirectoryBytes(names)) && pos + |DirectoryBytes(names)| <= end
    ensures DirectoriesEnd(data, pos, end) == pos + |DirectoryBytes(names)|
    decreases |names|
  {
    hide StringLength;
    if names == [] {
      assert [] + [0] == [0];
      NameLength(data, pos, []);
    } else {
      StandsParts(data, pos, names[0] + [0], DirectoryBytes(names[1..]));
      NameLength(data, pos, names[0]);
      assert IsName(names[0]) && names[0][0] in names[0];
      DirectoriesRead(data, pos + |names[0]| + 1, names[1..], end);
    }
  }

  lemma {:induction false} NumberSkipped(data: seq<Byte>, pos: nat, n: nat)
    requires Stands(data, pos, EncodeUleb(n))
    ensures pos + |EncodeUleb(n)| <= |data| && Uleb(data, pos).end == pos + |EncodeUleb(n)|
  {
    hide Uleb, EncodeUleb;
    Around(data, pos, EncodeUleb(n));
    UlebAnywhere(data[..pos], EncodeUleb(n), data[pos + |EncodeUleb(n)|..]);
  }

  lemma {:induction false} NumbersSkipped(data: seq<Byte>, pos: nat, a: nat, b: nat, c: nat)
    requires Stands(data, pos, EncodeUleb(a) + (EncodeUleb(b) + EncodeUleb(c)))
    ensures
      var n := |EncodeUleb(a)| + |EncodeUleb(b)| + |EncodeUleb(c)|;
      pos + n <= |data| && SkipUlebs(data, pos, 3) == pos + n
  {
    hide Uleb, EncodeUleb, Stands;
    StandsParts(data, pos, EncodeUleb(a), EncodeUleb(b) + EncodeUleb(c));
    StandsParts(data, pos + |EncodeUleb(a)|, EncodeUleb(b), EncodeUleb(c));
    NumberSkipped(data, pos, a);
    NumberSkipped(data, pos + |EncodeUleb(a)|, b);
    NumberSkipped(data, pos + |EncodeUleb(a)| + |EncodeUleb(b)|, c);
    var next := pos + |EncodeUleb(a)|;
    assert SkipUlebs(data, next, 2) == SkipUlebs(data, next + |EncodeUleb(b)|, 1);
    assert SkipUlebs(data, next + |EncodeUleb(b)|, 1) == next + |EncodeUleb(b)| + |EncodeUleb(c)|;
  }

  lemma {:induction false} FilesRead(data: seq<Byte>, pos: nat, files: seq<FileEntry>, end: nat)
    requires forall k | 0 <= k < |files| :: IsName(files[k].name)
    requires Stands(data, pos, FilesBytes(files)) && pos + |FilesBytes(files)| <= end
    ensures FilesEnd(data, pos, end) == pos + |FilesBytes(files)|
    decreases |files|
  {
    hide StringLength, SkipUlebs, EncodeUleb;
    if files == [] {
      assert [] + [0] == [0];
      NameLength(data, pos, []);
    } else {
      var f := files[0];
      var numbers := EncodeUleb(f.directory) + (EncodeUleb(f.time) + EncodeUleb(f.size));
      StandsParts(data, pos, FileBytes(f), FilesBytes(files[1..]));
      StandsParts(data, pos, f.name + [0], numbers);
      NameLength(data, pos, f.name);
      assert IsName(files[0].name) && f.name[0] in f.name;
      NumbersSkipped(data, pos + |f.name| + 1, f.directory, f.time, f.size);
      FilesRead(data, pos + |FileBytes(f)|, files[1..], end);
    }
  }

  /** The numbers in front. */
  lemma {:induction false} FrontRead(data: seq<Byte>, pos: nat, a: nat, b: nat, c: nat, bigEndian: bool,
      rest: seq<Byte>)
    requires a < Pow256(4) && b < Pow256(2) && c < Pow256(4)
    requires Stands(data, pos, EncodeFixed(a, 4, bigEndian) + EncodeFixed(b, 2, bigEndian)
      + EncodeFixed(c, 4, bigEndian) + rest)
    ensures pos + 10 + |rest| <= |data| && Stands(data, pos + 10, rest)
    ensures FixedAt(data, pos, 4, bigEndian, 0) == a && FixedAt(data, pos + 4, 2, bigEndian, 0) == b
    ensures FixedAt(data, pos + 6, 4, bigEndian, 0) == c
  {
    hide EncodeFixed, Pow256, Stands, FixedAt;
    var x, y, z := EncodeFixed(a, 4, bigEndian), EncodeFixed(b, 2, bigEndian), EncodeFixed(c, 4, bigEndian);
    StandsParts(data, pos, x + y + z, rest);
    StandsParts(data, pos, x + y, z);
    StandsParts(data, pos, x, y);
    FieldRead(data, pos, a, 4, bigEndian);
    FieldRead(data, pos + 4, b, 2, bigEndian);
    FieldRead(data, pos + 6, c, 4, bigEndian);
  }

  lemma {:induction false} FieldRead(data: seq<Byte>, pos: nat, v: nat, width: nat, bigEndian: bool)
    requires v < Pow256(width) && Stands(data, pos, EncodeFixed(v, width, bigEndian))
    ensures FixedAt(data, pos, width, bigEndian, 0) == v
  {
    hide EncodeFixed, Pow256, FixedAt;
    var bs := EncodeFixed(v, width, bigEndian);
    Around(data, pos, bs);
    FixedHere(data[..pos], v, width, bigEndian, data[pos + |bs|..]);
  }

  /** Which tables are taken: those of versions 2 to 4. */
  lemma {:induction false} VersionTaken(data: seq<Byte>, pos: nat, total: nat, version: nat, bigEndian: bool)
    requires total < WORD32 && version < 0x1_0000
    requires Stands(data, pos, EncodeFixed(total, 4, bigEndian) + EncodeFixed(version, 2, bigEndian))
    ensures PrologueAt(bigEndian, data, pos).0.Supported() <==> version in {2, 3, 4}
  {
    hide EncodeFixed, Stands, Pow256, FixedAt, ParamsAt, DirectoriesEnd, FilesEnd;
    FixedWidths();
    StandsParts(data, pos, EncodeFixed(total, 4, bigEndian), EncodeFixed(version, 2, bigEndian));
    FieldRead(data, pos, total, 4, bigEndian);
    FieldRead(data, pos + 4, version, 2, bigEndian);
  }

  /** A header, anywhere in the first 2^32 bytes of a section, is read back, to its last byte. */
  lemma {:induction false} HeaderRoundTrip(h: Written, program: nat, bigEndian: bool, data: seq<Byte>, pos: nat)
    requires Proper(h) && Stands(data, pos, HeaderBytes(h, program, bigEndian))
    requires pos + |HeaderBytes(h, program, bigEndian)| + program < WORD32
    ensures |HeaderBytes(h, program, bigEndian)| == 10 + |TailBytes(h)|
    ensures PrologueAt(bigEndian, data, pos) ==
      (Prologue(6 + |TailBytes(h)| + program, h.version, h.params), pos + |HeaderBytes(h, program, bigEndian)|)
  {
    hide EncodeFixed, FieldBytes, DirectoryBytes, FilesBytes, Stands, Pow256, FixedAt, ParamsAt, DirectoriesEnd;
    hide FilesEnd;
    FixedWidths();
    var tail := TailBytes(h);
    FrontRead(data, pos, 6 + |tail| + program, h.version, |tail|, bigEndian, tail);
    var at, end := pos + 10, pos + 10 + |tail|;
    var fields, lists := FieldBytes(h), DirectoryBytes(h.directories) + FilesBytes(h.files);
    StandsParts(data, at, fields, lists);
    StandsParts(data, at + |fields|, DirectoryBytes(h.directories), FilesBytes(h.files));
    FieldsRead(h, data, at);
    DirectoriesRead(data, at + |fields|, h.directories, end);
    FilesRead(data, at + |fields| + |DirectoryBytes(h.directories)|, h.files, end);
  }

  // ---- A whole table ----

  function TableBytes(h: Written, list: seq<Sequence>, bigEndian: bool): seq<Byte>
    requires ProgramWritable(h.params, list)
  {
    var program := ProgramBytes(h.params, bigEndian, list);
    HeaderBytes(h, |program|, bigEndian) + program
  }

  /** A table that is written as section 6.2 says, anywhere in the first 2^32 bytes of a section, is read
      as the rows that were written; when statements are the default, the statement mark of the rows of
      the first sequence comes out inverted. */
  lemma {:induction false} TableRoundTrip(h: Written, list: seq<Sequence>, bigEndian: bool, pre: seq<Byte>,
      rest: seq<Byte>)
    requires Proper(h) && h.params.opcodeBase >= 13 && ProgramWritable(h.params, list)
    requires |pre| + |TableBytes(h, list, bigEndian)| < WORD32
    ensures
      var data := pre + TableBytes(h, list, bigEndian) + rest;
      && Runnable(bigEndian, data, |pre|) && PrologueAt(bigEndian, data, |pre|).0.Supported()
      && PrologueAt(bigEndian, data, |pre|).0.params == h.params
      && var rows := ProgramRun(bigEndian, data, |pre|, START).rows;
         && rows == RowsRead(h.params, list, h.params.defaultIsStmt)
         && (rows == ProgramRows(h.params, list) <==> !h.params.defaultIsStmt || list == [])
  {
    hide HeaderBytes, ProgramBytes, PrologueAt, Run, RowsRead, ProgramRows, ProgramWritable, Proper;
    var program := ProgramBytes(h.params, bigEndian, list);
    var header := HeaderBytes(h, |program|, bigEndian);
    var data := pre + (header + program) + rest;
    assert data == (pre + header) + program + rest;
    assert Stands(data, |pre|, header);
    VersionIs(h);
    HeaderRoundTrip(h, |program|, bigEndian, data, |pre|);
    ProgramExact(h.params, bigEndian, pre + header, list, rest);
  }

  lemma VersionIs(h: Written)
    requires Proper(h)
    ensures 2 <= h.version <= 4
  {
  }
}
