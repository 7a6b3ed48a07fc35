/** The line table of a unit: its header, the interpreter of its program, and the search for the
    row of an address. */
module LineTable {
  import opened Bytes
  import opened Input
  import opened Leb128
  import opened FormValue
  import opened LineProgram
  import opened Algorithms

  const BAD_ROW_IDX := 0xffff_ffff

  // ---- The header (section 6.2.4 of DWARF 4) ----

  datatype Prologue = Prologue(totalLength: nat, version: nat, params: RawParams) {
    predicate Supported() {
      2 <= version <= 4
    }
  }

  const NO_PARAMS := RawParams.Params(0, false, 0, 0, 0, [])
  const NO_PROLOGUE := Prologue(0, 0, NO_PARAMS)

  function After(data: seq<Byte>, pos: nat, width: nat): (r: nat)
    requires pos <= |data|
    ensures pos <= r <= |data|
  {
    Min(pos + width, |data|)
  }

  function ByteAt(data: seq<Byte>, pos: nat): Byte {
    if pos < |data| then data[pos] else 0
  }

  function AsSigned(b: Byte): (r: int)
    ensures -0x80 <= r < 0x80
  {
    if b < 0x80 then b else b - 0x100
  }

  /** The operand counts of the standard opcodes. */
  function LengthsAt(data: seq<Byte>, pos: nat, n: nat): (r: (seq<Byte>, nat))
    requires pos <= |data|
    ensures |r.0| == n && pos <= r.1 <= |data|
    decreases n
  {
    if n == 0 then ([], pos)
    else
      var rest := LengthsAt(data, After(data, pos, 1), n - 1);
      ([ByteAt(data, pos)] + rest.0, rest.1)
  }

  /** Behind the list of directories, which ends with an empty name or with the header. */
  function DirectoriesEnd(data: seq<Byte>, pos: nat, end: nat): (r: nat)
    requires pos <= |data|
    ensures pos <= r <= |data|
    decreases |data| - pos
  {
    var next := pos + StringLength(data, pos, NAME_MAX);
    if pos >= end then pos
    else if ByteAt(data, pos) == 0 then next
    else DirectoriesEnd(data, next, end)
  }

  /** Behind the list of files, each a name and three numbers. */
  function FilesEnd(data: seq<Byte>, pos: nat, end: nat): (r: nat)
    requires pos <= |data|
    ensures pos <= r <= |data|
    decreases |data| - pos
  {
    var next := pos + StringLength(data, pos, NAME_MAX);
    if pos >= end then pos
    else if ByteAt(data, pos) == 0 then next
    else FilesEnd(data, SkipUlebs(data, next, 3), end)
  }

  /** The fields of one byte each, and the operand counts. */
  function ParamsAt(version: nat, data: seq<Byte>, pos: nat): (r: (RawParams, nat))
    requires pos <= |data|
    ensures pos <= r.1 <= |data|
    ensures |r.0.lengths| == (if r.0.opcodeBase == 0 then 0 else r.0.opcodeBase - 1) && -0x80 <= r.0.lineBase < 0x80
  {
    var atStmt := After(data, pos, if version >= 4 then 2 else 1);
    var base := ByteAt(data, atStmt + 3);
    var (lengths, end) := LengthsAt(data, After(data, atStmt, 4), if base == 0 then 0 else base - 1);
    (RawParams.Params(ByteAt(data, pos), ByteAt(data, atStmt) != 0, AsSigned(ByteAt(data, atStmt + 1)),
                      ByteAt(data, atStmt + 2), base, lengths), end)
  }

  /** The header at `pos`, and where its program starts.  The length of the header is kept in 32
      bits, and only bounds the two lists. */
  function PrologueAt(bigEndian: bool, data: seq<Byte>, pos: nat): (r: (Prologue, nat))
    requires pos <= |data|
    ensures pos <= r.1 <= |data|
    ensures |r.0.params.lengths| == (if r.0.params.opcodeBase == 0 then 0 else r.0.params.opcodeBase - 1)
    ensures -0x80 <= r.0.params.lineBase < 0x80
  {
    var total, atVersion := FixedAt(data, pos, 4, bigEndian, 0), After(data, pos, 4);
    var version, atLength := FixedAt(data, atVersion, 2, bigEndian, 0), After(data, atVersion, 2);
    if version < 2 || version > 4 then (Prologue(total, version, NO_PARAMS), atLength)
    else
      var length, at := FixedAt(data, atLength, 4, bigEndian, 0), After(data, atLength, 4);
      var end := (at + length) % WORD32;
      var (params, atLists) := ParamsAt(version, data, at);
      (Prologue(total, version, params), FilesEnd(data, DirectoriesEnd(data, atLists, end), end))
  }

  // ---- The table ----

  function AddressOf(row: Row): nat {
    row.address
  }

  /** A header that can be run: special opcodes can be divided by its range, and its program is
      in the section. */
  predicate Runnable(bigEndian: bool, data: seq<Byte>, pos: nat)
    requires pos <= |data|
  {
    var (prologue, _) := PrologueAt(bigEndian, data, pos);
    prologue.Supported() ==> prologue.params.lineRange > 0 && pos + prologue.totalLength + 4 <= |data|
  }

  /** What the program of the table at `pos` does. */
  function ProgramRun(bigEndian: bool, data: seq<Byte>, pos: nat, m: Machine): Machine
    requires pos <= |data| && Runnable(bigEndian, data, pos) && PrologueAt(bigEndian, data, pos).0.Supported()
  {
    var (prologue, start) := PrologueAt(bigEndian, data, pos);
    Run(prologue.params, bigEndian, data, start, pos + prologue.totalLength + 4, m)
  }

  class LineTable {
    var prologue: Prologue
    var rows: seq<Row>
    var minAddr: nat
    var maxAddr: nat

    constructor ()
      ensures prologue == NO_PROLOGUE && rows == [] && minAddr == MAX_ADDRESS && maxAddr == 0
    {
      prologue, rows, minAddr, maxAddr := NO_PROLOGUE, [], MAX_ADDRESS, 0;
    }

    /** The machine whose registers are in `row`. */
    ghost function With(row: Row): Machine
      reads this
    {
      Machine(row, rows, minAddr, maxAddr)
    }

    /** Reads a header and runs its program; then the rows are sorted by their addresses. */
    method Parse(stream: Stream) returns (ret: bool)
      requires stream.Valid() && stream.policy == Clamp && Runnable(stream.bigEndian, stream.data, stream.position)
      modifies this, stream
      ensures stream.Valid()
      ensures
        var pos := old(stream.position);
        && prologue == PrologueAt(stream.bigEndian, stream.data, pos).0
        && ret == prologue.Supported() && SortedBy(rows, AddressOf)
        && if ret then
             var m := ProgramRun(stream.bigEndian, stream.data, pos, old(With(Fresh(false))));
             multiset(rows) == multiset(m.rows) && minAddr == m.minAddr && maxAddr == m.maxAddr
           else multiset(rows) == multiset(old(rows)) && minAddr == old(minAddr) && maxAddr == old(maxAddr)
    {
      hide PrologueAt, Run, Exec, InstructionAt, SortedBy;
      ret := false;
      var startPos := stream.position;
      prologue := ParsePrologue(stream);
      if 2 <= prologue.version <= 4 {
        ret := true;
        var p: Params := prologue.params;
        var row := Fresh(false);
        var endOffset := startPos + prologue.totalLength + 4;
        ghost var whole := Run(p, stream.bigEndian, stream.data, stream.position, endOffset, With(row));
        while stream.position < endOffset
          invariant stream.Valid() && prologue == PrologueAt(stream.bigEndian, stream.data, startPos).0
          invariant whole == Run(p, stream.bigEndian, stream.data, stream.position, endOffset, With(row))
          decreases |stream.data| - stream.position
        {
          RunNext(p, stream.bigEndian, stream.data, stream.position, endOffset, With(row));
          row := Execute(p, row, stream);
        }
        RunDone(p, stream.bigEndian, stream.data, stream.position, endOffset, With(row));
      }
      rows := Sort(rows, AddressOf);
    }

    /** One instruction. */
    method Execute(p: Params, row0: Row, stream: Stream) returns (row: Row)
      requires stream.Valid() && stream.policy == Clamp && stream.position < |stream.data|
      modifies this`rows, this`minAddr, this`maxAddr, stream
      ensures stream.Valid()
      ensures
        var i := InstructionAt(p, stream.bigEndian, stream.data, old(stream.position));
        With(row) == Exec(p, old(With(row0)), i.op) && stream.position == i.next
    {
      hide ExtendedAt, StandardAt;
      var op, count := stream.ReadByte();
      var opcode: int := op;
      if opcode == 0 {
        row := ExecuteExtended(p, row0, stream);
      } else if opcode < p.opcodeBase {
        row := ExecuteStandard(p, opcode, row0, stream);
      } else {
        var adjusted := opcode - p.opcodeBase;
        row := row0;
        row := row.(line := (row.line + LineAdvance(p, adjusted)) % WORD32);
        row := row.(address := (row.address + AddressAdvance(p, adjusted)) % WORD64);
        Bound(row.address);
        rows := rows + [row];
        row := row.(basicBlock := false, prologueEnd := false, epilogueBegin := false);
      }
    }

    /** Keeps the least and the greatest address seen. */
    method Bound(address: nat)
      modifies this`minAddr, this`maxAddr
      ensures minAddr == Min(old(minAddr), address)
      ensures maxAddr == if old(maxAddr) < address then address else old(maxAddr)
    {
      minAddr := Min(minAddr, address);
      maxAddr := if maxAddr < address then address else maxAddr;
    }

    method ExecuteExtended(p: Params, row0: Row, stream: Stream) returns (row: Row)
      requires stream.Valid() && stream.policy == Clamp
      modifies this`rows, this`minAddr, this`maxAddr, stream
      ensures stream.Valid()
      ensures
        var i := ExtendedAt(stream.bigEndian, stream.data, old(stream.position));
        With(row) == Exec(p, old(With(row0)), i.op) && stream.position == i.next
    {
      hide Uleb, StringLength, Fixed;
      row := row0;
      var pos := stream.position;
      var len, count := ReadUleb128(stream);
      var sub: int := ReadU8(stream);
      var argSize := (len + WORD64 - 1) % WORD64;
      if sub == LNE_END_SEQUENCE {
        row := row.(endSequence := true);
        Bound(row.address);
        rows := rows + [row];
        row := Fresh(p.defaultIsStmt);
      } else if sub == LNE_SET_ADDRESS {
        if argSize in {4, 8} {
          var address;
          address, count := stream.ReadFixed(argSize, 0);
          row := row.(address := address);
        }
      } else if sub == LNE_DEFINE_FILE {
        var name := ReadSz(stream, NAME_MAX);
        SkipUlebNumbers(stream, 3);
      } else {
        stream.Seek(pos + len);
      }
    }

    method ExecuteStandard(p: Params, opcode: nat, row0: Row, stream: Stream) returns (row: Row)
      requires stream.Valid() && 0 < opcode < p.opcodeBase
      modifies this`rows, stream
      ensures stream.Valid()
      ensures
        var i := StandardAt(p, stream.bigEndian, opcode, stream.data, old(stream.position));
        With(row) == Exec(p, old(With(row0)), i.op) && stream.position == i.next
    {
      hide Uleb, Fixed, SignExtend;
      row := row0;
      var n, count := 0, 0;
      if opcode == LNS_COPY {
        rows := rows + [row];
        row := row.(basicBlock := false, prologueEnd := false, epilogueBegin := false);
      } else if opcode == LNS_ADVANCE_PC {
        n, count := ReadUleb128(stream);
        row := row.(address := (row.address + n * p.minInst) % WORD64);
      } else if opcode == LNS_ADVANCE_LINE {
        var delta;
        delta, count := ReadSleb128(stream);
        row := row.(line := (row.line + delta) % WORD32);
      } else if opcode == LNS_SET_FILE {
        n, count := ReadUleb128(stream);
        row := row.(file := n % 0x1_0000);
      } else if opcode == LNS_SET_COLUMN {
        n, count := ReadUleb128(stream);
        row := row.(column := n % 0x1_0000);
      } else if opcode == LNS_NEGATE_STMT {
        row := row.(isStmt := !row.isStmt);
      } else if opcode == LNS_SET_BASIC_BLOCK {
        row := row.(basicBlock := true);
      } else if opcode == LNS_CONST_ADD_PC {
        row := row.(address := (row.address + AddressAdvance(p, 255 - p.opcodeBase)) % WORD64);
      } else if opcode == LNS_FIXED_ADVANCE_PC {
        n, count := stream.ReadFixed(2, 0);
        row := row.(address := (row.address + n) % WORD64);
      } else if opcode == LNS_SET_PROLOGUE_END {
        row := row.(prologueEnd := true);
      } else if opcode == LNS_SET_EPILOGUE_BEGIN {
        row := row.(epilogueBegin := true);
      } else if opcode == LNS_SET_ISA {
        n, count := ReadUleb128(stream);
        row := row.(isa := n % 0x100);
      } else {
        SkipUlebNumbers(stream, p.lengths[opcode - 1]);
      }
    }

    /** The row of an address: there is one exactly when the address lies between the least and
        the greatest of the table, and then none is nearer from below. */
    method LookupAddress(address: nat) returns (index: nat)
      requires SortedBy(rows, AddressOf) && |rows| < BAD_ROW_IDX
      ensures index == BAD_ROW_IDX <==> rows == [] || address < rows[0].address || rows[|rows| - 1].address < address
      ensures index != BAD_ROW_IDX ==>
        && index < |rows| && rows[index].address <= address
        && forall k | 0 <= k < |rows| && rows[k].address <= address :: rows[k].address <= rows[index].address
    {
      index := BAD_ROW_IDX;
      var at := LowerBound(rows, AddressOf, address);
      assert forall k | 0 <= k < |rows| :: rows[k].address == AddressOf(rows[k]);
      if at != |rows| {
        index := at;
        if rows[at].address > address {
          if index > 0 {
            index := index - 1;
          } else {
            index := BAD_ROW_IDX;
          }
        }
      }
    }
  }

  /** A byte, into a variable that was zero. */
  method ReadU8(stream: Stream) returns (b: Byte)
    requires stream.Valid()
    modifies stream
    ensures stream.Valid() && b == ByteAt(stream.data, old(stream.position))
    ensures stream.position == After(stream.data, old(stream.position), 1)
  {
    var val, count := stream.ReadByte();
    b := if count == 0 then 0 else val;
  }

  method SkipUlebNumbers(stream: Stream, n: nat)
    requires stream.Valid()
    modifies stream
    ensures stream.Valid() && stream.position == SkipUlebs(stream.data, old(stream.position), n)
  {
    hide Uleb;
    var i := 0;
    while i < n
      invariant i <= n && stream.Valid()
      invariant SkipUlebs(stream.data, stream.position, n - i) == SkipUlebs(stream.data, old(stream.position), n)
    {
      var idle, count := ReadUleb128(stream);
      i := i + 1;
    }
  }

  lemma {:induction false} RunNext(p: Params, bigEndian: bool, data: seq<Byte>, pos: nat, end: nat, m: Machine)
    requires pos < end <= |data|
    ensures
      var i := InstructionAt(p, bigEndian, data, pos);
      Run(p, bigEndian, data, pos, end, m) == Run(p, bigEndian, data, i.next, end, Exec(p, m, i.op))
  {
    hide InstructionAt, Exec;
  }

  lemma RunDone(p: Params, bigEndian: bool, data: seq<Byte>, pos: nat, end: nat, m: Machine)
    requires end <= pos && end <= |data|
    ensures Run(p, bigEndian, data, pos, end, m) == m
  {
  }

  /** Reads the header. */
  method ParsePrologue(stream: Stream) returns (prologue: Prologue)
    requires stream.Valid()
    modifies stream
    ensures stream.Valid()
    ensures (prologue, stream.position) == PrologueAt(stream.bigEndian, stream.data, old(stream.position))
  {
    hide Fixed, FilesEnd, DirectoriesEnd, LengthsAt, ParamsAt;
    var total, version, length, count := 0, 0, 0, 0;
    total, count := stream.ReadFixed(4, total);
    version, count := stream.ReadFixed(2, version);
    prologue := Prologue(total, version, NO_PARAMS);
    if 2 <= version <= 4 {
      length, count := stream.ReadFixed(4, length);
      var endPrologue := (stream.position + length) % WORD32;
      var params := ReadParams(version, stream);
      SkipDirectories(stream, endPrologue);
      SkipFiles(stream, endPrologue);
      prologue := Prologue(total, version, params);
    }
  }

  method ReadParams(version: nat, stream: Stream) returns (params: RawParams)
    requires stream.Valid()
    modifies stream
    ensures stream.Valid() && (params, stream.position) == ParamsAt(version, stream.data, old(stream.position))
  {
    hide LengthsAt;
    var minInst := ReadU8(stream);
    if version >= 4 {
      var maxOps := ReadU8(stream);
    }
    var defaultIsStmt := ReadU8(stream);
    var lineBase := ReadU8(stream);
    var lineRange := ReadU8(stream);
    var opcodeBase := ReadU8(stream);
    var lengths := ReadLengths(stream, if opcodeBase == 0 then 0 else opcodeBase - 1);
    params := RawParams.Params(minInst, defaultIsStmt != 0, AsSigned(lineBase), lineRange, opcodeBase, lengths);
  }

  method ReadLengths(stream: Stream, n: nat) returns (lengths: seq<Byte>)
    requires stream.Valid()
    modifies stream
    ensures stream.Valid() && (lengths, stream.position) == LengthsAt(stream.data, old(stream.position), n)
  {
    lengths := [];
    var i := 0;
    ghost var whole := LengthsAt(stream.data, stream.position, n);
    assert [] + whole.0 == whole.0;
    while i < n
      invariant i <= n && stream.Valid()
      invariant var r := LengthsAt(stream.data, stream.position, n - i); whole == (lengths + r.0, r.1)
    {
      ghost var r := LengthsAt(stream.data, stream.position, n - i);
      var b := ReadU8(stream);
      assert r.0 == [b] + r.0[1..];
      assert lengths + r.0 == lengths + [b] + r.0[1..];
      lengths := lengths + [b];
      i := i + 1;
    }
    assert lengths + [] == lengths;
  }

  method SkipDirectories(stream: Stream, end: nat)
    requires stream.Valid()
    modifies stream
    ensures stream.Valid() && stream.position == DirectoriesEnd(stream.data, old(stream.position), end)
  {
    while stream.position < end
      invariant stream.Valid() && DirectoriesEnd(stream.data, stream.position, end)
        == DirectoriesEnd(stream.data, old(stream.position), end)
      decreases |stream.data| - stream.position
    {
      var sz := ReadSz(stream, NAME_MAX);
      if sz == [] || sz[0] == 0 {
        return;
      }
    }
  }

  method SkipFiles(stream: Stream, end: nat)
    requires stream.Valid()
    modifies stream
    ensures stream.Valid() && stream.position == FilesEnd(stream.data, old(stream.position), end)
  {
    hide SkipUlebs;
    while stream.position < end
      invariant stream.Valid() && FilesEnd(stream.data, stream.position, end)
        == FilesEnd(stream.data, old(stream.position), end)
      decreases |stream.data| - stream.position
    {
      var sz := ReadSz(stream, NAME_MAX);
      if sz == [] || sz[0] == 0 {
        return;
      }
      SkipUlebNumbers(stream, 3);
    }
  }
}
