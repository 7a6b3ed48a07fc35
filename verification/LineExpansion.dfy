/** Special opcodes and DW_LNS_const_add_pc are abbreviations (sections 6.2.5.1 and 6.2.5.2 of
    DWARF 4): writing them out, byte by byte, changes no row and no register. */
module LineExpansion {
  import opened Bytes
  import opened Input
  import opened Leb128
  import opened FormValue
  import opened LineProgram

  // ---- An instruction depends only on its own bytes ----

  predicate Same(data: seq<Byte>, pos: nat, data1: seq<Byte>, pos1: nat, n: nat) {
    pos + n <= |data| && pos1 + n <= |data1| && data[pos..pos + n] == data1[pos1..pos1 + n]
  }

  lemma {:induction false} SameAt(data: seq<Byte>, pos: nat, data1: seq<Byte>, pos1: nat, n: nat, k: nat)
    requires Same(data, pos, data1, pos1, n) && k < n
    ensures data[pos + k] == data1[pos1 + k]
  {
    assert data[pos..pos + n][k] == data1[pos1..pos1 + n][k];
  }

  lemma SameBounds(data: seq<Byte>, pos: nat, data1: seq<Byte>, pos1: nat, n: nat)
    requires Same(data, pos, data1, pos1, n)
    ensures pos + n <= |data| && pos1 + n <= |data1|
  {
  }

  lemma {:induction false} SamePart(data: seq<Byte>, pos: nat, data1: seq<Byte>, pos1: nat, n: nat, i: nat, m: nat)
    requires Same(data, pos, data1, pos1, n) && i + m <= n
    ensures Same(data, pos + i, data1, pos1 + i, m)
  {
    var part, part1 := data[pos + i..pos + i + m], data1[pos1 + i..pos1 + i + m];
    forall k | 0 <= k < m ensures part[k] == part1[k] {
      SameAt(data, pos, data1, pos1, n, i + k);
    }
  }

  lemma {:induction false} ReadFromLocal(data: seq<Byte>, pos: nat, data1: seq<Byte>, pos1: nat, shift: nat, out: nat)
    requires pos <= |data| && var r := ReadFrom(data, pos, shift, out); r.end > pos && data[r.end - 1] < 0x80
    requires Same(data, pos, data1, pos1, ReadFrom(data, pos, shift, out).end - pos)
    ensures
      var r := ReadFrom(data, pos, shift, out);
      ReadFrom(data1, pos1, shift, out) == r.(end := pos1 + (r.end - pos))
    decreases |data| - pos
  {
    hide BitOr, Shl32;
    var r := ReadFrom(data, pos, shift, out);
    var n: nat := r.end - pos;
    SameAt(data, pos, data1, pos1, n, 0);
    if data[pos] >= 0x80 {
      SamePart(data, pos, data1, pos1, n, 1, n - 1);
      ReadFromLocal(data, pos + 1, data1, pos1 + 1, shift + 7, BitOr(out, Shl32(data[pos] % 0x80, shift)));
    }
  }

  lemma {:induction false} UlebLocal(data: seq<Byte>, pos: nat, data1: seq<Byte>, pos1: nat)
    requires pos <= |data| && UlebDone(data, pos) && Same(data, pos, data1, pos1, Uleb(data, pos).end - pos)
    ensures
      var r := Uleb(data, pos);
      Uleb(data1, pos1) == r.(end := pos1 + (r.end - pos)) && UlebDone(data1, pos1)
  {
    hide ReadFrom;
    ReadFromLocal(data, pos, data1, pos1, 0, 0);
    var n: nat := Uleb(data, pos).end - pos;
    SameAt(data, pos, data1, pos1, n, n - 1);
  }

  lemma {:induction false} UlebsLocal(data: seq<Byte>, pos: nat, data1: seq<Byte>, pos1: nat, n: nat)
    requires pos <= |data| && UlebsDone(data, pos, n) && Same(data, pos, data1, pos1, SkipUlebs(data, pos, n) - pos)
    ensures SkipUlebs(data1, pos1, n) == pos1 + (SkipUlebs(data, pos, n) - pos) && UlebsDone(data1, pos1, n)
    decreases n
  {
    hide Uleb;
    if n > 0 {
      var k, all: nat := Uleb(data, pos).end - pos, SkipUlebs(data, pos, n) - pos;
      SamePart(data, pos, data1, pos1, all, 0, k);
      UlebLocal(data, pos, data1, pos1);
      SamePart(data, pos, data1, pos1, all, k, all - k);
      UlebsLocal(data, pos + k, data1, pos1 + k, n - 1);
    }
  }

  lemma {:induction false} StringLocal(data: seq<Byte>, pos: nat, data1: seq<Byte>, pos1: nat, max: nat)
    requires pos <= |data| && max > 0 && StringDone(data, pos, max)
      && Same(data, pos, data1, pos1, StringLength(data, pos, max))
    ensures StringLength(data1, pos1, max) == StringLength(data, pos, max) && StringDone(data1, pos1, max)
    decreases max
  {
    var n := StringLength(data, pos, max);
    SameAt(data, pos, data1, pos1, n, 0);
    if data[pos] != 0 && max > 1 {
      SamePart(data, pos, data1, pos1, n, 1, n - 1);
      StringLocal(data, pos + 1, data1, pos1 + 1, max - 1);
    }
  }

  lemma FixedLocal(data: seq<Byte>, pos: nat, data1: seq<Byte>, pos1: nat, width: nat, bigEndian: bool)
    requires Same(data, pos, data1, pos1, width)
    ensures FixedAt(data, pos, width, bigEndian, 0) == FixedAt(data1, pos1, width, bigEndian, 0)
  {
  }

  lemma {:induction false} DefineFileLocal(data: seq<Byte>, args: nat, data1: seq<Byte>, args1: nat)
    requires args <= |data| && StringDone(data, args, NAME_MAX)
    requires
      var numbers := args + StringLength(data, args, NAME_MAX);
      UlebsDone(data, numbers, 3) && Same(data, args, data1, args1, SkipUlebs(data, numbers, 3) - args)
    ensures
      var numbers, numbers1 := args + StringLength(data, args, NAME_MAX), args1 + StringLength(data1, args1, NAME_MAX);
      && StringDone(data1, args1, NAME_MAX) && UlebsDone(data1, numbers1, 3)
      && SkipUlebs(data1, numbers1, 3) == args1 + (SkipUlebs(data, numbers, 3) - args)
  {
    hide StringLength, SkipUlebs, UlebsDone;
    var n := StringLength(data, args, NAME_MAX);
    var all: nat := SkipUlebs(data, args + n, 3) - args;
    SamePart(data, args, data1, args1, all, 0, n);
    StringLocal(data, args, data1, args1, NAME_MAX);
    SamePart(data, args, data1, args1, all, n, all - n);
    UlebsLocal(data, args + n, data1, args1 + n, 3);
  }

  lemma {:induction false} ExtendedLocal(bigEndian: bool, data: seq<Byte>, pos: nat, data1: seq<Byte>, pos1: nat)
    requires pos <= |data| && ExtendedAt(bigEndian, data, pos).complete
    requires Same(data, pos, data1, pos1, ExtendedAt(bigEndian, data, pos).next - pos)
    ensures
      var i := ExtendedAt(bigEndian, data, pos);
      ExtendedAt(bigEndian, data1, pos1) == i.(next := pos1 + (i.next - pos))
  {
    hide Uleb, StringLength, SkipUlebs, UlebsDone, UlebDone, StringDone, FixedAt, Same;
    var len := Uleb(data, pos);
    var k, all: nat := len.end - pos, ExtendedAt(bigEndian, data, pos).next - pos;
    SamePart(data, pos, data1, pos1, all, 0, k);
    UlebLocal(data, pos, data1, pos1);
    SameAt(data, pos, data1, pos1, all, k);
    SamePart(data, pos, data1, pos1, all, k + 1, all - (k + 1));
    var sub, args, args1 := data[len.end], len.end + 1, pos1 + k + 1;
    SameBounds(data, pos, data1, pos1, all);
    if sub == LNE_SET_ADDRESS {
      var argSize := (len.value + WORD64 - 1) % WORD64;
      if argSize in {4, 8} {
        FixedLocal(data, args, data1, args1, argSize, bigEndian);
      }
    } else if sub == LNE_DEFINE_FILE {
      DefineFileLocal(data, args, data1, args1);
    }
  }

  lemma {:induction false} StandardLocal(p: Params, bigEndian: bool, opcode: nat, data: seq<Byte>, pos: nat,
      data1: seq<Byte>, pos1: nat)
    requires 0 < opcode < p.opcodeBase && pos <= |data| && StandardAt(p, bigEndian, opcode, data, pos).complete
    requires Same(data, pos, data1, pos1, StandardAt(p, bigEndian, opcode, data, pos).next - pos)
    ensures
      var i := StandardAt(p, bigEndian, opcode, data, pos);
      StandardAt(p, bigEndian, opcode, data1, pos1) == i.(next := pos1 + (i.next - pos))
  {
    hide Uleb, SkipUlebs, UlebsDone, UlebDone, FixedAt, Same, Pow2;
    SameBounds(data, pos, data1, pos1, StandardAt(p, bigEndian, opcode, data, pos).next - pos);
    if opcode in {LNS_ADVANCE_PC, LNS_ADVANCE_LINE, LNS_SET_FILE, LNS_SET_COLUMN, LNS_SET_ISA} {
      UlebLocal(data, pos, data1, pos1);
    } else if opcode == LNS_FIXED_ADVANCE_PC {
      FixedLocal(data, pos, data1, pos1, 2, bigEndian);
    } else if opcode > LNS_SET_ISA {
      UlebsLocal(data, pos, data1, pos1, p.lengths[opcode - 1]);
    }
  }

  lemma {:induction false} InstructionLocal(p: Params, bigEndian: bool, data: seq<Byte>, pos: nat, data1: seq<Byte>,
      pos1: nat)
    requires pos < |data| && InstructionAt(p, bigEndian, data, pos).complete
    requires Same(data, pos, data1, pos1, InstructionAt(p, bigEndian, data, pos).next - pos)
    ensures pos1 < |data1|
    ensures
      var i := InstructionAt(p, bigEndian, data, pos);
      InstructionAt(p, bigEndian, data1, pos1) == i.(next := pos1 + (i.next - pos))
  {
    hide ExtendedAt, StandardAt, Same;
    var n: nat := InstructionAt(p, bigEndian, data, pos).next - pos;
    SameAt(data, pos, data1, pos1, n, 0);
    SamePart(data, pos, data1, pos1, n, 1, n - 1);
    var opcode: int := data[pos];
    if opcode == 0 {
      ExtendedLocal(bigEndian, data, pos + 1, data1, pos1 + 1);
    } else if opcode < p.opcodeBase {
      StandardLocal(p, bigEndian, opcode, data, pos + 1, data1, pos1 + 1);
    }
  }

  // ---- The expansion ----

  function AdvancePcBytes(n: nat): seq<Byte> {
    [LNS_ADVANCE_PC] + EncodeUleb(n)
  }

  function AdvanceLineBytes(delta: int): seq<Byte> {
    [LNS_ADVANCE_LINE] + EncodeSleb(delta)
  }

  /** An instruction without abbreviations: `verbatim` are its own bytes. */
  function Expansion(p: Params, op: Op, verbatim: seq<Byte>): seq<Byte> {
    if op.Special? then
      AdvancePcBytes(Steps(p, op.adjusted)) + AdvanceLineBytes(LineAdvance(p, op.adjusted)) + [LNS_COPY]
    else if op.ConstAddPc? then AdvancePcBytes(Steps(p, 255 - p.opcodeBase))
    else verbatim
  }

  function Expand(p: Params, bigEndian: bool, data: seq<Byte>, pos: nat, end: nat): seq<Byte>
    requires end <= |data|
    decreases |data| - pos
  {
    if pos >= end then []
    else
      var i := InstructionAt(p, bigEndian, data, pos);
      Expansion(p, i.op, data[pos..i.next]) + Expand(p, bigEndian, data, i.next, end)
  }

  /** The registers and the rows.  The bounds of the addresses seen are left aside: DW_LNS_copy,
      unlike a special opcode, does not keep them up to date. */
  predicate SameRows(m: Machine, m1: Machine) {
    m.row == m1.row && m.rows == m1.rows
  }

  lemma {:induction false} AdvancePcAt(p: Params, bigEndian: bool, pre: seq<Byte>, n: nat, rest: seq<Byte>)
    requires p.opcodeBase > LNS_ADVANCE_PC && n < WORD32
    ensures
      var i := InstructionAt(p, bigEndian, pre + AdvancePcBytes(n) + rest, |pre|);
      i.op == AdvancePc(n) && i.next == |pre| + |AdvancePcBytes(n)|
  {
    hide Uleb, EncodeUleb;
    var data := pre + AdvancePcBytes(n) + rest;
    assert data == (pre + [LNS_ADVANCE_PC]) + EncodeUleb(n) + rest;
    UlebRoundTrip(pre + [LNS_ADVANCE_PC], n, rest);
    assert data[|pre|] == LNS_ADVANCE_PC;
  }

  lemma {:induction false} AdvanceLineAt(p: Params, bigEndian: bool, pre: seq<Byte>, delta: int, rest: seq<Byte>)
    requires p.opcodeBase > LNS_ADVANCE_LINE && -0x800_0000 <= delta < WORD32
    ensures
      var i := InstructionAt(p, bigEndian, pre + AdvanceLineBytes(delta) + rest, |pre|);
      i.op == AdvanceLine(delta) && i.next == |pre| + |AdvanceLineBytes(delta)|
  {
    hide Uleb, EncodeSleb, SignExtend;
    var data := pre + AdvanceLineBytes(delta) + rest;
    assert data == (pre + [LNS_ADVANCE_LINE]) + EncodeSleb(delta) + rest;
    SlebRoundTrip(pre + [LNS_ADVANCE_LINE], delta, rest);
    assert data[|pre|] == LNS_ADVANCE_LINE;
  }

  lemma {:induction false} CopyAt(p: Params, bigEndian: bool, pre: seq<Byte>, rest: seq<Byte>)
    requires p.opcodeBase > LNS_COPY
    ensures
      var i := InstructionAt(p, bigEndian, pre + [LNS_COPY] + rest, |pre|);
      i.op == Copy && i.next == |pre| + 1
  {
    assert (pre + [LNS_COPY] + rest)[|pre|] == LNS_COPY;
  }

  predicate Abbreviation(op: Op) {
    op.Special? || op.ConstAddPc?
  }

  /** There is no abbreviation in the program. */
  predicate Basic(p: Params, bigEndian: bool, data: seq<Byte>, pos: nat, end: nat)
    requires end <= |data|
    decreases |data| - pos
  {
    pos < end ==>
      var i := InstructionAt(p, bigEndian, data, pos);
      !Abbreviation(i.op) && Basic(p, bigEndian, data, i.next, end)
  }

  /** From `pos` with `m` the run comes to `pos1` with `m1`, without an abbreviation on the way. */
  ghost predicate Reaches(p: Params, bigEndian: bool, data: seq<Byte>, pos: nat, m: Machine, pos1: nat, m1: Machine,
      end: nat)
    requires end <= |data|
  {
    && Run(p, bigEndian, data, pos, end, m) == Run(p, bigEndian, data, pos1, end, m1)
    && (Basic(p, bigEndian, data, pos1, end) ==> Basic(p, bigEndian, data, pos, end))
  }

  lemma {:induction false} ReachesNext(p: Params, bigEndian: bool, data: seq<Byte>, pos: nat, m: Machine, end: nat)
    requires pos < end <= |data| && !Abbreviation(InstructionAt(p, bigEndian, data, pos).op)
    ensures
      var i := InstructionAt(p, bigEndian, data, pos);
      Reaches(p, bigEndian, data, pos, m, i.next, Exec(p, m, i.op), end)
  {
    hide InstructionAt, Exec, Abbreviation;
  }

  /** The three instructions of a special opcode. */
  lemma {:induction false} SpecialRuns(p: Params, bigEndian: bool, pre: seq<Byte>, adjusted: nat, rest: seq<Byte>,
      m: Machine, end: nat)
    returns (m3: Machine)
    requires p.opcodeBase > LNS_ADVANCE_LINE && adjusted < 0x100
    requires var n := |pre| + |Expansion(p, Special(adjusted), [])|; n <= end <= n + |rest|
    ensures
      var piece := Expansion(p, Special(adjusted), []);
      && SameRows(m3, Exec(p, m, Special(adjusted)))
      && Reaches(p, bigEndian, pre + piece + rest, |pre|, m, |pre| + |piece|, m3, end)
  {
    var a, b := AdvancePcBytes(Steps(p, adjusted)), AdvanceLineBytes(LineAdvance(p, adjusted));
    var data := pre + (a + b + [LNS_COPY]) + rest;
    hide InstructionAt, AdvancePcBytes, AdvanceLineBytes, Run, Basic, Steps, LineAdvance;
    AdvancePcAt(p, bigEndian, pre, Steps(p, adjusted), b + [LNS_COPY] + rest);
    assert data == pre + a + (b + [LNS_COPY] + rest);
    AdvanceLineAt(p, bigEndian, pre + a, LineAdvance(p, adjusted), [LNS_COPY] + rest);
    assert data == (pre + a) + b + ([LNS_COPY] + rest);
    CopyAt(p, bigEndian, pre + a + b, rest);
    assert data == (pre + a + b) + [LNS_COPY] + rest;
    var m1 := Exec(p, m, AdvancePc(Steps(p, adjusted)));
    ReachesNext(p, bigEndian, data, |pre|, m, end);
    var m2 := Exec(p, m1, AdvanceLine(LineAdvance(p, adjusted)));
    ReachesNext(p, bigEndian, data, |pre + a|, m1, end);
    ReachesNext(p, bigEndian, data, |pre + a + b|, m2, end);
    m3 := Exec(p, m2, Copy);
  }

  lemma {:induction false} ConstAddPcRuns(p: Params, bigEndian: bool, pre: seq<Byte>, rest: seq<Byte>, m: Machine,
      end: nat)
    requires p.opcodeBase > LNS_ADVANCE_LINE
    requires var n := |pre| + |Expansion(p, ConstAddPc, [])|; n <= end <= n + |rest|
    ensures
      var piece := Expansion(p, ConstAddPc, []);
      Reaches(p, bigEndian, pre + piece + rest, |pre|, m, |pre| + |piece|, Exec(p, m, ConstAddPc), end)
  {
    hide InstructionAt, Run, Basic, Steps;
    var n := Steps(p, 255 - p.opcodeBase);
    AdvancePcAt(p, bigEndian, pre, n, rest);
    ReachesNext(p, bigEndian, pre + AdvancePcBytes(n) + rest, |pre|, m, end);
  }

  /** An instruction copied as it is. */
  lemma {:induction false} VerbatimRuns(p: Params, bigEndian: bool, data: seq<Byte>, pos: nat, pre: seq<Byte>,
      rest: seq<Byte>, m: Machine, end: nat)
    requires pos < |data|
    requires
      var i := InstructionAt(p, bigEndian, data, pos);
      var n := |pre| + (i.next - pos);
      i.complete && !Abbreviation(i.op) && n <= end <= n + |rest|
    ensures
      var i := InstructionAt(p, bigEndian, data, pos);
      Reaches(p, bigEndian, pre + data[pos..i.next] + rest, |pre|, m, |pre| + (i.next - pos), Exec(p, m, i.op), end)
  {
    hide *;
    var i := InstructionAt(p, bigEndian, data, pos);
    var data1 := pre + data[pos..i.next] + rest;
    Spliced(data, pos, i.next, pre, rest);
    InstructionLocal(p, bigEndian, data, pos, data1, |pre|);
    ReachesNext(p, bigEndian, data1, |pre|, m, end);
  }

  lemma {:induction false} Spliced(data: seq<Byte>, pos: nat, next: nat, pre: seq<Byte>, rest: seq<Byte>)
    requires pos <= next <= |data|
    ensures Same(data, pos, pre + data[pos..next] + rest, |pre|, next - pos)
  {
    var data1 := pre + data[pos..next] + rest;
    assert data1[|pre|..|pre| + (next - pos)] == data[pos..next];
  }

  /** Expanding is invisible: the same rows, and the same registers at the end.  The header must
      make 1, 2 and 3 standard opcodes. */
  lemma {:induction false} ExpansionInvisible(p: Params, bigEndian: bool, data: seq<Byte>, pos: nat, end: nat,
                                              m: Machine, pre: seq<Byte>, rest: seq<Byte>, m1: Machine)
    requires p.opcodeBase > LNS_ADVANCE_LINE
    requires end <= |data| && Whole(p, bigEndian, data, pos, end) && SameRows(m, m1)
    ensures
      var bytes := Expand(p, bigEndian, data, pos, end);
      var data1 := pre + bytes + rest;
      && SameRows(Run(p, bigEndian, data, pos, end, m), Run(p, bigEndian, data1, |pre|, |pre| + |bytes|, m1))
      && Basic(p, bigEndian, data1, |pre|, |pre| + |bytes|)
    decreases |data| - pos
  {
    hide Expand, Expansion, InstructionAt, Exec, Whole, Run, Basic, SameRows;
    ExpandStep(p, bigEndian, data, pos, end, m);
    if pos < end {
      var i := InstructionAt(p, bigEndian, data, pos);
      var piece, tail := Expansion(p, i.op, data[pos..i.next]), Expand(p, bigEndian, data, i.next, end);
      var data1 := pre + (piece + tail) + rest;
      var end1 := |pre| + |piece + tail|;
      assert data1 == pre + piece + (tail + rest) == (pre + piece) + tail + rest;
      var m2 := PieceRuns(p, bigEndian, data, pos, pre, tail + rest, m1, end1);
      ExecSameRows(p, m, m1, i.op);
      SameRowsTrans(m2, Exec(p, m1, i.op), Exec(p, m, i.op));
      ExpansionInvisible(p, bigEndian, data, i.next, end, Exec(p, m, i.op), pre + piece, rest, m2);
    } else {
      RunEnd(p, bigEndian, pre + [] + rest, |pre|, m1);
    }
  }

  lemma {:induction false} ExpandStep(p: Params, bigEndian: bool, data: seq<Byte>, pos: nat, end: nat, m: Machine)
    requires end <= |data| && Whole(p, bigEndian, data, pos, end)
    ensures pos < end ==>
      var i := InstructionAt(p, bigEndian, data, pos);
      && i.complete && Whole(p, bigEndian, data, i.next, end)
      && Expand(p, bigEndian, data, pos, end)
        == Expansion(p, i.op, data[pos..i.next]) + Expand(p, bigEndian, data, i.next, end)
      && Run(p, bigEndian, data, pos, end, m) == Run(p, bigEndian, data, i.next, end, Exec(p, m, i.op))
    ensures pos >= end ==>
      Expand(p, bigEndian, data, pos, end) == [] && Run(p, bigEndian, data, pos, end, m) == m
        && Basic(p, bigEndian, data, pos, end)
  {
    hide InstructionAt, Exec, Expansion;
  }

  lemma RunEnd(p: Params, bigEndian: bool, data: seq<Byte>, end: nat, m: Machine)
    requires end <= |data|
    ensures Run(p, bigEndian, data, end, end, m) == m && Basic(p, bigEndian, data, end, end)
  {
  }

  lemma SameRowsTrans(a: Machine, b: Machine, c: Machine)
    requires SameRows(a, b) && SameRows(c, b)
    ensures SameRows(a, c) && SameRows(c, a)
  {
  }

  lemma ExpansionOf(p: Params, op: Op, verbatim: seq<Byte>)
    ensures Abbreviation(op) <==> op.Special? || op.ConstAddPc?
    ensures Expansion(p, op, verbatim) == if Abbreviation(op) then Expansion(p, op, []) else verbatim
  {
  }

  lemma {:induction false} PieceRuns(p: Params, bigEndian: bool, data: seq<Byte>, pos: nat, pre: seq<Byte>,
      rest: seq<Byte>, m: Machine, end: nat)
    returns (m1: Machine)
    requires p.opcodeBase > LNS_ADVANCE_LINE && pos < |data| && InstructionAt(p, bigEndian, data, pos).complete
    requires
      var i := InstructionAt(p, bigEndian, data, pos);
      var n := |pre| + |Expansion(p, i.op, data[pos..i.next])|;
      n <= end <= n + |rest|
    ensures
      var i := InstructionAt(p, bigEndian, data, pos);
      var piece := Expansion(p, i.op, data[pos..i.next]);
      && SameRows(m1, Exec(p, m, i.op))
      && Reaches(p, bigEndian, pre + piece + rest, |pre|, m, |pre| + |piece|, m1, end)
  {
    hide *;
    var i := InstructionAt(p, bigEndian, data, pos);
    SpecialBound(p, bigEndian, data, pos);
    ExpansionOf(p, i.op, data[pos..i.next]);
    m1 := Exec(p, m, i.op);
    SameRowsRefl(m1);
    if i.op.Special? {
      m1 := SpecialRuns(p, bigEndian, pre, i.op.adjusted, rest, m, end);
    } else if i.op.ConstAddPc? {
      ConstAddPcRuns(p, bigEndian, pre, rest, m, end);
    } else {
      VerbatimRuns(p, bigEndian, data, pos, pre, rest, m, end);
    }
  }

  lemma SameRowsRefl(m: Machine)
    ensures SameRows(m, m)
  {
  }

  lemma SpecialBound(p: Params, bigEndian: bool, data: seq<Byte>, pos: nat)
    requires pos < |data|
    ensures var op := InstructionAt(p, bigEndian, data, pos).op; op.Special? ==> op.adjusted < 0x100
  {
  }

  /** What an instruction does to the registers and rows depends on them alone. */
  lemma ExecSameRows(p: Params, m: Machine, m1: Machine, op: Op)
    requires SameRows(m, m1)
    ensures SameRows(Exec(p, m, op), Exec(p, m1, op))
  {
  }
}
