/** Which rows a line-number program stands for (section 6.2 of DWARF 4): sequences of rows are written
    as a program, each register set by some instruction for it, and the program is run. */
module LineRows {
  import opened Bytes
  import opened Input
  import opened Leb128
  import opened FormValue
  import opened LineProgram

  // ---- Writing rows ----

  /** The registers at the beginning of a sequence: the table in section 6.2.2 of DWARF 4. */
  function Initial(isStmt: bool): Row {
    Row(address := 0, file := 1, line := 1, column := 0, isa := 0, isStmt := isStmt,
        basicBlock := false, endSequence := false, prologueEnd := false, epilogueBegin := false)
  }

  /** An instruction that sets registers, by its operand. */
  datatype Ins =
    | Address8(a: nat) | Address4(a: nat) | AddSteps(n: nat) | AddFixed(n: nat) | AddMost
    | AddLine(delta: int) | File(n: nat) | Column(n: nat) | Isa(n: nat)
    | Negate | BasicBlock | PrologueEnd | EpilogueBegin

  function InsBytes(i: Ins, bigEndian: bool): seq<Byte> {
    match i
    case Address8(a) => [0, 9, 2] + EncodeFixed(a, 8, bigEndian)
    case Address4(a) => [0, 5, 2] + EncodeFixed(a, 4, bigEndian)
    case AddSteps(n) => [2] + EncodeUleb(n)
    case AddFixed(n) => [9] + EncodeFixed(n, 2, bigEndian)
    case AddMost => [8]
    case AddLine(delta) => [3] + EncodeSleb(delta)
    case File(n) => [4] + EncodeUleb(n)
    case Column(n) => [5] + EncodeUleb(n)
    case Isa(n) => [12] + EncodeUleb(n)
    case Negate => [6]
    case BasicBlock => [7]
    case PrologueEnd => [10]
    case EpilogueBegin => [11]
  }

  function AllBytes(list: seq<Ins>, bigEndian: bool): seq<Byte> {
    if list == [] then [] else InsBytes(list[0], bigEndian) + AllBytes(list[1..], bigEndian)
  }

  /** How the address of a row is reached from the one before, and how the row is added: by itself, or
      with address and line in one special opcode. */
  datatype How = Set8 | Set4 | ByStep | ByFixed | ByMost | BySpecial

  /** The steps of the greatest opcode (section 6.2.5.2 of DWARF 4, DW_LNS_const_add_pc). */
  function MostSteps(p: Params): nat {
    QuotientBound(255 - p.opcodeBase, p.lineRange);
    (255 - p.opcodeBase) / p.lineRange
  }

  /** The address moves on by `n` steps of the least instruction length. */
  predicate Moved(p: Params, was: nat, now: nat, n: nat) {
    now == was + n * p.minInst
  }

  /** A way that is there to get from one address to the next; `n` counts the steps. */
  predicate Reachable(p: Params, was: nat, now: nat, how: How, n: nat) {
    match how
    case Set8 => true
    case Set4 => now < WORD32
    case ByStep => Moved(p, was, now, n) && n < WORD32
    case ByFixed => was <= now < was + 0x1_0000
    case ByMost => Moved(p, was, now, MostSteps(p) + n) && n < WORD32
    case BySpecial => Moved(p, was, now, n)
  }

  function AddressIns(was: nat, now: nat, how: How, n: nat): seq<Ins>
    requires how == ByFixed ==> was <= now
  {
    match how
    case Set8 => [Address8(now)]
    case Set4 => [Address4(now)]
    case ByStep => [AddSteps(n)]
    case ByFixed => [AddFixed(now - was)]
    case ByMost => [AddMost, AddSteps(n)]
    case BySpecial => []
  }

  /** A row that is to be there, and how it is written. */
  datatype Wanted = Wanted(row: Row, how: How, n: nat)

  /** A special opcode stands for the line and the address together (section 6.2.5.1 of DWARF 4). */
  function SpecialOpcode(p: Params, was: Row, w: Wanted): int {
    (w.row.line - was.line - p.lineBase) + p.lineRange * w.n + p.opcodeBase
  }

  predicate Writable(p: Params, was: Row, w: Wanted) {
    && w.row.address < WORD64 && w.row.line < WORD32 && w.row.column < 0x1_0000 && w.row.file < 0x1_0000
    && w.row.isa < 0x100 && !w.row.endSequence && Reachable(p, was.address, w.row.address, w.how, w.n)
    && if w.how == BySpecial
       then p.lineBase <= w.row.line - was.line < p.lineBase + p.lineRange && SpecialOpcode(p, was, w) < 0x100
       else w.row.line - was.line >= -0x800_0000
  }

  /** The other registers, as far as they are to change. */
  function Marks(was: Row, row: Row): seq<Ins> {
    (if row.isStmt != was.isStmt then [Negate] else [])
    + (if row.basicBlock then [BasicBlock] else [])
    + (if row.prologueEnd then [PrologueEnd] else [])
    + (if row.epilogueBegin then [EpilogueBegin] else [])
  }

  function SetIns(was: Row, w: Wanted): seq<Ins>
    requires w.how == ByFixed ==> was.address <= w.row.address
  {
    AddressIns(was.address, w.row.address, w.how, w.n)
    + (if w.how == BySpecial then [] else [AddLine(w.row.line - was.line)])
    + [File(w.row.file), Column(w.row.column), Isa(w.row.isa)] + Marks(was, w.row)
  }

  function RowBytes(p: Params, bigEndian: bool, was: Row, w: Wanted): seq<Byte>
    requires Writable(p, was, w)
  {
    AllBytes(SetIns(was, w), bigEndian)
    + if w.how == BySpecial then
        SpecialIsByte(p, was, w);
        [SpecialOpcode(p, was, w)]
      else [1]
  }

  lemma SpecialIsByte(p: Params, was: Row, w: Wanted)
    requires Writable(p, was, w) && w.how == BySpecial
    ensures 0 <= SpecialOpcode(p, was, w) < 0x100 && p.opcodeBase <= SpecialOpcode(p, was, w)
  {
    assert p.lineRange * w.n >= 0;
  }

  /** The registers after a row was added: the marks that hold for one row are gone. */
  function Cleared(row: Row): Row {
    row.(basicBlock := false, prologueEnd := false, epilogueBegin := false)
  }

  /** A sequence: rows, and the address behind them. */
  datatype Sequence = Sequence(rows: seq<Wanted>, end: nat, how: How, n: nat)

  /** The row that ends a sequence. */
  function EndRow(was: Row, q: Sequence): Row {
    was.(address := q.end, endSequence := true)
  }

  predicate AllWritable(p: Params, was: Row, q: Sequence)
    decreases |q.rows|
  {
    if q.rows == [] then
      q.end < WORD64 && q.how != BySpecial && Reachable(p, was.address, q.end, q.how, q.n)
    else Writable(p, was, q.rows[0]) && AllWritable(p, Cleared(q.rows[0].row), q.(rows := q.rows[1..]))
  }

  function SequenceBytes(p: Params, bigEndian: bool, was: Row, q: Sequence): seq<Byte>
    requires AllWritable(p, was, q)
    decreases |q.rows|
  {
    if q.rows == [] then AllBytes(AddressIns(was.address, q.end, q.how, q.n), bigEndian) + [0, 1, 1]
    else
      RowBytes(p, bigEndian, was, q.rows[0])
      + SequenceBytes(p, bigEndian, Cleared(q.rows[0].row), q.(rows := q.rows[1..]))
  }

  /** The rows of a sequence, the one at its end included. */
  function RowsOf(was: Row, q: Sequence): seq<Row>
    decreases |q.rows|
  {
    if q.rows == [] then [EndRow(was, q)]
    else [q.rows[0].row] + RowsOf(Cleared(q.rows[0].row), q.(rows := q.rows[1..]))
  }

  predicate ProgramWritable(p: Params, list: seq<Sequence>) {
    forall k | 0 <= k < |list| :: AllWritable(p, Initial(p.defaultIsStmt), list[k])
  }

  function ProgramBytes(p: Params, bigEndian: bool, list: seq<Sequence>): seq<Byte>
    requires ProgramWritable(p, list)
  {
    if list == [] then []
    else SequenceBytes(p, bigEndian, Initial(p.defaultIsStmt), list[0]) + ProgramBytes(p, bigEndian, list[1..])
  }

  function ProgramRows(p: Params, list: seq<Sequence>): seq<Row> {
    if list == [] then [] else RowsOf(Initial(p.defaultIsStmt), list[0]) + ProgramRows(p, list[1..])
  }

  // ---- Reading one instruction ----

  predicate InsFits(i: Ins) {
    match i
    case Address8(a) => a < WORD64
    case Address4(a) => a < WORD32
    case AddSteps(n) => n < WORD32
    case AddFixed(n) => n < 0x1_0000
    case AddLine(delta) => -0x800_0000 <= delta < WORD32
    case File(n) => n < WORD32
    case Column(n) => n < WORD32
    case Isa(n) => n < WORD32
    case _ => true
  }

  function OpOf(i: Ins): Op {
    match i
    case Address8(a) => SetAddress(a)
    case Address4(a) => SetAddress(a)
    case AddSteps(n) => AdvancePc(n)
    case AddFixed(n) => FixedAdvancePc(n)
    case AddMost => ConstAddPc
    case AddLine(delta) => AdvanceLine(delta)
    case File(n) => SetFile(n)
    case Column(n) => SetColumn(n)
    case Isa(n) => SetIsa(n)
    case Negate => NegateStmt
    case BasicBlock => SetBasicBlock
    case PrologueEnd => SetPrologueEnd
    case EpilogueBegin => SetEpilogueBegin
  }

  /** What stands at a place is the instruction. */
  predicate Reads(p: Params, bigEndian: bool, data: seq<Byte>, pos: nat, op: Op, next: nat) {
    pos < |data| && var i := InstructionAt(p, bigEndian, data, pos); i.op == op && i.next == next
  }

  lemma {:induction false} AddressRead(p: Params, bigEndian: bool, pre: seq<Byte>, a: nat, width: nat, rest: seq<Byte>)
    requires width in {4, 8} && a < Pow256(width)
    ensures
      var bs := [0, width + 1, 2] + EncodeFixed(a, width, bigEndian);
      Reads(p, bigEndian, pre + bs + rest, |pre|, SetAddress(a), |pre| + |bs|)
  {
    hide Uleb, EncodeFixed, Fixed, Pow256, FixedAt;
    var address := EncodeFixed(a, width, bigEndian);
    var data := pre + ([0, width + 1, 2] + address) + rest;
    assert data == (pre + [0]) + [width + 1] + ([2] + address + rest);
    UlebOne(pre + [0], width + 1, [2] + address + rest);
    assert data == (pre + [0, width + 1, 2]) + address + rest;
    FixedHere(pre + [0, width + 1, 2], a, width, bigEndian, rest);
    assert data[|pre|] == 0 && data[|pre| + 2] == 2;
  }

  lemma {:induction false} UlebOne(pre: seq<Byte>, v: Byte, rest: seq<Byte>)
    requires v < 0x80
    ensures var r := Uleb(pre + [v] + rest, |pre|); r.value == v && r.end == |pre| + 1
  {
    assert EncodeUleb(v) == [v];
    UlebRoundTrip(pre, v, rest);
  }

  lemma {:induction false} NumberRead(p: Params, bigEndian: bool, pre: seq<Byte>, opcode: Byte, n: nat, rest: seq<Byte>)
    requires p.opcodeBase >= 13 && opcode in {2, 4, 5, 12} && n < WORD32
    ensures
      var op := if opcode == 2 then AdvancePc(n) else if opcode == 4 then SetFile(n)
                else if opcode == 5 then SetColumn(n) else SetIsa(n);
      var bs := [opcode] + EncodeUleb(n);
      Reads(p, bigEndian, pre + bs + rest, |pre|, op, |pre| + |bs|)
  {
    hide Uleb, EncodeUleb, FixedAt;
    var data := pre + ([opcode] + EncodeUleb(n)) + rest;
    assert data == (pre + [opcode]) + EncodeUleb(n) + rest;
    UlebRoundTrip(pre + [opcode], n, rest);
    assert data[|pre|] == opcode;
  }

  lemma {:induction false} LineRead(p: Params, bigEndian: bool, pre: seq<Byte>, delta: int, rest: seq<Byte>)
    requires p.opcodeBase >= 13 && -0x800_0000 <= delta < WORD32
    ensures
      var bs := [3] + EncodeSleb(delta);
      Reads(p, bigEndian, pre + bs + rest, |pre|, AdvanceLine(delta), |pre| + |bs|)
  {
    hide Uleb, EncodeSleb, SignExtend, FixedAt;
    var data := pre + ([3] + EncodeSleb(delta)) + rest;
    assert data == (pre + [3]) + EncodeSleb(delta) + rest;
    SlebRoundTrip(pre + [3], delta, rest);
    assert data[|pre|] == 3;
  }

  lemma {:induction false} FixedRead(p: Params, bigEndian: bool, pre: seq<Byte>, n: nat, rest: seq<Byte>)
    requires p.opcodeBase >= 13 && n < Pow256(2)
    ensures
      var bs := [9] + EncodeFixed(n, 2, bigEndian);
      Reads(p, bigEndian, pre + bs + rest, |pre|, FixedAdvancePc(n), |pre| + |bs|)
  {
    hide Uleb, EncodeFixed, Fixed, Pow256, FixedAt;
    var data := pre + ([9] + EncodeFixed(n, 2, bigEndian)) + rest;
    assert data == (pre + [9]) + EncodeFixed(n, 2, bigEndian) + rest;
    FixedHere(pre + [9], n, 2, bigEndian, rest);
    assert data[|pre|] == 9;
  }

  lemma {:induction false} OpcodeRead(p: Params, bigEndian: bool, pre: seq<Byte>, opcode: Byte, rest: seq<Byte>)
    requires p.opcodeBase >= 13 && (opcode in {1, 6, 7, 8, 10, 11} || opcode >= p.opcodeBase)
    ensures
      var op := if opcode >= p.opcodeBase then Special(opcode - p.opcodeBase) else if opcode == 1 then Copy
                else if opcode == 6 then NegateStmt else if opcode == 7 then SetBasicBlock
                else if opcode == 8 then ConstAddPc else if opcode == 10 then SetPrologueEnd else SetEpilogueBegin;
      Reads(p, bigEndian, pre + [opcode] + rest, |pre|, op, |pre| + 1)
  {
    hide Uleb, FixedAt;
    assert (pre + [opcode] + rest)[|pre|] == opcode;
  }

  lemma {:induction false} EndRead(p: Params, bigEndian: bool, pre: seq<Byte>, rest: seq<Byte>)
    ensures Reads(p, bigEndian, pre + [0, 1, 1] + rest, |pre|, EndSequence, |pre| + 3)
  {
    hide Uleb, FixedAt;
    var data := pre + [0, 1, 1] + rest;
    assert data == (pre + [0]) + [1] + ([1] + rest);
    UlebOne(pre + [0], 1, [1] + rest);
    assert data[|pre|] == 0 && data[|pre| + 2] == 1;
  }

  lemma FixedWidths()
    ensures Pow256(2) == 0x1_0000 && Pow256(4) == WORD32 && Pow256(8) == WORD64
  {
    assert Pow256(2) == 0x1_0000;
    assert Pow256(4) == 0x1_0000 * 0x1_0000;
    assert Pow256(6) == WORD32 * 0x1_0000;
  }

  lemma {:induction false} InsRead(p: Params, bigEndian: bool, pre: seq<Byte>, i: Ins, rest: seq<Byte>)
    requires p.opcodeBase >= 13 && InsFits(i)
    ensures
      var bs := InsBytes(i, bigEndian);
      Reads(p, bigEndian, pre + bs + rest, |pre|, OpOf(i), |pre| + |bs|)
  {
    hide Reads, EncodeFixed, EncodeUleb, EncodeSleb, Pow256;
    FixedWidths();
    match i
    case Address8(a) => AddressRead(p, bigEndian, pre, a, 8, rest);
    case Address4(a) => AddressRead(p, bigEndian, pre, a, 4, rest);
    case AddSteps(n) => NumberRead(p, bigEndian, pre, 2, n, rest);
    case AddFixed(n) => FixedRead(p, bigEndian, pre, n, rest);
    case AddMost => OpcodeRead(p, bigEndian, pre, 8, rest);
    case AddLine(delta) => LineRead(p, bigEndian, pre, delta, rest);
    case File(n) => NumberRead(p, bigEndian, pre, 4, n, rest);
    case Column(n) => NumberRead(p, bigEndian, pre, 5, n, rest);
    case Isa(n) => NumberRead(p, bigEndian, pre, 12, n, rest);
    case Negate => OpcodeRead(p, bigEndian, pre, 6, rest);
    case BasicBlock => OpcodeRead(p, bigEndian, pre, 7, rest);
    case PrologueEnd => OpcodeRead(p, bigEndian, pre, 10, rest);
    case EpilogueBegin => OpcodeRead(p, bigEndian, pre, 11, rest);
  }

  // ---- Running the instructions of a row ----

  /** The run from `pos` with `m` is the run from `pos1` with `m1`. */
  ghost predicate Goes(p: Params, bigEndian: bool, data: seq<Byte>, pos: nat, m: Machine, pos1: nat, m1: Machine,
      end: nat)
    requires end <= |data|
  {
    Run(p, bigEndian, data, pos, end, m) == Run(p, bigEndian, data, pos1, end, m1)
  }

  lemma GoesOne(p: Params, bigEndian: bool, data: seq<Byte>, pos: nat, op: Op, next: nat, m: Machine, end: nat)
    requires pos < end <= |data| && Reads(p, bigEndian, data, pos, op, next)
    ensures Goes(p, bigEndian, data, pos, m, next, Exec(p, m, op), end)
  {
    hide InstructionAt, Exec;
  }

  /** What an instruction does to the registers. */
  function Applied(p: Params, row: Row, i: Ins): Row {
    Exec(p, Machine(row, [], 0, 0), OpOf(i)).row
  }

  function AllApplied(p: Params, row: Row, list: seq<Ins>): Row
    decreases |list|
  {
    if list == [] then row else AllApplied(p, Applied(p, row, list[0]), list[1..])
  }

  lemma OnlyRegisters(p: Params, m: Machine, i: Ins)
    ensures Exec(p, m, OpOf(i)) == m.(row := Applied(p, m.row, i))
  {
  }

  lemma {:induction false} AllGo(
      p: Params, bigEndian: bool, pre: seq<Byte>, list: seq<Ins>, rest: seq<Byte>, m: Machine, end: nat)
    requires p.opcodeBase >= 13 && forall k | 0 <= k < |list| :: InsFits(list[k])
    requires |pre| + |AllBytes(list, bigEndian)| <= end <= |pre| + |AllBytes(list, bigEndian)| + |rest|
    ensures
      var bs := AllBytes(list, bigEndian);
      Goes(p, bigEndian, pre + bs + rest, |pre|, m, |pre| + |bs|, m.(row := AllApplied(p, m.row, list)), end)
    decreases |list|
  {
    hide InsBytes, Exec, Applied, InsFits, Reads, Run;
    if list != [] {
      var first, tail := InsBytes(list[0], bigEndian), AllBytes(list[1..], bigEndian);
      InsSize(list[0], bigEndian);
      InsRead(p, bigEndian, pre, list[0], tail + rest);
      var data := pre + AllBytes(list, bigEndian) + rest;
      assert data == pre + first + (tail + rest) == (pre + first) + tail + rest;
      GoesOne(p, bigEndian, data, |pre|, OpOf(list[0]), |pre| + |first|, m, end);
      OnlyRegisters(p, m, list[0]);
      AllGo(p, bigEndian, pre + first, list[1..], rest, m.(row := Applied(p, m.row, list[0])), end);
    }
  }

  lemma InsSize(i: Ins, bigEndian: bool)
    ensures |InsBytes(i, bigEndian)| > 0
  {
  }

  lemma {:induction false} AppliedAppend(p: Params, row: Row, a: seq<Ins>, b: seq<Ins>)
    ensures AllApplied(p, row, a + b) == AllApplied(p, AllApplied(p, row, a), b)
    decreases |a|
  {
    hide Applied;
    if a == [] {
      assert a + b == b;
    } else {
      assert (a + b)[1..] == a[1..] + b;
      AppliedAppend(p, Applied(p, row, a[0]), a[1..], b);
    }
  }

  lemma AppliedOne(p: Params, row: Row, list: seq<Ins>)
    ensures list == [] ==> AllApplied(p, row, list) == row
    ensures |list| == 1 ==> AllApplied(p, row, list) == Applied(p, row, list[0])
    ensures |list| == 2 ==> AllApplied(p, row, list) == Applied(p, Applied(p, row, list[0]), list[1])
  {
    hide Applied;
    if |list| == 2 {
      assert list[1..] == [list[1]] && list[1..][1..] == [];
      assert AllApplied(p, Applied(p, row, list[0]), list[1..]) == Applied(p, Applied(p, row, list[0]), list[1]);
    }
  }

  lemma Product(a: nat, b: nat, c: nat)
    ensures (a + b) * c == a * c + b * c && a * c >= 0
  {
  }

  lemma {:induction false} AddressApplied(p: Params, row: Row, now: nat, how: How, n: nat)
    requires now < WORD64 && Reachable(p, row.address, now, how, n)
    ensures AllApplied(p, row, AddressIns(row.address, now, how, n)) == if how == BySpecial then row
      else row.(address := now)
  {
    hide AllApplied, Applied, MostSteps;
    var list := AddressIns(row.address, now, how, n);
    AppliedOne(p, row, list);
    match how
    case Set8 => AddressSet(p, row, now);
    case Set4 => AddressSet(p, row, now);
    case ByStep => StepApplied(p, row, now, n);
    case ByFixed => FixedApplied(p, row, now);
    case ByMost =>
      Product(MostSteps(p), n, p.minInst);
      Product(n, 0, p.minInst);
      var half := row.address + MostSteps(p) * p.minInst;
      MostApplied(p, row, half);
      StepApplied(p, row.(address := half), now, n);
    case BySpecial =>
  }

  lemma AddressSet(p: Params, row: Row, now: nat)
    ensures Applied(p, row, Address8(now)) == Applied(p, row, Address4(now)) == row.(address := now)
  {
  }

  lemma StepApplied(p: Params, row: Row, now: nat, n: nat)
    requires now < WORD64 && now == row.address + n * p.minInst
    ensures Applied(p, row, AddSteps(n)) == row.(address := now)
  {
    Product(n, 0, p.minInst);
  }

  lemma FixedApplied(p: Params, row: Row, now: nat)
    requires row.address <= now < WORD64
    ensures Applied(p, row, AddFixed(now - row.address)) == row.(address := now)
  {
  }

  lemma MostApplied(p: Params, row: Row, half: nat)
    requires half < WORD64 && half == row.address + MostSteps(p) * p.minInst
    ensures Applied(p, row, AddMost) == row.(address := half)
  {
    assert Steps(p, 255 - p.opcodeBase) == MostSteps(p);
    hide Steps, MostSteps;
    assert AddressAdvance(p, 255 - p.opcodeBase) == MostSteps(p) * p.minInst;
  }

  /** Inverted, as the registers of the first sequence may be. */
  function Flip(row: Row, flip: bool): Row {
    row.(isStmt := row.isStmt != flip)
  }

  lemma {:induction false} MarksApplied(p: Params, row: Row, was: Row, now: Row, flip: bool)
    requires !row.basicBlock && !row.prologueEnd && !row.epilogueBegin && row.isStmt == (was.isStmt != flip)
    ensures AllApplied(p, row, Marks(was, now)) ==
      row.(isStmt := now.isStmt != flip, basicBlock := now.basicBlock, prologueEnd := now.prologueEnd,
           epilogueBegin := now.epilogueBegin)
  {
    hide AllApplied, Applied, Marks;
    MarksAre(was, now);
    var list := Optional(now.epilogueBegin, EpilogueBegin);
    MarkFirst(p, row, now.isStmt != was.isStmt, Negate,
              Optional(now.basicBlock, BasicBlock) + (Optional(now.prologueEnd, PrologueEnd) + list));
    var row1 := row.(isStmt := now.isStmt != flip);
    MarkFirst(p, row1, now.basicBlock, BasicBlock, Optional(now.prologueEnd, PrologueEnd) + list);
    var row2 := row1.(basicBlock := now.basicBlock);
    MarkFirst(p, row2, now.prologueEnd, PrologueEnd, list);
    var row3 := row2.(prologueEnd := now.prologueEnd);
    MarkFirst(p, row3, now.epilogueBegin, EpilogueBegin, []);
    assert list + [] == list;
    AppliedOne(p, row3.(epilogueBegin := now.epilogueBegin), []);
  }

  function Optional(on: bool, i: Ins): seq<Ins> {
    if on then [i] else []
  }

  lemma MarksAre(was: Row, row: Row)
    ensures Marks(was, row) ==
      Optional(row.isStmt != was.isStmt, Negate)
      + (Optional(row.basicBlock, BasicBlock)
         + (Optional(row.prologueEnd, PrologueEnd) + Optional(row.epilogueBegin, EpilogueBegin)))
  {
    var a, b := Optional(row.isStmt != was.isStmt, Negate), Optional(row.basicBlock, BasicBlock);
    var c, d := Optional(row.prologueEnd, PrologueEnd), Optional(row.epilogueBegin, EpilogueBegin);
    assert a + b + c + d == a + (b + (c + d));
  }

  /** A mark that is inverted or set, or not, and the instructions behind it. */
  lemma {:induction false} MarkFirst(p: Params, row: Row, on: bool, i: Ins, rest: seq<Ins>)
    ensures
      var row1 := if !on then row
                  else if i == Negate then row.(isStmt := !row.isStmt)
                  else if i == BasicBlock then row.(basicBlock := true)
                  else if i == PrologueEnd then row.(prologueEnd := true)
                  else if i == EpilogueBegin then row.(epilogueBegin := true)
                  else Applied(p, row, i);
      AllApplied(p, row, Optional(on, i) + rest) == AllApplied(p, row1, rest)
  {
    hide AllApplied;
    AppliedAppend(p, row, Optional(on, i), rest);
    AppliedOne(p, row, Optional(on, i));
  }

  lemma {:induction false} NumbersApplied(p: Params, row: Row, file: nat, column: nat, isa: nat)
    requires file < 0x1_0000 && column < 0x1_0000 && isa < 0x100
    ensures AllApplied(p, row, [File(file), Column(column), Isa(isa)]) ==
      row.(file := file, column := column, isa := isa)
  {
    hide AllApplied, Applied;
    var list := [File(file), Column(column), Isa(isa)];
    assert list == [File(file), Column(column)] + [Isa(isa)];
    AppliedAppend(p, row, [File(file), Column(column)], [Isa(isa)]);
    AppliedOne(p, row, [File(file), Column(column)]);
    NumberApplied(p, row, file, column, isa);
    NumberApplied(p, row.(file := file), file, column, isa);
    NumberApplied(p, row.(file := file, column := column), file, column, isa);
    AppliedOne(p, row.(file := file, column := column), [Isa(isa)]);
  }

  lemma NumberApplied(p: Params, row: Row, file: nat, column: nat, isa: nat)
    requires file < 0x1_0000 && column < 0x1_0000 && isa < 0x100
    ensures Applied(p, row, File(file)) == row.(file := file)
    ensures Applied(p, row, Column(column)) == row.(column := column)
    ensures Applied(p, row, Isa(isa)) == row.(isa := isa)
  {
  }

  lemma {:induction false} LineApplied(p: Params, row: Row, now: nat)
    requires row.line < WORD32 && now < WORD32
    ensures AllApplied(p, row, [AddLine(now - row.line)]) == row.(line := now)
  {
    AppliedOne(p, row, [AddLine(now - row.line)]);
  }

  /** Registers that the row before leaves behind. */
  predicate Resting(row: Row) {
    row.line < WORD32 && !row.basicBlock && !row.prologueEnd && !row.epilogueBegin && !row.endSequence
  }

  /** What the registers are before the row is added. */
  function Ready(was: Row, w: Wanted): Row {
    if w.how == BySpecial then w.row.(address := was.address, line := was.line) else w.row
  }

  lemma {:induction false} SetApplied(p: Params, was: Row, w: Wanted, flip: bool)
    requires Writable(p, was, w) && Resting(was)
    ensures AllApplied(p, Flip(was, flip), SetIns(was, w)) == Flip(Ready(was, w), flip)
  {
    hide AllApplied, Applied, Marks, AddressIns;
    var row := Flip(was, flip);
    var a := AddressIns(was.address, w.row.address, w.how, w.n);
    var b := if w.how == BySpecial then [] else [AddLine(w.row.line - was.line)];
    var c, d := [File(w.row.file), Column(w.row.column), Isa(w.row.isa)], Marks(was, w.row);
    assert SetIns(was, w) == a + b + c + d;
    AppliedAppend(p, row, a + b + c, d);
    AppliedAppend(p, row, a + b, c);
    AppliedAppend(p, row, a, b);
    AddressApplied(p, row, w.row.address, w.how, w.n);
    var row1 := AllApplied(p, row, a);
    AppliedOne(p, row1, []);
    if w.how != BySpecial {
      LineApplied(p, row1, w.row.line);
    }
    var row2 := AllApplied(p, row1, b);
    NumbersApplied(p, row2, w.row.file, w.row.column, w.row.isa);
    MarksApplied(p, AllApplied(p, row2, c), was, w.row, flip);
  }

  lemma {:induction false} SetFits(p: Params, was: Row, w: Wanted)
    requires Writable(p, was, w) && Resting(was)
    ensures forall k | 0 <= k < |SetIns(was, w)| :: InsFits(SetIns(was, w)[k])
  {
  }

  lemma {:induction false} AddressFits(p: Params, was: nat, now: nat, how: How, n: nat)
    requires now < WORD64 && Reachable(p, was, now, how, n)
    ensures forall k | 0 <= k < |AddressIns(was, now, how, n)| :: InsFits(AddressIns(was, now, how, n)[k])
  {
  }

  // ---- Running rows, sequences and programs ----

  /** A special opcode adds the row with its own address and line. */
  lemma {:induction false} SpecialExact(p: Params, was: Row, w: Wanted, flip: bool, m: Machine)
    requires Writable(p, was, w) && w.how == BySpecial && Resting(was) && m.row == Flip(Ready(was, w), flip)
    ensures SpecialOpcode(p, was, w) >= p.opcodeBase
    ensures
      var m1 := Exec(p, m, Special(SpecialOpcode(p, was, w) - p.opcodeBase));
      m1.rows == m.rows + [Flip(w.row, flip)] && m1.row == Flip(Cleared(w.row), flip)
  {
    hide *;
    SpecialAdvances(p, was, w);
    SpecialMoves(p, was, w, flip, m, SpecialOpcode(p, was, w) - p.opcodeBase);
  }

  /** The opcode advances by what is wanted. */
  lemma {:induction false} SpecialAdvances(p: Params, was: Row, w: Wanted)
    requires Writable(p, was, w) && w.how == BySpecial
    ensures SpecialOpcode(p, was, w) >= p.opcodeBase
    ensures
      var adjusted := SpecialOpcode(p, was, w) - p.opcodeBase;
      LineAdvance(p, adjusted) == w.row.line - was.line && Moved(p, was.address, w.row.address, Steps(p, adjusted))
  {
    hide Moved;
    SpecialIsByte(p, was, w);
    var adjusted := SpecialOpcode(p, was, w) - p.opcodeBase;
    Divided(adjusted, p.lineRange, w.n, w.row.line - was.line - p.lineBase);
  }

  lemma {:induction false} SpecialMoves(p: Params, was: Row, w: Wanted, flip: bool, m: Machine, adjusted: nat)
    requires Writable(p, was, w) && w.how == BySpecial && Resting(was) && m.row == Flip(Ready(was, w), flip)
    requires LineAdvance(p, adjusted) == w.row.line - was.line
    requires Moved(p, was.address, w.row.address, Steps(p, adjusted))
    ensures
      var m1 := Exec(p, m, Special(adjusted));
      m1.rows == m.rows + [Flip(w.row, flip)] && m1.row == Flip(Cleared(w.row), flip)
  {
    hide Steps, LineAdvance, SpecialOpcode, Reachable;
    Product(Steps(p, adjusted), 0, p.minInst);
  }

  lemma {:induction false} Divided(a: int, b: nat, q: nat, r: nat)
    requires b > 0 && r < b && a == r + b * q
    ensures a / b == q && a % b == r
  {
    var x := a / b;
    assert a == b * x + a % b;
    MoreByOne(b, x, q);
    MoreByOne(b, q, x);
  }

  lemma MoreByOne(b: nat, x: int, y: int)
    ensures x > y ==> b * x >= b * y + b
  {
    if x > y {
      var k := x - y - 1;
      assert b * k >= 0;
      assert b * x == b * y + b + b * k;
    }
  }

  lemma {:induction false} RowGoes(
      p: Params, bigEndian: bool, pre: seq<Byte>, was: Row, w: Wanted, flip: bool, rest: seq<Byte>, m: Machine,
        end: nat)
    returns (m1: Machine)
    requires p.opcodeBase >= 13 && Writable(p, was, w) && Resting(was) && m.row == Flip(was, flip)
    requires |pre| + |RowBytes(p, bigEndian, was, w)| <= end <= |pre| + |RowBytes(p, bigEndian, was, w)| + |rest|
    ensures
      var bs := RowBytes(p, bigEndian, was, w);
      Goes(p, bigEndian, pre + bs + rest, |pre|, m, |pre| + |bs|, m1, end)
    ensures m1.rows == m.rows + [Flip(w.row, flip)] && m1.row == Flip(Cleared(w.row), flip)
  {
    hide Reads, Run, InsFits, AllBytes, AllApplied, SetIns, Writable, SpecialOpcode, Exec;
    RowBytesAre(p, bigEndian, was, w);
    var opcode: Byte := RowOpcode(p, was, w);
    var set_ := AllBytes(SetIns(was, w), bigEndian);
    var data := pre + (set_ + [opcode]) + rest;
    assert data == pre + set_ + ([opcode] + rest) == (pre + set_) + [opcode] + rest;
    SetFits(p, was, w);
    AllGo(p, bigEndian, pre, SetIns(was, w), [opcode] + rest, m, end);
    SetApplied(p, was, w, flip);
    var ready := m.(row := Flip(Ready(was, w), flip));
    OpcodeRead(p, bigEndian, pre + set_, opcode, rest);
    var op := if w.how == BySpecial then Special(opcode - p.opcodeBase) else Copy;
    GoesOne(p, bigEndian, data, |pre + set_|, op, |pre + set_| + 1, ready, end);
    m1 := Exec(p, ready, op);
    if w.how == BySpecial {
      SpecialExact(p, was, w, flip, ready);
    } else {
      CopyExact(p, ready);
    }
  }

  function RowOpcode(p: Params, was: Row, w: Wanted): (b: Byte)
    requires Writable(p, was, w)
    ensures w.how == BySpecial ==> b >= p.opcodeBase
  {
    if w.how == BySpecial then
      SpecialIsByte(p, was, w);
      SpecialOpcode(p, was, w)
    else 1
  }

  lemma RowBytesAre(p: Params, bigEndian: bool, was: Row, w: Wanted)
    requires Writable(p, was, w)
    ensures w.how == ByFixed ==> was.address <= w.row.address
    ensures RowBytes(p, bigEndian, was, w) == AllBytes(SetIns(was, w), bigEndian) + [RowOpcode(p, was, w)]
    ensures RowOpcode(p, was, w) == if w.how == BySpecial then SpecialOpcode(p, was, w) else 1
  {
    hide AllBytes, SetIns;
  }

  lemma CopyExact(p: Params, m: Machine)
    ensures var m1 := Exec(p, m, Copy); m1.rows == m.rows + [m.row] && m1.row == Cleared(m.row)
  {
  }

  /** The end of a sequence adds a row, and the registers are as at the beginning. */
  lemma EndExact(p: Params, m: Machine)
    ensures
      var m1 := Exec(p, m, EndSequence);
      m1.rows == m.rows + [m.row.(endSequence := true)] && m1.row == Initial(p.defaultIsStmt)
  {
  }

  function FlipAll(rows: seq<Row>, flip: bool): (r: seq<Row>)
    ensures |r| == |rows| && forall k | 0 <= k < |r| :: r[k] == Flip(rows[k], flip)
  {
    if rows == [] then [] else [Flip(rows[0], flip)] + FlipAll(rows[1..], flip)
  }

  lemma {:induction false} EndGoes(
      p: Params, bigEndian: bool, pre: seq<Byte>, was: Row, q: Sequence, flip: bool, rest: seq<Byte>, m: Machine,
        end: nat)
    returns (m1: Machine)
    requires p.opcodeBase >= 13 && q.rows == [] && AllWritable(p, was, q) && m.row == Flip(was, flip)
    requires var n := |pre| + |SequenceBytes(p, bigEndian, was, q)|; n <= end <= n + |rest|
    ensures
      var bs := SequenceBytes(p, bigEndian, was, q);
      Goes(p, bigEndian, pre + bs + rest, |pre|, m, |pre| + |bs|, m1, end)
    ensures m1.rows == m.rows + FlipAll(RowsOf(was, q), flip) && m1.row == Initial(p.defaultIsStmt)
  {
    hide Reads, Run, InsFits, AllBytes, AllApplied, AddressIns, Exec;
    var list := AddressIns(was.address, q.end, q.how, q.n);
    var bs := AllBytes(list, bigEndian);
    var data := pre + (bs + [0, 1, 1]) + rest;
    assert data == pre + bs + ([0, 1, 1] + rest) == (pre + bs) + [0, 1, 1] + rest;
    AddressFits(p, was.address, q.end, q.how, q.n);
    AllGo(p, bigEndian, pre, list, [0, 1, 1] + rest, m, end);
    AddressApplied(p, m.row, q.end, q.how, q.n);
    var ready := m.(row := m.row.(address := q.end));
    EndRead(p, bigEndian, pre + bs, rest);
    GoesOne(p, bigEndian, data, |pre + bs|, EndSequence, |pre + bs| + 3, ready, end);
    m1 := Exec(p, ready, EndSequence);
    EndExact(p, ready);
  }

  lemma GoesOn(
      p: Params, bigEndian: bool, data: seq<Byte>, a: nat, m: Machine, b: nat, m1: Machine, c: nat, m2: Machine,
        end: nat)
    requires end <= |data| && Goes(p, bigEndian, data, a, m, b, m1, end) && Goes(p, bigEndian, data, b, m1, c, m2, end)
    ensures Goes(p, bigEndian, data, a, m, c, m2, end)
  {
    hide Run;
  }

  lemma {:induction false} SequenceUnfold(p: Params, bigEndian: bool, was: Row, q: Sequence, flip: bool,
      before: seq<Row>)
    requires AllWritable(p, was, q) && q.rows != []
    ensures
      var w, later := q.rows[0], q.(rows := q.rows[1..]);
      && Writable(p, was, w) && AllWritable(p, Cleared(w.row), later) && Resting(Cleared(w.row))
      && SequenceBytes(p, bigEndian, was, q) ==
         RowBytes(p, bigEndian, was, w) + SequenceBytes(p, bigEndian, Cleared(w.row), later)
      && before + [Flip(w.row, flip)] + FlipAll(RowsOf(Cleared(w.row), later), flip)
         == before + FlipAll(RowsOf(was, q), flip)
  {
    hide *;
    FirstWritten(p, bigEndian, was, q);
    FirstFlipped(was, q, flip);
    var w, later := q.rows[0], q.(rows := q.rows[1..]);
    var tail := FlipAll(RowsOf(Cleared(w.row), later), flip);
    assert before + [Flip(w.row, flip)] + tail == before + ([Flip(w.row, flip)] + tail);
  }

  lemma {:induction false} FirstWritten(p: Params, bigEndian: bool, was: Row, q: Sequence)
    requires AllWritable(p, was, q) && q.rows != []
    ensures
      var w, later := q.rows[0], q.(rows := q.rows[1..]);
      && Writable(p, was, w) && AllWritable(p, Cleared(w.row), later) && Resting(Cleared(w.row))
      && SequenceBytes(p, bigEndian, was, q) ==
         RowBytes(p, bigEndian, was, w) + SequenceBytes(p, bigEndian, Cleared(w.row), later)
  {
    hide RowBytes, Reachable, AllBytes, SetIns, SpecialOpcode, RowsOf, Flip, Writable, Resting;
    ClearedRests(p, was, q.rows[0]);
  }

  lemma ClearedRests(p: Params, was: Row, w: Wanted)
    ensures Writable(p, was, w) ==> Resting(Cleared(w.row))
  {
    hide Reachable, SpecialOpcode;
  }

  lemma {:induction false} FirstFlipped(was: Row, q: Sequence, flip: bool)
    requires q.rows != []
    ensures
      var w, later := q.rows[0], q.(rows := q.rows[1..]);
      FlipAll(RowsOf(was, q), flip) == [Flip(w.row, flip)] + FlipAll(RowsOf(Cleared(w.row), later), flip)
  {
    hide Flip;
    var w, later := q.rows[0], q.(rows := q.rows[1..]);
    var tail := RowsOf(Cleared(w.row), later);
    assert RowsOf(was, q) == [w.row] + tail && ([w.row] + tail)[1..] == tail;
  }

  lemma {:induction false} SequenceGoes(
      p: Params, bigEndian: bool, pre: seq<Byte>, was: Row, q: Sequence, flip: bool, rest: seq<Byte>, m: Machine,
        end: nat)
    returns (m1: Machine)
    requires p.opcodeBase >= 13 && Resting(was) && AllWritable(p, was, q) && m.row == Flip(was, flip)
    requires var n := |pre| + |SequenceBytes(p, bigEndian, was, q)|; n <= end <= n + |rest|
    ensures
      var bs := SequenceBytes(p, bigEndian, was, q);
      Goes(p, bigEndian, pre + bs + rest, |pre|, m, |pre| + |bs|, m1, end)
    ensures m1.rows == m.rows + FlipAll(RowsOf(was, q), flip) && m1.row == Initial(p.defaultIsStmt)
    decreases |q.rows|
  {
    hide *;
    if q.rows == [] {
      m1 := EndGoes(p, bigEndian, pre, was, q, flip, rest, m, end);
    } else {
      SequenceUnfold(p, bigEndian, was, q, flip, m.rows);
      var w, later := q.rows[0], q.(rows := q.rows[1..]);
      var a, b := RowBytes(p, bigEndian, was, w), SequenceBytes(p, bigEndian, Cleared(w.row), later);
      assert pre + (a + b) + rest == pre + a + (b + rest) == (pre + a) + b + rest;
      var m2 := RowGoes(p, bigEndian, pre, was, w, flip, b + rest, m, end);
      m1 := SequenceGoes(p, bigEndian, pre + a, Cleared(w.row), later, flip, rest, m2, end);
      GoesOn(p, bigEndian, pre + (a + b) + rest, |pre|, m, |pre + a|, m2, |pre + (a + b)|, m1, end);
    }
  }

  /** The rows that are read: in the first sequence the registers may start with the statement mark
      inverted. */
  function RowsRead(p: Params, list: seq<Sequence>, flip: bool): seq<Row> {
    if list == [] then []
    else FlipAll(RowsOf(Initial(p.defaultIsStmt), list[0]), flip) + RowsRead(p, list[1..], false)
  }

  lemma {:induction false} ProgramGoes(
      p: Params, bigEndian: bool, pre: seq<Byte>, list: seq<Sequence>, flip: bool, rest: seq<Byte>, m: Machine)
    requires p.opcodeBase >= 13 && ProgramWritable(p, list) && m.row == Flip(Initial(p.defaultIsStmt), flip)
    ensures
      var bs := ProgramBytes(p, bigEndian, list);
      Run(p, bigEndian, pre + bs + rest, |pre|, |pre| + |bs|, m).rows == m.rows + RowsRead(p, list, flip)
    decreases |list|
  {
    hide InstructionAt, Exec, SequenceBytes, AllWritable, FlipAll, RowsOf;
    if list == [] {
      assert m.rows + [] == m.rows;
    } else {
      var start := Initial(p.defaultIsStmt);
      assert AllWritable(p, start, list[0]);
      var a, b := SequenceBytes(p, bigEndian, start, list[0]), ProgramBytes(p, bigEndian, list[1..]);
      var end := |pre| + |a + b|;
      assert pre + (a + b) + rest == pre + a + (b + rest) == (pre + a) + b + rest;
      var m1 := SequenceGoes(p, bigEndian, pre, start, list[0], flip, b + rest, m, end);
      FlipNot(start);
      ProgramGoes(p, bigEndian, pre + a, list[1..], false, rest, m1);
      var first, others := FlipAll(RowsOf(start, list[0]), flip), RowsRead(p, list[1..], false);
      assert m.rows + first + others == m.rows + (first + others);
    }
  }

  lemma FlipNot(row: Row)
    ensures Flip(row, false) == row
  {
  }

  lemma {:induction false} FlipNone(rows: seq<Row>)
    ensures FlipAll(rows, false) == rows
  {
    hide FlipAll;
    assert forall k | 0 <= k < |rows| :: Flip(rows[k], false) == rows[k];
  }

  lemma {:induction false} ReadIsWritten(p: Params, list: seq<Sequence>)
    ensures RowsRead(p, list, false) == ProgramRows(p, list)
    decreases |list|
  {
    hide FlipAll, RowsOf;
    if list != [] {
      FlipNone(RowsOf(Initial(p.defaultIsStmt), list[0]));
      ReadIsWritten(p, list[1..]);
    }
  }

  lemma {:induction false} RowsNotEmpty(was: Row, q: Sequence)
    ensures RowsOf(was, q) != []
  {
  }

  /** A program that writes closed sequences of rows is run to these rows, but for the statement mark of
      the first sequence: the code starts it unset, and only later ones with the default of the header.
      So the rows are those that were written if and only if that default is unset, or there are none. */
  lemma {:induction false} ProgramExact(p: Params, bigEndian: bool, pre: seq<Byte>, list: seq<Sequence>,
      rest: seq<Byte>)
    requires p.opcodeBase >= 13 && ProgramWritable(p, list)
    ensures
      var bs := ProgramBytes(p, bigEndian, list);
      var rows := Run(p, bigEndian, pre + bs + rest, |pre|, |pre| + |bs|, START).rows;
      && rows == RowsRead(p, list, p.defaultIsStmt)
      && (rows == ProgramRows(p, list) <==> !p.defaultIsStmt || list == [])
  {
    hide Run, ProgramBytes, RowsOf, FlipAll;
    StartIs(p);
    ProgramGoes(p, bigEndian, pre, list, p.defaultIsStmt, rest, START);
    assert START.rows + RowsRead(p, list, p.defaultIsStmt) == RowsRead(p, list, p.defaultIsStmt);
    ReadIsWritten(p, list);
    if p.defaultIsStmt && list != [] {
      var first := RowsOf(Initial(p.defaultIsStmt), list[0]);
      RowsNotEmpty(Initial(p.defaultIsStmt), list[0]);
      assert RowsRead(p, list, true)[0] == Flip(first[0], true) && ProgramRows(p, list)[0] == first[0];
    }
  }

  lemma StartIs(p: Params)
    ensures START.row == Flip(Initial(p.defaultIsStmt), p.defaultIsStmt) && START.rows == []
  {
  }
}
