/** Line-number programs (section 6.2 of DWARF 4): the instructions in a sequence of bytes, what
    each does to the registers and the rows, and the run of a whole program. */
module LineProgram {
  import opened Bytes
  import opened Input
  import opened Leb128
  import opened FormValue

  const LNE_END_SEQUENCE := 1
  const LNE_SET_ADDRESS := 2
  const LNE_DEFINE_FILE := 3

  const LNS_COPY := 1
  const LNS_ADVANCE_PC := 2
  const LNS_ADVANCE_LINE := 3
  const LNS_SET_FILE := 4
  const LNS_SET_COLUMN := 5
  const LNS_NEGATE_STMT := 6
  const LNS_SET_BASIC_BLOCK := 7
  const LNS_CONST_ADD_PC := 8
  const LNS_FIXED_ADVANCE_PC := 9
  const LNS_SET_PROLOGUE_END := 10
  const LNS_SET_EPILOGUE_BEGIN := 11
  const LNS_SET_ISA := 12

  const NAME_MAX := 4096
  const MAX_ADDRESS := 0xFFFF_FFFF_FFFF_FFFF

  datatype Row = Row(address: nat, line: nat, column: nat, file: nat, isa: nat, isStmt: bool,
                     basicBlock: bool, endSequence: bool, prologueEnd: bool, epilogueBegin: bool)

  function Fresh(isStmt: bool): Row {
    Row(0, 1, 0, 1, 0, isStmt, false, false, false, false)
  }

  /** What the program needs of its header; `line_range` is what special opcodes divide by. */
  datatype RawParams = Params(minInst: Byte, defaultIsStmt: bool, lineBase: int, lineRange: Byte, opcodeBase: Byte,
    lengths: seq<Byte>)
  type Params = p: RawParams
    | p.lineRange > 0 && -0x80 <= p.lineBase < 0x80
      && |p.lengths| == (if p.opcodeBase == 0 then 0 else p.opcodeBase - 1)
    witness RawParams.Params(1, true, -5, 14, 0, [])

  // ---- Instructions ----

  datatype Op =
    | EndSequence | SetAddress(address: nat) | OtherExtended
    | Copy | AdvancePc(n: nat) | AdvanceLine(delta: int) | SetFile(n: nat) | SetColumn(n: nat) | NegateStmt
      | SetBasicBlock
    | ConstAddPc | FixedAdvancePc(n: nat) | SetPrologueEnd | SetEpilogueBegin | SetIsa(n: nat) | OtherStandard
    | Special(adjusted: nat)

  /** An instruction, where the next one is read, and whether every operand was there and nothing
      beyond `next` was looked at. */
  datatype Instruction = Instruction(op: Op, next: nat, complete: bool)

  predicate UlebDone(data: seq<Byte>, pos: nat)
    requires pos <= |data|
  {
    var end := Uleb(data, pos).end;
    end > pos && data[end - 1] < 0x80
  }

  function SkipUlebs(data: seq<Byte>, pos: nat, n: nat): (end: nat)
    requires pos <= |data|
    ensures pos <= end <= |data|
    decreases n
  {
    if n == 0 then pos else SkipUlebs(data, Uleb(data, pos).end, n - 1)
  }

  predicate UlebsDone(data: seq<Byte>, pos: nat, n: nat)
    requires pos <= |data|
    decreases n
  {
    n > 0 ==> UlebDone(data, pos) && UlebsDone(data, Uleb(data, pos).end, n - 1)
  }

  predicate StringDone(data: seq<Byte>, pos: nat, max: nat)
    requires pos <= |data| && max > 0
  {
    var n := StringLength(data, pos, max);
    n == max || (n > 0 && data[pos + n - 1] == 0)
  }

  /** An extended instruction, from behind its leading zero. */
  function ExtendedAt(bigEndian: bool, data: seq<Byte>, pos: nat): (i: Instruction)
    requires pos <= |data|
    ensures pos <= i.next <= |data|
  {
    var len := Uleb(data, pos);
    var sub: int := if len.end < |data| then data[len.end] else 0;
    var args := Min(len.end + 1, |data|);
    var argSize := (len.value + WORD64 - 1) % WORD64;
    var complete := UlebDone(data, pos) && len.end < |data|;
    if sub == LNE_END_SEQUENCE then Instruction(EndSequence, args, complete)
    else if sub == LNE_SET_ADDRESS then
      if argSize in {4, 8} then
        Instruction(SetAddress(FixedAt(data, args, argSize, bigEndian, 0)), Min(args + argSize, |data|),
                    complete && args + argSize <= |data|)
      else Instruction(OtherExtended, args, complete)
    else if sub == LNE_DEFINE_FILE then
      var numbers := args + StringLength(data, args, NAME_MAX);
      Instruction(OtherExtended, SkipUlebs(data, numbers, 3),
                  complete && StringDone(data, args, NAME_MAX) && UlebsDone(data, numbers, 3))
    else
      Instruction(OtherExtended, SeekTo(Clamp, |data|, args, pos + len.value),
                  complete && args <= pos + len.value <= |data|)
  }

  /** A standard instruction, from behind its opcode. */
  function StandardAt(p: Params, bigEndian: bool, opcode: nat, data: seq<Byte>, pos: nat): (i: Instruction)
    requires 0 < opcode < p.opcodeBase && pos <= |data|
    ensures pos <= i.next <= |data|
  {
    var arg := Uleb(data, pos);
    var done := UlebDone(data, pos);
    if opcode == LNS_COPY then Instruction(Copy, pos, true)
    else if opcode == LNS_ADVANCE_PC then Instruction(AdvancePc(arg.value), arg.end, done)
    else if opcode == LNS_ADVANCE_LINE then Instruction(AdvanceLine(SignExtend(arg)), arg.end, done)
    else if opcode == LNS_SET_FILE then Instruction(SetFile(arg.value), arg.end, done)
    else if opcode == LNS_SET_COLUMN then Instruction(SetColumn(arg.value), arg.end, done)
    else if opcode == LNS_NEGATE_STMT then Instruction(NegateStmt, pos, true)
    else if opcode == LNS_SET_BASIC_BLOCK then Instruction(SetBasicBlock, pos, true)
    else if opcode == LNS_CONST_ADD_PC then Instruction(ConstAddPc, pos, true)
    else if opcode == LNS_FIXED_ADVANCE_PC then
      Instruction(FixedAdvancePc(FixedAt(data, pos, 2, bigEndian, 0)), Min(pos + 2, |data|), pos + 2 <= |data|)
    else if opcode == LNS_SET_PROLOGUE_END then Instruction(SetPrologueEnd, pos, true)
    else if opcode == LNS_SET_EPILOGUE_BEGIN then Instruction(SetEpilogueBegin, pos, true)
    else if opcode == LNS_SET_ISA then Instruction(SetIsa(arg.value), arg.end, done)
    else
      var n := p.lengths[opcode - 1];
      Instruction(OtherStandard, SkipUlebs(data, pos, n), UlebsDone(data, pos, n))
  }

  function InstructionAt(p: Params, bigEndian: bool, data: seq<Byte>, pos: nat): (i: Instruction)
    requires pos < |data|
    ensures pos < i.next <= |data|
  {
    var opcode: int := data[pos];
    if opcode == 0 then ExtendedAt(bigEndian, data, pos + 1)
    else if opcode < p.opcodeBase then StandardAt(p, bigEndian, opcode, data, pos + 1)
    else Instruction(Special(opcode - p.opcodeBase), pos + 1, true)
  }

  // ---- The machine ----

  datatype Machine = Machine(row: Row, rows: seq<Row>, minAddr: nat, maxAddr: nat)

  const START := Machine(Fresh(false), [], MAX_ADDRESS, 0)

  lemma {:induction false} QuotientBound(a: nat, b: int)
    requires b > 0
    ensures 0 <= a / b <= a
  {
    var q, c := a / b, b - 1;
    assert a == b * q + a % b;
    assert q >= 0;
    assert q * c >= 0;
    assert q * b == q * c + q;
  }

  /** How many times the address moves on. */
  function Steps(p: Params, adjusted: nat): (n: nat)
    ensures n <= adjusted
  {
    QuotientBound(adjusted, p.lineRange);
    adjusted / p.lineRange
  }

  function AddressAdvance(p: Params, adjusted: nat): nat {
    Steps(p, adjusted) * p.minInst
  }

  function LineAdvance(p: Params, adjusted: nat): (n: int)
    ensures p.lineBase <= n < p.lineBase + p.lineRange
  {
    p.lineBase + adjusted % p.lineRange
  }

  /** The row is added, and the flags that hold for one row only are taken back. */
  function Emit(m: Machine): Machine {
    m.(rows := m.rows + [m.row], row := m.row.(basicBlock := false, prologueEnd := false, epilogueBegin := false))
  }

  function Witnessed(m: Machine): Machine {
    m.(minAddr := Min(m.minAddr, m.row.address),
       maxAddr := if m.maxAddr < m.row.address then m.row.address else m.maxAddr)
  }

  function Advance(m: Machine, n: nat): Machine {
    m.(row := m.row.(address := (m.row.address + n) % WORD64))
  }

  function AdvanceBy(m: Machine, delta: int): Machine {
    m.(row := m.row.(line := (m.row.line + delta) % WORD32))
  }

  function Exec(p: Params, m: Machine, op: Op): Machine {
    match op
    case EndSequence =>
      var m1 := Witnessed(m.(row := m.row.(endSequence := true)));
      m1.(rows := m1.rows + [m1.row], row := Fresh(p.defaultIsStmt))
    case SetAddress(a) => m.(row := m.row.(address := a))
    case Copy => Emit(m)
    case AdvancePc(n) => Advance(m, n * p.minInst)
    case AdvanceLine(delta) => AdvanceBy(m, delta)
    case SetFile(n) => m.(row := m.row.(file := n % 0x1_0000))
    case SetColumn(n) => m.(row := m.row.(column := n % 0x1_0000))
    case NegateStmt => m.(row := m.row.(isStmt := !m.row.isStmt))
    case SetBasicBlock => m.(row := m.row.(basicBlock := true))
    case ConstAddPc => Advance(m, AddressAdvance(p, 255 - p.opcodeBase))
    case FixedAdvancePc(n) => Advance(m, n)
    case SetPrologueEnd => m.(row := m.row.(prologueEnd := true))
    case SetEpilogueBegin => m.(row := m.row.(epilogueBegin := true))
    case SetIsa(n) => m.(row := m.row.(isa := n % 0x100))
    case OtherExtended => m
    case OtherStandard => m
    case Special(adjusted) =>
      Emit(Witnessed(Advance(AdvanceBy(m, LineAdvance(p, adjusted)), AddressAdvance(p, adjusted))))
  }

  /** The program between `pos` and `end`. */
  function Run(p: Params, bigEndian: bool, data: seq<Byte>, pos: nat, end: nat, m: Machine): Machine
    requires end <= |data|
    decreases |data| - pos
  {
    if pos >= end then m
    else
      var i := InstructionAt(p, bigEndian, data, pos);
      Run(p, bigEndian, data, i.next, end, Exec(p, m, i.op))
  }

  /** The bytes between `pos` and `end` are a whole number of complete instructions. */
  predicate Whole(p: Params, bigEndian: bool, data: seq<Byte>, pos: nat, end: nat)
    requires end <= |data|
    decreases |data| - pos
  {
    if pos >= end then pos == end
    else
      var i := InstructionAt(p, bigEndian, data, pos);
      i.complete && Whole(p, bigEndian, data, i.next, end)
  }
}
