/** The least and the greatest address of a line table.  They are kept up to date by special
    opcodes and at the end of a sequence, but not by DW_LNS_copy. */
module LineAddresses {
  import opened Bytes
  import opened LineProgram

  predicate Bounding(op: Op) {
    op.Special? || op.EndSequence?
  }

  /** The rows that special opcodes and ends of sequences add. */
  function Counted(p: Params, bigEndian: bool, data: seq<Byte>, pos: nat, end: nat, m: Machine): seq<Row>
    requires end <= |data|
    decreases |data| - pos
  {
    if pos >= end then []
    else
      var i := InstructionAt(p, bigEndian, data, pos);
      var m1 := Exec(p, m, i.op);
      (if Bounding(i.op) && m1.rows != [] then [m1.rows[|m1.rows| - 1]] else [])
      + Counted(p, bigEndian, data, i.next, end, m1)
  }

  predicate AtMost(rows: seq<Row>, address: nat) {
    forall r | r in rows :: r.address <= address
  }

  predicate Attains(rows: seq<Row>, address: nat) {
    exists r | r in rows :: r.address == address
  }

  predicate IsGreatest(rows: seq<Row>, address: nat) {
    AtMost(rows, address) && Attains(rows, address)
  }

  lemma ExecBound(p: Params, m: Machine, op: Op)
    ensures
      var m1 := Exec(p, m, op);
      if Bounding(op) then
        && |m1.rows| == |m.rows| + 1 && m1.rows[..|m.rows|] == m.rows
        && var a := m1.rows[|m.rows|].address;
           m1.maxAddr == if m.maxAddr < a then a else m.maxAddr
      else m1.maxAddr == m.maxAddr
    ensures
      var m1 := Exec(p, m, op);
      m1.rows == m.rows || (|m1.rows| == |m.rows| + 1 && m1.rows[..|m.rows|] == m.rows)
  {
  }

  /** The greatest address is the greatest of those rows; nothing else is in it. */
  lemma {:induction false} MaxIsCounted(p: Params, bigEndian: bool, data: seq<Byte>, pos: nat, end: nat, m: Machine)
    requires end <= |data|
    ensures
      var m1 := Run(p, bigEndian, data, pos, end, m);
      var counted := Counted(p, bigEndian, data, pos, end, m);
      && m.maxAddr <= m1.maxAddr && AtMost(counted, m1.maxAddr)
        && (m1.maxAddr == m.maxAddr || Attains(counted, m1.maxAddr))
      && m.rows <= m1.rows && forall r | r in counted :: r in m1.rows
    decreases |data| - pos
  {
    hide InstructionAt, Exec;
    if pos < end {
      var i := InstructionAt(p, bigEndian, data, pos);
      var m1 := Exec(p, m, i.op);
      ExecBound(p, m, i.op);
      MaxIsCounted(p, bigEndian, data, i.next, end, m1);
      if Bounding(i.op) {
        assert m1.rows[|m.rows|] in m1.rows;
      }
    }
  }

  /** So the table's greatest address is that of its rows if and only if one of the highest rows
      was not added by DW_LNS_copy (or every address is zero). */
  lemma {:induction false} MaxExact(p: Params, bigEndian: bool, data: seq<Byte>, pos: nat, end: nat)
    requires end <= |data| && Run(p, bigEndian, data, pos, end, START).rows != []
    ensures
      var m := Run(p, bigEndian, data, pos, end, START);
      IsGreatest(m.rows, m.maxAddr) <==>
        AtMost(m.rows, 0) || exists r | r in Counted(p, bigEndian, data, pos, end, START) :: AtMost(m.rows, r.address)
  {
    hide Run, Counted;
    MaxIsCounted(p, bigEndian, data, pos, end, START);
    var m := Run(p, bigEndian, data, pos, end, START);
    var counted := Counted(p, bigEndian, data, pos, end, START);
    assert m.rows[0] in m.rows;
    if IsGreatest(m.rows, m.maxAddr) && m.maxAddr > 0 {
      var r :| r in counted && r.address == m.maxAddr;
    }
    if AtMost(m.rows, 0) {
      assert forall r | r in counted :: r.address <= 0;
      assert m.rows[0].address == 0;
    }
  }

  predicate AtLeast(rows: seq<Row>, address: nat) {
    forall r | r in rows :: r.address >= address
  }

  lemma ExecLower(p: Params, m: Machine, op: Op)
    ensures
      var m1 := Exec(p, m, op);
      if Bounding(op) then
        && |m1.rows| == |m.rows| + 1
        && var a := m1.rows[|m.rows|].address;
           m1.minAddr == if a < m.minAddr then a else m.minAddr
      else m1.minAddr == m.minAddr
  {
  }

  /** The least address is the least of those rows, or what it was. */
  lemma {:induction false} MinIsCounted(p: Params, bigEndian: bool, data: seq<Byte>, pos: nat, end: nat, m: Machine)
    requires end <= |data|
    ensures
      var m1 := Run(p, bigEndian, data, pos, end, m);
      var counted := Counted(p, bigEndian, data, pos, end, m);
      && m1.minAddr <= m.minAddr && AtLeast(counted, m1.minAddr)
      && (m1.minAddr == m.minAddr || Attains(counted, m1.minAddr))
    decreases |data| - pos
  {
    hide InstructionAt, Exec;
    if pos < end {
      var i := InstructionAt(p, bigEndian, data, pos);
      ExecLower(p, m, i.op);
      MinIsCounted(p, bigEndian, data, i.next, end, Exec(p, m, i.op));
    }
  }

  /** A sequence of rows between two ends goes up. */
  predicate Rising(rows: seq<Row>) {
    forall i | 0 <= i < |rows| - 1 :: !rows[i].endSequence ==> rows[i].address <= rows[i + 1].address
  }

  predicate Closed(rows: seq<Row>) {
    rows != [] ==> rows[|rows| - 1].endSequence
  }

  predicate EndsSeen(m: Machine) {
    !m.row.endSequence && forall r | r in m.rows && r.endSequence :: r.address <= m.maxAddr
  }

  lemma ExecEndsSeen(p: Params, m: Machine, op: Op)
    requires EndsSeen(m)
    ensures EndsSeen(Exec(p, m, op))
  {
  }

  lemma {:induction false} RunEndsSeen(p: Params, bigEndian: bool, data: seq<Byte>, pos: nat, end: nat, m: Machine)
    requires end <= |data| && EndsSeen(m)
    ensures EndsSeen(Run(p, bigEndian, data, pos, end, m))
    decreases |data| - pos
  {
    hide InstructionAt, Exec, EndsSeen;
    if pos < end {
      var i := InstructionAt(p, bigEndian, data, pos);
      ExecEndsSeen(p, m, i.op);
      RunEndsSeen(p, bigEndian, data, i.next, end, Exec(p, m, i.op));
    }
  }

  lemma {:induction false} BelowItsEnd(rows: seq<Row>, i: nat, bound: nat)
    requires Rising(rows) && Closed(rows) && i < |rows|
    requires forall r | r in rows && r.endSequence :: r.address <= bound
    ensures rows[i].address <= bound
    decreases |rows| - i
  {
    if rows[i].endSequence {
      assert rows[i] in rows;
    } else {
      BelowItsEnd(rows, i + 1, bound);
    }
  }

  /** If every sequence goes up and is closed, the greatest address is that of the rows. */
  lemma {:induction false} ClosedSequencesMax(p: Params, bigEndian: bool, data: seq<Byte>, pos: nat, end: nat)
    requires end <= |data|
    requires var m := Run(p, bigEndian, data, pos, end, START); m.rows != [] && Rising(m.rows) && Closed(m.rows)
    ensures var m := Run(p, bigEndian, data, pos, end, START); IsGreatest(m.rows, m.maxAddr)
  {
    hide Run, Counted;
    var m := Run(p, bigEndian, data, pos, end, START);
    RunEndsSeen(p, bigEndian, data, pos, end, START);
    MaxIsCounted(p, bigEndian, data, pos, end, START);
    forall r | r in m.rows ensures r.address <= m.maxAddr {
      var i :| 0 <= i < |m.rows| && m.rows[i] == r;
      BelowItsEnd(m.rows, i, m.maxAddr);
    }
    assert m.rows[0] in m.rows;
  }

  /** A program of which the greatest address is not that of its rows: advance by five, copy. */
  lemma {:induction false} LoneCopy()
    ensures
      var p: Params := RawParams.Params(1, true, -5, 14, 4, [0, 1, 1]);
      var m := Run(p, false, [LNS_ADVANCE_PC, 5, LNS_COPY], 0, 3, START);
      |m.rows| == 1 && m.rows[0].address == 5 && m.maxAddr == 0
  {
    var p: Params := RawParams.Params(1, true, -5, 14, 4, [0, 1, 1]);
    var data: seq<Byte> := [LNS_ADVANCE_PC, 5, LNS_COPY];
    var m := Exec(p, START, AdvancePc(5));
    assert InstructionAt(p, false, data, 0) == Instruction(AdvancePc(5), 2, true);
    assert Run(p, false, data, 0, 3, START) == Run(p, false, data, 2, 3, m);
    assert InstructionAt(p, false, data, 2) == Instruction(Copy, 3, true);
    assert Run(p, false, data, 2, 3, m) == Emit(m);
  }
}
