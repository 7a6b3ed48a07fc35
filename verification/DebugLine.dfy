/** The line tables of a section, parsed when first asked for and kept in the order of their
    greatest addresses. */
module DebugLine {
  import opened Wrappers
  import opened Bytes
  import opened Input
  import opened LineProgram
  import opened LineTable
  import opened LineAddresses
  import opened Algorithms

  /** A finished table and the offset it was read at. */
  datatype Node = Node(offset: nat, prologue: Prologue, rows: seq<Row>, minAddr: nat, maxAddr: nat)

  function MaxOf(n: Node): nat {
    n.maxAddr
  }

  /** The node is what a fresh parse at its offset gives.  Rows with equal addresses may stand in
      any order. */
  predicate ParsedAt(bigEndian: bool, data: seq<Byte>, n: Node) {
    && n.offset <= |data| && Runnable(bigEndian, data, n.offset)
    && n.prologue == PrologueAt(bigEndian, data, n.offset).0 && n.prologue.Supported()
    && SortedBy(n.rows, AddressOf)
    && var m := ProgramRun(bigEndian, data, n.offset, START);
       multiset(n.rows) == multiset(m.rows) && n.minAddr == m.minAddr && n.maxAddr == m.maxAddr
  }

  // ---- Two parses at the same offset ----

  function AddressesOf(rows: seq<Row>): (r: seq<nat>)
    ensures |r| == |rows| && forall i | 0 <= i < |r| :: r[i] == rows[i].address
  {
    if rows == [] then [] else [rows[0].address] + AddressesOf(rows[1..])
  }

  function Without<T>(s: seq<T>, j: nat): seq<T>
    requires j < |s|
  {
    s[..j] + s[j + 1..]
  }

  lemma {:induction false} WithoutOne<T>(s: seq<T>, j: nat)
    requires j < |s|
    ensures multiset(s) == multiset(Without(s, j)) + multiset{s[j]}
    ensures multiset(Without(s, j)) == multiset(s) - multiset{s[j]}
  {
    assert s == s[..j] + [s[j]] + s[j + 1..];
  }

  lemma {:induction false} AddressesWithout(rows: seq<Row>, j: nat)
    requires j < |rows|
    ensures AddressesOf(Without(rows, j)) == Without(AddressesOf(rows), j)
  {
    if j == 0 {
      assert Without(rows, 0) == rows[1..];
      assert Without(AddressesOf(rows), 0) == AddressesOf(rows[1..]);
    } else {
      AddressesWithout(rows[1..], j - 1);
      assert Without(rows, j) == [rows[0]] + Without(rows[1..], j - 1);
    }
  }

  lemma {:induction false} AddressesPermuted(a: seq<Row>, b: seq<Row>)
    requires multiset(a) == multiset(b)
    ensures multiset(AddressesOf(a)) == multiset(AddressesOf(b))
    decreases |a|
  {
    hide AddressesOf, Without;
    if a != [] {
      assert a[0] in multiset(b);
      var j :| 0 <= j < |b| && b[j] == a[0];
      WithoutOne(a, 0);
      WithoutOne(b, j);
      SmallerWithout(a, 0);
      AddressesPermuted(Without(a, 0), Without(b, j));
      AddressesWithout(a, 0);
      AddressesWithout(b, j);
      WithoutOne(AddressesOf(a), 0);
      WithoutOne(AddressesOf(b), j);
    } else {
      assert |multiset(b)| == 0;
    }
  }

  lemma SmallerWithout<T>(s: seq<T>, j: nat)
    requires j < |s|
    ensures |Without(s, j)| == |s| - 1
  {
  }

  predicate Ordered(s: seq<nat>) {
    forall i, j | 0 <= i < j < |s| :: s[i] <= s[j]
  }

  lemma {:induction false} LeastFirst(s: seq<nat>, t: seq<nat>)
    requires Ordered(s) && Ordered(t) && multiset(s) == multiset(t) && s != []
    ensures t != [] && s[0] == t[0]
  {
    assert s[0] in multiset(t) && t[0] in multiset(s);
    var i :| 0 <= i < |s| && s[i] == t[0];
    var j :| 0 <= j < |t| && t[j] == s[0];
    assert s[0] <= s[i] && t[0] <= t[j];
  }

  lemma {:induction false} OrderedUnique(s: seq<nat>, t: seq<nat>)
    requires Ordered(s) && Ordered(t) && multiset(s) == multiset(t)
    ensures s == t
    decreases |s|
  {
    if s != [] {
      LeastFirst(s, t);
      WithoutFirst(s);
      WithoutFirst(t);
      OrderedUnique(s[1..], t[1..]);
      assert s == [s[0]] + s[1..] && t == [t[0]] + t[1..];
    } else {
      assert |multiset(t)| == 0;
    }
  }

  /** Parsing twice gives the same table, up to the order of rows with equal addresses. */
  lemma {:induction false} ParsedTwice(bigEndian: bool, data: seq<Byte>, a: Node, b: Node)
    requires ParsedAt(bigEndian, data, a) && ParsedAt(bigEndian, data, b) && a.offset == b.offset
    ensures a.prologue == b.prologue && a.minAddr == b.minAddr && a.maxAddr == b.maxAddr
    ensures multiset(a.rows) == multiset(b.rows) && AddressesOf(a.rows) == AddressesOf(b.rows)
  {
    hide PrologueAt, Runnable, ProgramRun;
    AddressesPermuted(a.rows, b.rows);
    SortedAddresses(a.rows);
    SortedAddresses(b.rows);
    OrderedUnique(AddressesOf(a.rows), AddressesOf(b.rows));
  }

  lemma {:induction false} SortedAddresses(rows: seq<Row>)
    requires SortedBy(rows, AddressOf)
    ensures Ordered(AddressesOf(rows))
  {
    var s := AddressesOf(rows);
    forall i, j | 0 <= i < j < |s| ensures s[i] <= s[j] {
      assert AddressOf(rows[i]) <= AddressOf(rows[j]);
    }
  }

  /** When the greatest address is that of the rows, the last row of the table has it, so that it
      is the bound of the addresses that have a row. */
  lemma {:induction false} GreatestIsLast(bigEndian: bool, data: seq<Byte>, n: Node)
    requires ParsedAt(bigEndian, data, n) && n.rows != []
    requires IsGreatest(ProgramRun(bigEndian, data, n.offset, START).rows, n.maxAddr)
    ensures n.rows[|n.rows| - 1].address == n.maxAddr
  {
    hide PrologueAt, Runnable, ProgramRun;
    var rows := ProgramRun(bigEndian, data, n.offset, START).rows;
    var last := n.rows[|n.rows| - 1];
    assert last in multiset(rows);
    var r :| r in rows && r.address == n.maxAddr;
    assert r in multiset(n.rows);
    var k :| 0 <= k < |n.rows| && n.rows[k] == r;
    assert AddressOf(n.rows[k]) <= AddressOf(last) || k == |n.rows| - 1;
  }

  lemma InsertMembers(table: seq<Node>, at: nat, node: Node)
    requires at <= |table|
    ensures forall n | n in table :: n in InsertAt(table, at, node)
    ensures forall n | n in InsertAt(table, at, node) :: n == node || n in table
  {
    forall n | n in table ensures n in InsertAt(table, at, node) {
      var k :| 0 <= k < |table| && table[k] == n;
      assert n == InsertAt(table, at, node)[if k < at then k else k + 1];
    }
  }

  class DebugLine {
    ghost const data: seq<Byte>
    ghost const bigEndian: bool
    var table: seq<Node>

    constructor (ghost data: seq<Byte>, ghost bigEndian: bool)
      ensures this.data == data && this.bigEndian == bigEndian && table == [] && Valid()
    {
      this.data, this.bigEndian := data, bigEndian;
      table := [];
    }

    /** In the order of the greatest addresses, and every node is what a fresh parse gives. */
    ghost predicate Valid()
      reads this
    {
      SortedBy(table, MaxOf) && forall i | 0 <= i < |table| :: ParsedAt(bigEndian, data, table[i])
    }

    /** The first table that reaches as far as the address. */
    method GetLineTable(address: nat) returns (r: Option<Node>)
      requires Valid()
      ensures r.Some? ==> r.value in table && address <= r.value.maxAddr
      ensures r.Some? ==> forall n | n in table && address <= n.maxAddr :: r.value.maxAddr <= n.maxAddr
      ensures r.None? ==> forall n | n in table :: n.maxAddr < address
    {
      hide ParsedAt;
      r := None;
      var at := LowerBound(table, MaxOf, address);
      if at != |table| {
        r := Some(table[at]);
      }
      forall n | n in table && address <= n.maxAddr ensures r.Some? && r.value.maxAddr <= n.maxAddr {
        var k :| 0 <= k < |table| && table[k] == n;
        assert MaxOf(table[k]) >= address;
        assert k >= at;
        assert k == at || MaxOf(table[at]) <= MaxOf(table[k]);
      }
    }

    method GetLineTableByOffset(offset: nat) returns (r: Option<Node>)
      ensures r.Some? ==> r.value in table && r.value.offset == offset
      ensures r.None? ==> forall n | n in table :: n.offset != offset
    {
      var i := 0;
      while i < |table| && table[i].offset != offset
        invariant i <= |table| && forall k | 0 <= k < i :: table[k].offset != offset
      {
        i := i + 1;
      }
      r := if i < |table| then Some(table[i]) else None;
    }

    /** The table at an offset, or nothing if its version is not known: whatever was asked before. */
    method ExtractLineTableByOffset(stream: Stream, offset: nat) returns (r: Option<Node>)
      requires Valid()
      requires stream.Valid() && stream.data == data && stream.bigEndian == bigEndian && stream.policy == Clamp
      requires Runnable(bigEndian, data, Min(offset, |data|))
      modifies this, stream
      ensures Valid() && stream.Valid()
      ensures r.Some? <==> PrologueAt(bigEndian, data, Min(offset, |data|)).0.Supported()
      ensures r.Some? ==>
        ParsedAt(bigEndian, data, r.value) && r.value.offset == Min(offset, |data|) && r.value in table
      ensures forall n | n in old(table) :: n in table
    {
      hide PrologueAt, Runnable, ProgramRun;
      r := GetLineTableByOffset(offset);
      if r.None? {
        stream.Seek(offset);
        r := Extract(stream);
      }
    }

    /** Reads the table at the stream's position into its place. */
    method Extract(stream: Stream) returns (r: Option<Node>)
      requires Valid()
      requires stream.Valid() && stream.data == data && stream.bigEndian == bigEndian && stream.policy == Clamp
      requires Runnable(bigEndian, data, stream.position)
      modifies this, stream
      ensures Valid() && stream.Valid()
      ensures r.Some? <==> PrologueAt(bigEndian, data, old(stream.position)).0.Supported()
      ensures r.Some? ==>
        ParsedAt(bigEndian, data, r.value) && r.value.offset == old(stream.position) && r.value in table
      ensures forall n | n in old(table) :: n in table
    {
      hide PrologueAt, Runnable, ProgramRun;
      r := None;
      var offset := stream.position;
      var temp := new LineTable();
      var ok := temp.Parse(stream);
      if ok {
        var node := Node(offset, temp.prologue, temp.rows, temp.minAddr, temp.maxAddr);
        assert ParsedAt(bigEndian, data, node);
        var at := Insert(node);
        r := Some(table[at]);
      }
    }

    method Insert(node: Node) returns (at: nat)
      requires Valid() && ParsedAt(bigEndian, data, node)
      modifies this
      ensures Valid() && at < |table| && table[at] == node
      ensures forall n | n in old(table) :: n in table
      ensures |table| == |old(table)| + 1
    {
      hide ParsedAt, SortedBy;
      at := LowerBound(table, MaxOf, node.maxAddr);
      InsertSorted(table, MaxOf, node, at);
      InsertMembers(table, at, node);
      table := InsertAt(table, at, node);
    }
  }
}
