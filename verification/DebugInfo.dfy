/** Debugging information entries and the compile units that hold them (sections 2.3 and 7.5 of
    DWARF 4).  A unit is read once with the values skipped; the values of one entry are read
    later, from the offset noted for it. */
module DebugInfo {
  import opened Wrappers
  import opened Bytes
  import opened Input
  import opened Leb128
  import opened FormValue

  const TAG_INVALID := 0x00
  const TAG_COMPILE_UNIT := 0x11
  const AT_LOW_PC := 0x11
  const AT_ENTRY_PC := 0x52
  const INVALID_ADDRESS := 0xFFFF_FFFF_FFFF_FFFF
  const INVALID_IDX := 0xffff_ffff

  datatype Attribute = Attribute(name: nat, form: Form)
  datatype Declaration = Declaration(tag: nat, hasChildren: bool, attributes: seq<Attribute>)
  type AbbreviationTable = map<nat, Declaration>

  datatype Kept = Kept(name: nat, form: Form, value: Value)
  datatype Entry = Entry(tag: nat, values: seq<Kept>, abbrIdx: nat, hasChild: bool)

  const NEW_ENTRY := Entry(TAG_INVALID, [], 0, false)

  datatype Node = Node(offset: nat, die: Entry, depth: nat)

  /** The section the entries are in, seen through the cached stream, and how to read it. */
  datatype Section = Section(data: seq<Byte>, bigEndian: bool, table: AbbreviationTable, env: Env)

  // ---- Specification ----

  function AllValues(s: Section, attrs: seq<Attribute>, pos: nat): (r: (bool, seq<Kept>, nat))
    requires pos <= |s.data|
    ensures pos <= r.2 <= |s.data|
    decreases |attrs|
  {
    if attrs == [] then (true, [], pos)
    else
      var d := Decode(attrs[0].form, s.env, s.bigEndian, s.data, pos);
      var v := Kept(attrs[0].name, d.form, d.value);
      if !d.ok then (false, [v], d.end)
      else
        var (ok, vs, end) := AllValues(s, attrs[1..], d.end);
        (ok, [v] + vs, end)
  }

  function NoValues(s: Section, attrs: seq<Attribute>, pos: nat): (r: (bool, nat))
    requires pos <= |s.data|
    ensures r.1 <= |s.data|
    decreases |attrs|
  {
    if attrs == [] then (true, pos)
    else
      var (ok, end) := Skipped(attrs[0].form, s.env, s.bigEndian, Clamp, s.data, pos);
      if !ok then (false, end) else NoValues(s, attrs[1..], end)
  }

  /** No block length is cut short by the end of the section. */
  predicate LengthsComplete(s: Section, attrs: seq<Attribute>, pos: nat)
    requires pos <= |s.data|
    decreases |attrs|
  {
    attrs != [] ==>
      && LengthComplete(attrs[0].form, s.env, s.data, pos)
      && var d := Decode(attrs[0].form, s.env, s.bigEndian, s.data, pos);
         (d.ok ==> LengthsComplete(s, attrs[1..], d.end))
  }

  function DeclarationOf(s: Section, code: nat): Option<Declaration> {
    if code % WORD32 in s.table then Some(s.table[code % WORD32]) else None
  }

  /** The values are kept by a full read, and in any case for a compile unit. */
  predicate Keeps(full: bool, tag: nat) {
    full || tag == TAG_COMPILE_UNIT
  }

  /** Reads an entry at `pos`. */
  function ReadEntry(s: Section, full: bool, die: Entry, pos: nat): (r: (bool, Entry, nat))
    requires pos <= |s.data|
    ensures r.2 <= |s.data|
  {
    var code := Uleb(s.data, pos);
    if pos == |s.data| then (false, die, pos)
    else if code.value == 0 then (false, die.(abbrIdx := 0), code.end)
    else
      match DeclarationOf(s, code.value)
      case None => (true, die.(abbrIdx := code.value), code.end)
      case Some(decl) =>
        var die1 := Entry(decl.tag, [], code.value, decl.hasChildren);
        if Keeps(full, decl.tag) then
          var (ok, vs, end) := AllValues(s, decl.attributes, code.end);
          (ok, die1.(values := vs), end)
        else
          var (ok, end) := NoValues(s, decl.attributes, code.end);
          (ok, die1, end)
  }

  predicate EntryComplete(s: Section, pos: nat)
    requires pos <= |s.data|
  {
    pos < |s.data| ==>
      var code := Uleb(s.data, pos);
      code.value != 0 ==> match DeclarationOf(s, code.value)
                          case None => true
                          case Some(decl) => LengthsComplete(s, decl.attributes, code.end)
  }

  lemma {:induction false} SkipValuesAgree(s: Section, attrs: seq<Attribute>, pos: nat)
    requires pos <= |s.data| && LengthsComplete(s, attrs, pos)
    ensures var (ok, _, end) := AllValues(s, attrs, pos); NoValues(s, attrs, pos) == (ok, end)
    decreases |attrs|
  {
    if attrs != [] {
      var d := Decode(attrs[0].form, s.env, s.bigEndian, s.data, pos);
      SkipAgrees(attrs[0].form, s.env, s.bigEndian, Clamp, s.data, pos);
      if d.ok {
        SkipValuesAgree(s, attrs[1..], d.end);
      }
    }
  }

  /** The skipping pass and full parsing see the same entry, up to the values, and go on at the
      same place. */
  lemma {:induction false} SkipEntryAgrees(s: Section, die: Entry, pos: nat)
    requires pos <= |s.data| && EntryComplete(s, pos)
    ensures
      var (ok, lazy, end) := ReadEntry(s, false, die, pos);
      var (ok1, full, end1) := ReadEntry(s, true, die, pos);
      && ok == ok1 && end == end1
      && lazy.(values := full.values) == full
      && (lazy.tag == TAG_COMPILE_UNIT || lazy.values == [] || lazy.values == die.values)
  {
    if pos < |s.data| {
      var code := Uleb(s.data, pos);
      if code.value != 0 && DeclarationOf(s, code.value).Some? {
        SkipValuesAgree(s, DeclarationOf(s, code.value).value.attributes, code.end);
      }
    }
  }

  /** The rows of a unit between `pos` and `end`: null entries close a level and leave no row.
      The depth is a 32-bit number. */
  function Rows(s: Section, full: bool, pos: nat, end: nat, depth: nat): seq<Node>
    requires end <= |s.data| && pos <= |s.data|
    decreases |s.data| - pos
  {
    if pos >= end then []
    else
      var (ok, die, next) := ReadEntry(s, full, NEW_ENTRY, pos);
      if next <= pos then []
      else if ok then [Node(pos, die, depth)]
        + Rows(s, full, next, end, if die.hasChild then (depth + 1) % WORD32 else depth)
      else Rows(s, full, next, end, (depth + WORD32 - 1) % WORD32)
  }

  lemma {:induction false} NoValuesForward(s: Section, attrs: seq<Attribute>, pos: nat)
    requires pos <= |s.data|
    ensures NoValues(s, attrs, pos).1 >= pos
    decreases |attrs|
  {
    if attrs != [] {
      SkippedForward(attrs[0].form, s.env, s.bigEndian, Clamp, s.data, pos);
      var (ok, end) := Skipped(attrs[0].form, s.env, s.bigEndian, Clamp, s.data, pos);
      if ok {
        NoValuesForward(s, attrs[1..], end);
      }
    }
  }

  lemma {:induction false} SkippedForward(form: Form, env: Env, bigEndian: bool, policy: SeekPolicy, data: seq<Byte>,
      pos: nat)
    requires pos <= |data|
    ensures Skipped(form, env, bigEndian, policy, data, pos).1 >= pos
    decreases |data| - pos
  {
    if LayoutOf(form, env) == Redirect && pos < |data| {
      var r := Uleb(data, pos);
      SkippedForward(FormOf(r.value), env, bigEndian, policy, data, r.end);
    }
  }

  /** Inside the section every entry, and every null entry, takes at least one byte. */
  lemma {:induction false} EntryForward(s: Section, full: bool, die: Entry, pos: nat)
    requires pos < |s.data|
    ensures ReadEntry(s, full, die, pos).2 > pos
  {
    var code := Uleb(s.data, pos);
    if code.value != 0 && DeclarationOf(s, code.value).Some? {
      NoValuesForward(s, DeclarationOf(s, code.value).value.attributes, code.end);
    }
  }

  // ---- Values of an entry ----

  function FormBy(die: Entry, name: nat): (r: Option<Kept>)
    ensures r.Some? ==> r.value in die.values && r.value.name == name
    ensures r.None? ==> forall v | v in die.values :: v.name != name
  {
    FindKept(die.values, name)
  }

  function FindKept(values: seq<Kept>, name: nat): (r: Option<Kept>)
    ensures r.Some? ==> r.value in values && r.value.name == name
    ensures r.None? ==> forall v | v in values :: v.name != name
  {
    if values == [] then None
    else if values[0].name == name then Some(values[0])
    else FindKept(values[1..], name)
  }

  /** The stored word as an unsigned number.  The word of a string is not a number; 0 stands for it. */
  function AsUInt64(v: Value): nat {
    match v
    case Unsigned(u) => u
    case Signed(i) => i % WORD64
    case Text(_) => 0
  }

  function AddressBy(die: Entry, name: nat): nat {
    match FormBy(die, name)
    case Some(v) => AsUInt64(v.value)
    case None => INVALID_ADDRESS
  }

  /** The base address of a unit after one more entry. */
  function BaseAfter(base: nat, die: Entry): nat {
    if die.tag != TAG_COMPILE_UNIT then base
    else if AddressBy(die, AT_LOW_PC) == INVALID_ADDRESS then AddressBy(die, AT_ENTRY_PC)
    else AddressBy(die, AT_LOW_PC)
  }

  function BaseOf(base: nat, rows: seq<Node>): nat
    decreases |rows|
  {
    if rows == [] then base else BaseOf(BaseAfter(base, rows[0].die), rows[1..])
  }

  // ---- The readers ----

  /** Reads an entry and all its values. */
  method ParseAll(s: Section, die0: Entry, stream: Stream) returns (ok: bool, die: Entry)
    requires stream.Valid() && stream.data == s.data && stream.bigEndian == s.bigEndian
    modifies stream
    ensures stream.Valid()
    ensures (ok, die, stream.position) == ReadEntry(s, true, die0, old(stream.position))
  {
    die := die0;
    var abbrIdx, chk := ReadUleb128(stream);
    ok := chk > 0;
    if ok {
      die := die.(abbrIdx := abbrIdx);
    }
    if ok && abbrIdx > 0 {
      var decl := DeclarationOf(s, abbrIdx);
      if decl.Some? {
        die := Entry(decl.value.tag, [], abbrIdx, decl.value.hasChildren);
        var values;
        ok, values := ParseValues(s, decl.value.attributes, stream);
        die := die.(values := values);
      }
    } else {
      ok := false;
    }
  }

  /** Reads an entry, but keeps the values only of a compile unit. */
  method ParseIf(s: Section, die0: Entry, stream: Stream) returns (ok: bool, die: Entry)
    requires stream.Valid() && stream.data == s.data && stream.bigEndian == s.bigEndian && stream.policy == Clamp
    requires EntryComplete(s, stream.position)
    modifies stream
    ensures stream.Valid()
    ensures (ok, die, stream.position) == ReadEntry(s, false, die0, old(stream.position))
  {
    die := die0;
    var abbrIdx, chk := ReadUleb128(stream);
    ok := chk > 0;
    if ok {
      die := die.(abbrIdx := abbrIdx);
    }
    if ok && abbrIdx > 0 {
      var decl := DeclarationOf(s, abbrIdx);
      if decl.Some? {
        die := Entry(decl.value.tag, [], abbrIdx, decl.value.hasChildren);
        if die.tag == TAG_COMPILE_UNIT {
          var values;
          ok, values := ParseValues(s, decl.value.attributes, stream);
          die := die.(values := values);
        } else {
          ok := SkipValues(s, decl.value.attributes, stream);
        }
      }
    } else {
      ok := false;
    }
  }

  method ParseValues(s: Section, attrs: seq<Attribute>, stream: Stream) returns (ok: bool, values: seq<Kept>)
    requires stream.Valid() && stream.data == s.data && stream.bigEndian == s.bigEndian
    modifies stream
    ensures stream.Valid()
    ensures (ok, values, stream.position) == AllValues(s, attrs, old(stream.position))
  {
    hide Decode;
    ok, values := true, [];
    ghost var whole := AllValues(s, attrs, stream.position);
    assert [] + whole.1 == whole.1 && attrs[0..] == attrs;
    var i := 0;
    while i < |attrs| && ok
      invariant i <= |attrs| && stream.Valid()
      invariant ok ==>
        var r := AllValues(s, attrs[i..], stream.position);
        whole == (r.0, values + r.1, r.2)
      invariant !ok ==> whole == (false, values, stream.position)
    {
      assert attrs[i..][1..] == attrs[i + 1..];
      var form := new FormValue(attrs[i].form);
      ok := form.Parse(s.env, stream);
      ghost var rest := if ok then AllValues(s, attrs[i + 1..], stream.position) else (false, [], stream.position);
      assert values + ([Kept(attrs[i].name, form.form, form.storage)] + rest.1)
        == values + [Kept(attrs[i].name, form.form, form.storage)] + rest.1;
      values := values + [Kept(attrs[i].name, form.form, form.storage)];
      i := i + 1;
    }
    assert values + [] == values;
  }

  method SkipValues(s: Section, attrs: seq<Attribute>, stream: Stream) returns (ok: bool)
    requires stream.Valid() && stream.data == s.data && stream.bigEndian == s.bigEndian && stream.policy == Clamp
    requires LengthsComplete(s, attrs, stream.position)
    modifies stream
    ensures stream.Valid()
    ensures (ok, stream.position) == NoValues(s, attrs, old(stream.position))
  {
    hide Decode, Skipped, LengthComplete;
    ok := true;
    ghost var whole := NoValues(s, attrs, stream.position);
    var i := 0;
    while i < |attrs| && ok
      invariant i <= |attrs| && stream.Valid()
      invariant ok ==> whole == NoValues(s, attrs[i..], stream.position)
      invariant ok ==> LengthsComplete(s, attrs[i..], stream.position)
      invariant !ok ==> whole == (false, stream.position)
    {
      assert attrs[i..][1..] == attrs[i + 1..];
      SkipAgrees(attrs[i].form, s.env, s.bigEndian, Clamp, s.data, stream.position);
      ok := FormValue.Skip(attrs[i].form, s.env, stream);
      i := i + 1;
    }
  }
}
