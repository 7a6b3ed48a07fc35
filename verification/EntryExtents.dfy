/** Which addresses an entry holds (sections 2.17.2 and 2.17.3 of DWARF 4), said of its attributes and
    their values alone. */
module EntryExtents {
  import opened Wrappers
  import opened Bytes
  import opened Input
  import opened FormEncoding
  import opened FormValue
  import opened DebugInfo
  import opened DieTree
  import opened RangeTable
  import opened CompileUnit
  import opened AddressSearch

  /** The entry has the attribute once, with this value. */
  predicate Has(values: seq<Kept>, name: nat, v: Kept) {
    v in values && v.name == name && forall w | w in values && w.name == name :: w == v
  }

  predicate Lacks(values: seq<Kept>, name: nat) {
    forall w | w in values :: w.name != name
  }

  lemma FoundIt(die: Entry, name: nat, v: Kept)
    requires Has(die.values, name, v)
    ensures FormBy(die, name) == Some(v)
  {
    hide FormBy, FindKept;
  }

  lemma NotFound(die: Entry, name: nat)
    requires Lacks(die.values, name)
    ensures FormBy(die, name) == None
  {
    hide FormBy, FindKept;
  }

  predicate IsConstant(form: Form) {
    form in {Data1, Data2, Data4, Data8, Sdata, Udata}
  }

  /** The greatest 64-bit number stands for an address that is not there. */
  const NOWHERE: nat := 0xFFFF_FFFF_FFFF_FFFF

  /** Before version 4, and in version 4 for an address, the high pc is where the entry ends. */
  lemma {:induction false} HighIsAddress(
      die: Entry, low: Kept, lo: nat, high: Kept, hi: nat, address: nat, base: nat, version: nat, r: RangeSection)
    requires r.Usable() && Has(die.values, 0x11, low) && Has(die.values, 0x12, high)
    requires low.value == Unsigned(lo) && high.value == Unsigned(hi) && lo != NOWHERE && hi != NOWHERE
    requires version < 4 || high.form == Addr
    ensures InRange(die, address, base, version, r) <==> lo <= address < hi
  {
    FoundIt(die, AT_LOW_PC, low);
    FoundIt(die, AT_HIGH_PC, high);
  }

  /** In version 4 a constant is the size of the entry, as long as the sum is a number for an address. */
  lemma {:induction false} HighIsSize(
      die: Entry, low: Kept, lo: nat, high: Kept, size: nat, address: nat, base: nat, version: nat, r: RangeSection)
    requires r.Usable() && Has(die.values, 0x11, low) && Has(die.values, 0x12, high)
    requires low.value == Unsigned(lo) && high.value == Unsigned(size) && lo + size < NOWHERE
    requires version >= 4 && IsConstant(high.form)
    ensures InRange(die, address, base, version, r) <==> lo <= address < lo + size
  {
    FoundIt(die, AT_LOW_PC, low);
    FoundIt(die, AT_HIGH_PC, high);
  }

  /** An entry with nothing of the two and of the list holds no address. */
  lemma {:induction false} NoExtent(die: Entry, address: nat, base: nat, version: nat, r: RangeSection)
    requires r.Usable() && Lacks(die.values, 0x12) && Lacks(die.values, 0x55)
    ensures !InRange(die, address, base, version, r)
  {
    NotFound(die, AT_HIGH_PC);
    NotFound(die, AT_RANGES);
  }

  /** The high pc has a form that is neither for addresses nor for constants. */
  predicate NeitherClass(values: seq<Kept>) {
    exists h | h in values :: Has(values, 0x12, h) && h.form != Addr && !IsConstant(h.form)
  }

  /** Without a high pc, or without a low one, or with a high pc of version 4 that is neither address nor
      constant, the list that stands in the section for ranges counts, each range moved by the base
      address of the unit. */
  lemma {:induction false} ListCounts(
      die: Entry, list: Kept, pre: seq<Byte>, ranges: seq<Range>, rest: seq<Byte>, width: nat, bigEndian: bool,
      address: nat, base: nat, version: nat)
    requires width > 0 && Has(die.values, 0x55, list) && list.value == Unsigned(|pre|)
    requires Lacks(die.values, 0x11) || Lacks(die.values, 0x12) || (version >= 4 && NeitherClass(die.values))
    requires forall i | 0 <= i < |ranges| ::
      (ranges[i].start, ranges[i].end) != (0, 0) && ranges[i].start < Pow256(width) && ranges[i].end < Pow256(width)
    ensures
      var r := RangeSection(pre + EncodeRanges(ranges, width, bigEndian) + rest, bigEndian, width);
      InRange(die, address, base, version, r) <==>
        exists i | 0 <= i < |ranges| ::
          (base + ranges[i].start) % 0x1_0000_0000_0000_0000 <= address
          < (base + ranges[i].end) % 0x1_0000_0000_0000_0000
  {
    hide RangesAt, EncodeRanges, Pow256, FormBy;
    RangesRoundTrip(pre, ranges, width, bigEndian, rest);
    FoundIt(die, AT_RANGES, list);
    if Lacks(die.values, 0x11) {
      NotFound(die, AT_LOW_PC);
    } else if Lacks(die.values, 0x12) {
      NotFound(die, AT_HIGH_PC);
    } else {
      var h :| h in die.values && Has(die.values, 0x12, h) && h.form != Addr && !IsConstant(h.form);
      FoundIt(die, AT_HIGH_PC, h);
    }
    forall i | 0 <= i < |ranges| ensures ranges[i].Contains(base, address) <==>
      (base + ranges[i].start) % 0x1_0000_0000_0000_0000 <= address
      < (base + ranges[i].end) % 0x1_0000_0000_0000_0000
    {
    }
  }

  /** The base address of a unit is the low pc of its entry, or else the entry pc, or else none. */
  lemma {:induction false} BaseExact(die: Entry, base: nat, v: Kept, at: nat)
    requires v.value == Unsigned(at)
    ensures die.tag != 0x11 ==> BaseAfter(base, die) == base
    ensures die.tag == 0x11 && Has(die.values, 0x11, v) && at != NOWHERE ==> BaseAfter(base, die) == at
    ensures die.tag == 0x11 && Lacks(die.values, 0x11) && Has(die.values, 0x52, v) ==> BaseAfter(base, die) == at
    ensures die.tag == 0x11 && Lacks(die.values, 0x11) && Lacks(die.values, 0x52) ==> BaseAfter(base, die) == NOWHERE
  {
    hide FormBy;
    if Has(die.values, 0x11, v) {
      FoundIt(die, AT_LOW_PC, v);
    }
    if Has(die.values, 0x52, v) {
      FoundIt(die, AT_ENTRY_PC, v);
    }
    if Lacks(die.values, 0x11) {
      NotFound(die, AT_LOW_PC);
    }
    if Lacks(die.values, 0x52) {
      NotFound(die, AT_ENTRY_PC);
    }
  }

  // ---- The same of an entry of a tree, so of what a search finds ----

  lemma {:induction false} KeptAt(values: seq<Datum>, attrs: seq<Attribute>, i: nat)
    requires |values| == |attrs| && i < |values|
    ensures |KeptValues(values, attrs)| == |values|
    ensures KeptValues(values, attrs)[i] == Kept(attrs[i].name, FinalForm(values[i]), ReadOf(values[i]))
    decreases |values|
  {
    hide ReadOf, FinalForm;
    if i > 0 {
      KeptAt(values[1..], attrs[1..], i - 1);
    } else {
      KeptLength(values[1..], attrs[1..]);
    }
  }

  lemma {:induction false} KeptLength(values: seq<Datum>, attrs: seq<Attribute>)
    requires |values| == |attrs|
    ensures |KeptValues(values, attrs)| == |values|
    decreases |values|
  {
    hide ReadOf, FinalForm;
    if values != [] {
      KeptLength(values[1..], attrs[1..]);
    }
  }

  /** The entry's `i`-th attribute is the only one of that name. */
  predicate Only(attrs: seq<Attribute>, i: nat, name: nat) {
    i < |attrs| && forall k | 0 <= k < |attrs| :: attrs[k].name == name <==> k == i
  }

  lemma {:induction false} OnlyHas(values: seq<Datum>, attrs: seq<Attribute>, i: nat, name: nat)
    requires |values| == |attrs| && Only(attrs, i, name)
    ensures Has(KeptValues(values, attrs), name, Kept(name, FinalForm(values[i]), ReadOf(values[i])))
  {
    hide KeptValues, ReadOf, FinalForm;
    var kept := KeptValues(values, attrs);
    KeptAt(values, attrs, i);
    forall w | w in kept && w.name == name ensures w == kept[i] {
      var k :| 0 <= k < |kept| && kept[k] == w;
      KeptAt(values, attrs, k);
    }
  }

  /** A subprogram or an inlined subroutine with a low and a high pc is found by the search exactly for
      the addresses from the one up to the other, or, for a constant in version 4, so many from the one. */
  lemma {:induction false} MatchesInterval(t: Tree, s: Section, q: Query, tag: nat, i: nat, lo: nat, j: nat,
      form: Form, hi: nat)
    requires DieTree.WellFormed(t, s) && q.ranges.Usable()
    requires Only(s.table[t.code].attributes, i, 0x11) && Only(s.table[t.code].attributes, j, 0x12)
    requires t.values[i] == Number(Addr, lo) && t.values[j] == Number(form, hi)
    requires form == Addr || form in {Data1, Data2, Data4, Data8}
    requires if q.version < 4 || form == Addr then lo < NOWHERE && hi < NOWHERE else lo + hi < NOWHERE
    ensures Matches(t, s, q, tag) <==>
      && s.table[t.code].tag == tag
      && lo <= q.address < if q.version < 4 || form == Addr then hi else lo + hi
  {
    hide KeptValues, InRange;
    var attrs, die := s.table[t.code].attributes, EntryOf(t, s, true);
    OnlyHas(t.values, attrs, i, 0x11);
    OnlyHas(t.values, attrs, j, 0x12);
    var low, high := Kept(0x11, Addr, Unsigned(lo)), Kept(0x12, form, Unsigned(hi));
    if q.version < 4 || form == Addr {
      HighIsAddress(die, low, lo, high, hi, q.address, q.base, q.version, q.ranges);
    } else {
      HighIsSize(die, low, lo, high, hi, q.address, q.base, q.version, q.ranges);
    }
  }
}
