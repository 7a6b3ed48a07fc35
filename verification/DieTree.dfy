/** Trees of debugging information entries (section 2.3 of DWARF 4): their bytes, in prefix
    order with a null entry after the children, and what the parser makes of them. */
module DieTree {
  import opened Bytes
  import opened Input
  import opened Leb128
  import opened FormValue
  import opened FormEncoding
  import opened DebugInfo

  datatype Tree = Die(code: nat, values: seq<Datum>, children: seq<Tree>)

  predicate ValuesFit(values: seq<Datum>, attrs: seq<Attribute>, env: Env) {
    |values| == |attrs| && forall i | 0 <= i < |values| :: values[i].form == attrs[i].form && Fits(values[i], env)
  }

  predicate WellFormed(t: Tree, s: Section) {
    && 0 < t.code < WORD32 && t.code in s.table
    && ValuesFit(t.values, s.table[t.code].attributes, s.env)
    && (t.children != [] ==> s.table[t.code].hasChildren)
    && forall i | 0 <= i < |t.children| :: WellFormed(t.children[i], s)
  }

  predicate AllWellFormed(ts: seq<Tree>, s: Section) {
    forall i | 0 <= i < |ts| :: WellFormed(ts[i], s)
  }

  function ValueBytes(values: seq<Datum>, env: Env, bigEndian: bool): seq<Byte>
    requires forall i | 0 <= i < |values| :: Fits(values[i], env)
  {
    if values == [] then [] else Encode(values[0], env, bigEndian) + ValueBytes(values[1..], env, bigEndian)
  }

  function HeadBytes(t: Tree, s: Section): (bs: seq<Byte>)
    requires WellFormed(t, s)
    ensures |bs| > 0
  {
    EncodeUleb(t.code) + ValueBytes(t.values, s.env, s.bigEndian)
  }

  function TreeBytes(t: Tree, s: Section): (bs: seq<Byte>)
    requires WellFormed(t, s)
    ensures |bs| > 0
  {
    HeadBytes(t, s) + if s.table[t.code].hasChildren then ForestBytes(t.children, s) + [0] else []
  }

  function ForestBytes(ts: seq<Tree>, s: Section): seq<Byte>
    requires AllWellFormed(ts, s)
  {
    if ts == [] then [] else TreeBytes(ts[0], s) + ForestBytes(ts[1..], s)
  }

  /** The values that full parsing keeps, each as it is read. */
  function KeptValues(values: seq<Datum>, attrs: seq<Attribute>): seq<Kept>
    requires |values| == |attrs|
  {
    if values == [] then []
    else [Kept(attrs[0].name, FinalForm(values[0]), ReadOf(values[0]))] + KeptValues(values[1..], attrs[1..])
  }

  function EntryOf(t: Tree, s: Section, full: bool): Entry
    requires WellFormed(t, s)
  {
    var decl := s.table[t.code];
    var values := if Keeps(full, decl.tag) then KeptValues(t.values, decl.attributes) else [];
    Entry(decl.tag, values, t.code, decl.hasChildren)
  }

  /** The entries in prefix order, each with its offset and its true depth. */
  function Preorder(t: Tree, s: Section, full: bool, offset: nat, depth: nat): seq<Node>
    requires WellFormed(t, s)
  {
    [Node(offset, EntryOf(t, s, full), depth)]
    + PreorderAll(t.children, s, full, offset + |HeadBytes(t, s)|, depth + 1)
  }

  function PreorderAll(ts: seq<Tree>, s: Section, full: bool, offset: nat, depth: nat): seq<Node>
    requires AllWellFormed(ts, s)
  {
    if ts == [] then []
    else
      var first := Preorder(ts[0], s, full, offset, depth);
      first + PreorderAll(ts[1..], s, full, offset + |TreeBytes(ts[0], s)|, depth)
  }

  lemma PreorderUnfold(t: Tree, s: Section, full: bool, offset: nat, depth: nat)
    requires WellFormed(t, s)
    ensures AllWellFormed(t.children, s)
    ensures
      Preorder(t, s, full, offset, depth) ==
      [Node(offset, EntryOf(t, s, full), depth)]
      + PreorderAll(t.children, s, full, offset + |HeadBytes(t, s)|, depth + 1)
  {
    hide HeadBytes, EntryOf, PreorderAll;
  }

  lemma PreorderAllUnfold(ts: seq<Tree>, s: Section, full: bool, offset: nat, depth: nat)
    requires AllWellFormed(ts, s) && ts != []
    ensures WellFormed(ts[0], s) && AllWellFormed(ts[1..], s)
    ensures
      PreorderAll(ts, s, full, offset, depth) ==
      Preorder(ts[0], s, full, offset, depth)
      + PreorderAll(ts[1..], s, full, offset + |TreeBytes(ts[0], s)|, depth)
  {
    hide TreeBytes, WellFormed, Preorder;
  }

  /** `bs` stands at `pos` in the section. */
  predicate At(s: Section, pos: nat, bs: seq<Byte>) {
    pos + |bs| <= |s.data| && s.data[pos..pos + |bs|] == bs
  }

  lemma AtBounds(s: Section, pos: nat, bs: seq<Byte>)
    requires At(s, pos, bs)
    ensures pos + |bs| <= |s.data|
  {
  }

  lemma {:induction false} AtSplit(s: Section, pos: nat, a: seq<Byte>, b: seq<Byte>)
    requires At(s, pos, a + b)
    ensures At(s, pos, a) && At(s, pos + |a|, b)
  {
    assert s.data[pos..pos + |a|] == s.data[pos..pos + |a + b|][..|a|] == a;
    assert s.data[pos + |a|..pos + |a| + |b|] == s.data[pos..pos + |a + b|][|a|..] == b;
  }

  lemma Around(s: Section, pos: nat, bs: seq<Byte>)
    requires At(s, pos, bs)
    ensures s.data == s.data[..pos] + bs + s.data[pos + |bs|..]
  {
  }

  /** The first value of an entry, and the others. */
  lemma ValuesUnfold(s: Section, values: seq<Datum>, attrs: seq<Attribute>, pos: nat)
    requires ValuesFit(values, attrs, s.env) && At(s, pos, ValueBytes(values, s.env, s.bigEndian))
    ensures pos <= |s.data| && |values| == |attrs| && forall i | 0 <= i < |values| :: Fits(values[i], s.env)
    ensures values == [] ==>
      && ValueBytes(values, s.env, s.bigEndian) == [] && LengthsComplete(s, attrs, pos)
      && AllValues(s, attrs, pos) == (true, KeptValues(values, attrs), pos)
    ensures values != [] ==>
      && values[0].form == attrs[0].form && Fits(values[0], s.env) && ValuesFit(values[1..], attrs[1..], s.env)
      && ValueBytes(values, s.env, s.bigEndian) ==
         Encode(values[0], s.env, s.bigEndian) + ValueBytes(values[1..], s.env, s.bigEndian)
      && KeptValues(values, attrs) ==
         [Kept(attrs[0].name, FinalForm(values[0]), ReadOf(values[0]))] + KeptValues(values[1..], attrs[1..])
    ensures values != [] ==>
      var d := Decode(attrs[0].form, s.env, s.bigEndian, s.data, pos);
      var v := Kept(attrs[0].name, d.form, d.value);
      && (LengthsComplete(s, attrs, pos) <==>
          LengthComplete(attrs[0].form, s.env, s.data, pos) && (d.ok ==> LengthsComplete(s, attrs[1..], d.end)))
      && var (ok, vs, end) := AllValues(s, attrs[1..], d.end);
         (d.ok ==> AllValues(s, attrs, pos) == (ok, [v] + vs, end))
  {
    hide Encode, Decode, LengthComplete, FinalForm, ReadOf, Fits;
  }

  lemma {:induction false} ValuesReadBack(s: Section, values: seq<Datum>, attrs: seq<Attribute>, pos: nat)
    requires ValuesFit(values, attrs, s.env) && At(s, pos, ValueBytes(values, s.env, s.bigEndian))
    ensures
      var end := pos + |ValueBytes(values, s.env, s.bigEndian)|;
      AllValues(s, attrs, pos) == (true, KeptValues(values, attrs), end) && LengthsComplete(s, attrs, pos)
    decreases |values|
  {
    hide Encode, Decode, LengthComplete, FinalForm, ReadOf, ValueBytes, AllValues, LengthsComplete, KeptValues;
    hide ValuesFit, At, Fits;
    ValuesUnfold(s, values, attrs, pos);
    if values != [] {
      var bs := Encode(values[0], s.env, s.bigEndian);
      AtSplit(s, pos, bs, ValueBytes(values[1..], s.env, s.bigEndian));
      Around(s, pos, bs);
      ValueRoundTrip(s.data[..pos], values[0], s.env, s.bigEndian, s.data[pos + |bs|..]);
      ValuesReadBack(s, values[1..], attrs[1..], pos + |bs|);
    }
  }

  /** One entry is read back, by either reader. */
  lemma {:induction false} HeadReadBack(s: Section, t: Tree, full: bool, pos: nat)
    requires WellFormed(t, s) && At(s, pos, HeadBytes(t, s))
    ensures ReadEntry(s, full, NEW_ENTRY, pos) == (true, EntryOf(t, s, full), pos + |HeadBytes(t, s)|)
    ensures EntryComplete(s, pos) && EntryOf(t, s, full).hasChild == s.table[t.code].hasChildren
  {
    hide Decode, EncodeUleb, Uleb, AllValues, NoValues, ValueBytes, LengthsComplete, KeptValues;
    var decl := s.table[t.code];
    var code := EncodeUleb(t.code);
    AtSplit(s, pos, code, ValueBytes(t.values, s.env, s.bigEndian));
    Around(s, pos, code);
    UlebRoundTrip(s.data[..pos], t.code, s.data[pos + |code|..]);
    ValuesReadBack(s, t.values, decl.attributes, pos + |code|);
    SkipValuesAgree(s, decl.attributes, pos + |code|);
  }

  lemma {:induction false} NullReadBack(s: Section, full: bool, pos: nat)
    requires At(s, pos, [0])
    ensures var r := ReadEntry(s, full, NEW_ENTRY, pos); !r.0 && r.2 == pos + 1
    ensures EntryComplete(s, pos)
  {
    hide Uleb;
    Around(s, pos, [0]);
    UlebRoundTrip(s.data[..pos], 0, s.data[pos + 1..]);
  }

  /** No entry of the unit has a block whose length is cut short. */
  ghost predicate Complete(s: Section, full: bool, pos: nat, end: nat)
    requires end <= |s.data| && pos <= |s.data|
    decreases |s.data| - pos
  {
    pos >= end ||
    (EntryComplete(s, pos) &&
     var next := ReadEntry(s, full, NEW_ENTRY, pos).2;
     (next > pos ==> Complete(s, full, next, end)))
  }

  lemma {:induction false} RowsStep(s: Section, full: bool, pos: nat, end: nat, depth: nat)
    requires pos < end <= |s.data|
    ensures
      var (ok, die, next) := ReadEntry(s, full, NEW_ENTRY, pos);
      && Rows(s, full, pos, end, depth) ==
         (if ok then [Node(pos, die, depth)]
           + Rows(s, full, next, end, if die.hasChild then (depth + 1) % WORD32 else depth)
          else Rows(s, full, next, end, (depth + WORD32 - 1) % WORD32))
      && (EntryComplete(s, pos) && Complete(s, full, next, end) ==> Complete(s, full, pos, end))
  {
    hide ReadEntry, EntryComplete;
    EntryForward(s, full, NEW_ENTRY, pos);
  }

  /** The bytes of a tree: its entry, and, where there may be children, these and a null entry. */
  lemma TreeBytesUnfold(t: Tree, s: Section)
    requires WellFormed(t, s)
    ensures t.code in s.table && AllWellFormed(t.children, s)
    ensures
      if s.table[t.code].hasChildren then
        && TreeBytes(t, s) == HeadBytes(t, s) + (ForestBytes(t.children, s) + [0])
        && |TreeBytes(t, s)| == |HeadBytes(t, s)| + |ForestBytes(t.children, s)| + 1
      else t.children == [] && TreeBytes(t, s) == HeadBytes(t, s) + []
    ensures |HeadBytes(t, s)| > 0
  {
    hide HeadBytes, ForestBytes;
  }

  lemma ForestBytesUnfold(ts: seq<Tree>, s: Section)
    requires AllWellFormed(ts, s) && ts != []
    ensures WellFormed(ts[0], s) && AllWellFormed(ts[1..], s)
    ensures ForestBytes(ts, s) == TreeBytes(ts[0], s) + ForestBytes(ts[1..], s)
    ensures |ForestBytes(ts, s)| == |TreeBytes(ts[0], s)| + |ForestBytes(ts[1..], s)|
  {
    hide TreeBytes, WellFormed;
  }

  lemma NoForest(s: Section, full: bool, pos: nat, depth: nat)
    ensures AllWellFormed([], s) && ForestBytes([], s) == [] && PreorderAll([], s, full, pos, depth) == []
  {
  }

  /** One level down, and up again. */
  lemma DeeperAndBack(depth: nat)
    requires depth + 1 < WORD32
    ensures (depth + 1) % WORD32 == depth + 1 && (depth + 1 + WORD32 - 1) % WORD32 == depth
  {
  }

  lemma Concat3(a: seq<Node>, b: seq<Node>, c: seq<Node>)
    ensures a + (b + c) == a + b + c && b + [] == b && [] + c == c
  {
  }

  /** The row of an entry, then whatever comes behind it one level down or beside it. */
  lemma {:induction false} HeadRow(s: Section, t: Tree, full: bool, pos: nat, end: nat, depth: nat)
    requires WellFormed(t, s) && At(s, pos, HeadBytes(t, s)) && pos + |HeadBytes(t, s)| <= end <= |s.data|
    requires t.code in s.table && depth + 1 < WORD32
    ensures
      var next, below := pos + |HeadBytes(t, s)|, if s.table[t.code].hasChildren then depth + 1 else depth;
      && Rows(s, full, pos, end, depth) == [Node(pos, EntryOf(t, s, full), depth)] + Rows(s, full, next, end, below)
      && (Complete(s, full, next, end) ==> Complete(s, full, pos, end))
  {
    hide *;
    TreeBytesUnfold(t, s);
    HeadReadBack(s, t, full, pos);
    RowsStep(s, full, pos, end, depth);
    DeeperAndBack(depth);
  }

  /** A null entry leaves no row and closes a level. */
  lemma {:induction false} NullRow(s: Section, full: bool, pos: nat, end: nat, depth: nat)
    requires At(s, pos, [0]) && pos < end <= |s.data| && depth + 1 < WORD32
    ensures Rows(s, full, pos, end, depth + 1) == Rows(s, full, pos + 1, end, depth)
    ensures Complete(s, full, pos + 1, end) ==> Complete(s, full, pos, end)
  {
    hide *;
    NullReadBack(s, full, pos);
    RowsStep(s, full, pos, end, depth + 1);
    DeeperAndBack(depth);
  }

  lemma {:induction false} TreeRows(s: Section, t: Tree, full: bool, pos: nat, end: nat, depth: nat)
    requires WellFormed(t, s) && At(s, pos, TreeBytes(t, s)) && pos + |TreeBytes(t, s)| <= end <= |s.data|
    requires depth + |TreeBytes(t, s)| < WORD32
    ensures
      var next := pos + |TreeBytes(t, s)|;
      && Rows(s, full, pos, end, depth) == Preorder(t, s, full, pos, depth) + Rows(s, full, next, end, depth)
      && (Complete(s, full, next, end) ==> Complete(s, full, pos, end))
    decreases t, 1
  {
    hide *;
    TreeBytesUnfold(t, s);
    PreorderUnfold(t, s, full, pos, depth);
    var head, body := HeadBytes(t, s), pos + |HeadBytes(t, s)|;
    var row := [Node(pos, EntryOf(t, s, full), depth)];
    var below := PreorderAll(t.children, s, full, body, depth + 1);
    if s.table[t.code].hasChildren {
      var inside := ForestBytes(t.children, s);
      AtSplit(s, pos, head, inside + [0]);
      AtSplit(s, body, inside, [0]);
      HeadRow(s, t, full, pos, end, depth);
      ForestRows(s, t.children, full, body, end, depth + 1);
      NullRow(s, full, body + |inside|, end, depth);
      Concat3(row, below, Rows(s, full, body + |inside| + 1, end, depth));
    } else {
      AtSplit(s, pos, head, []);
      HeadRow(s, t, full, pos, end, depth);
      NoForest(s, full, body, depth + 1);
      Concat3([], row, []);
    }
  }

  lemma {:induction false} ForestRows(s: Section, ts: seq<Tree>, full: bool, pos: nat, end: nat, depth: nat)
    requires AllWellFormed(ts, s) && At(s, pos, ForestBytes(ts, s)) && pos + |ForestBytes(ts, s)| <= end <= |s.data|
    requires depth + |ForestBytes(ts, s)| < WORD32
    ensures
      var next := pos + |ForestBytes(ts, s)|;
      && Rows(s, full, pos, end, depth) == PreorderAll(ts, s, full, pos, depth) + Rows(s, full, next, end, depth)
      && (Complete(s, full, next, end) ==> Complete(s, full, pos, end))
    decreases ts, 0
  {
    hide *;
    if ts == [] {
      NoForest(s, full, pos, depth);
      Concat3([], [], Rows(s, full, pos, end, depth));
    } else {
      ForestBytesUnfold(ts, s);
      PreorderAllUnfold(ts, s, full, pos, depth);
      var first := TreeBytes(ts[0], s);
      AtSplit(s, pos, first, ForestBytes(ts[1..], s));
      TreeRows(s, ts[0], full, pos, end, depth);
      ForestRows(s, ts[1..], full, pos + |first|, end, depth);
      Concat3(Preorder(ts[0], s, full, pos, depth), PreorderAll(ts[1..], s, full, pos + |first|, depth),
              Rows(s, full, pos + |ForestBytes(ts, s)|, end, depth));
    }
  }

  lemma RowsEnd(s: Section, full: bool, end: nat)
    requires end <= |s.data|
    ensures Rows(s, full, end, end, 0) == [] && Complete(s, full, end, end)
  {
  }

  /** A unit made of one tree is read as its entries in prefix order, at their true depths. */
  lemma {:induction false} UnitReadBack(s: Section, t: Tree, full: bool, pos: nat)
    requires WellFormed(t, s) && At(s, pos, TreeBytes(t, s)) && |TreeBytes(t, s)| < WORD32
    ensures
      var end := pos + |TreeBytes(t, s)|;
      Rows(s, full, pos, end, 0) == Preorder(t, s, full, pos, 0) && Complete(s, full, pos, end)
  {
    hide *;
    var end := pos + |TreeBytes(t, s)|;
    AtBounds(s, pos, TreeBytes(t, s));
    RowsEnd(s, full, end);
    TreeRows(s, t, full, pos, end, 0);
    var rows := Preorder(t, s, full, pos, 0);
    assert rows + [] == rows;
  }
}
