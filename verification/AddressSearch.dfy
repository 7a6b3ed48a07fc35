/** The search for an address, on the tree: what the scan over the rows of a unit finds. */
module AddressSearch {
  import opened Wrappers
  import opened Bytes
  import opened Input
  import opened FormEncoding
  import opened FormValue
  import opened DebugInfo
  import opened DieTree
  import opened DieQueries
  import opened CompileUnit
  import opened UnitAnswers

  /** The tags (section 7.5.4 of DWARF 4, figure 18). */
  const SUBPROGRAM: nat := 0x2e
  const INLINED_SUBROUTINE: nat := 0x1d

  lemma Tags()
    ensures TAG_SUBPROGRAM == SUBPROGRAM && TAG_INLINED_SUBROUTINE == INLINED_SUBROUTINE
  {
  }

  // ---- What is looked for, on a tree whose rows are numbered in prefix order ----

  /** The entry, all its values parsed, has the tag and holds the address. */
  predicate Matches(t: Tree, s: Section, q: Query, tag: nat)
    requires WellFormed(t, s) && q.ranges.Usable()
  {
    EntryOf(t, s, true).tag == tag && InRange(EntryOf(t, s, true), q.address, q.base, q.version, q.ranges)
  }

  /** The rows of the inlined subroutines of a forest that hold the address, in prefix order; the
      forest starts at row `base`. */
  function InlinedIn(ts: seq<Tree>, s: Section, q: Query, base: nat): seq<nat>
    requires AllWellFormed(ts, s) && q.ranges.Usable()
  {
    if ts == [] then []
    else
      (if Matches(ts[0], s, q, INLINED_SUBROUTINE) then [base] else [])
      + InlinedIn(ts[0].children, s, q, base + 1) + InlinedIn(ts[1..], s, q, base + Count(ts[0]))
  }

  /** In prefix order: every subprogram that holds the address, followed by the inlined subroutines
      of its whole subtree that hold it. */
  function SubprogramsIn(ts: seq<Tree>, s: Section, q: Query, base: nat): seq<nat>
    requires AllWellFormed(ts, s) && q.ranges.Usable()
  {
    if ts == [] then []
    else
      (if Matches(ts[0], s, q, SUBPROGRAM) then [base] + InlinedIn(ts[0].children, s, q, base + 1) else [])
      + SubprogramsIn(ts[0].children, s, q, base + 1) + SubprogramsIn(ts[1..], s, q, base + Count(ts[0]))
  }

  /** Of a unit.  Its root has no subtree for the code, so that a root that is a subprogram comes alone. */
  function FoundIn(t: Tree, s: Section, q: Query): seq<nat>
    requires WellFormed(t, s) && q.ranges.Usable()
  {
    (if Matches(t, s, q, SUBPROGRAM) then [0] else []) + SubprogramsIn(t.children, s, q, 1)
  }

  // ---- The rows of a tree ----

  /** The rows from `base` on are those of the forest. */
  predicate RowsMatch(s: Section, rows: seq<Node>, base: nat, ts: seq<Tree>)
    requires RowsValid(s, rows) && AllWellFormed(ts, s)
    decreases ts
  {
    ts != [] ==>
      && base < |rows| && FullAt(s, rows[base].offset) == EntryOf(ts[0], s, true)
      && RowsMatch(s, rows, base + 1, ts[0].children)
      && RowsMatch(s, rows, base + Count(ts[0]), ts[1..])
  }

  predicate EntriesAt(s: Section, rows: seq<Node>, base: nat, eager: seq<Node>)
    requires RowsValid(s, rows)
  {
    && base + |eager| <= |rows|
    && forall k | base <= k < base + |eager| :: FullAt(s, rows[k].offset) == eager[k - base].die
  }

  lemma EntriesSplit(s: Section, rows: seq<Node>, base: nat, a: seq<Node>, b: seq<Node>)
    requires RowsValid(s, rows) && EntriesAt(s, rows, base, a + b)
    ensures EntriesAt(s, rows, base, a) && EntriesAt(s, rows, base + |a|, b)
  {
    hide FullAt;
    var all := a + b;
    forall k | base <= k < base + |a| ensures FullAt(s, rows[k].offset) == a[k - base].die {
      assert all[k - base] == a[k - base];
    }
    forall k | base + |a| <= k < base + |a| + |b| ensures FullAt(s, rows[k].offset) == b[k - (base + |a|)].die {
      assert all[k - base] == b[k - (base + |a|)];
    }
  }

  lemma {:induction false} PreorderSize(t: Tree, s: Section, offset: nat, depth: nat)
    requires WellFormed(t, s)
    ensures |Preorder(t, s, true, offset, depth)| == Count(t)
    decreases t, 1
  {
    hide EntryOf, HeadBytes;
    PreorderAllSize(t.children, s, offset + |HeadBytes(t, s)|, depth + 1);
  }

  lemma {:induction false} PreorderAllSize(ts: seq<Tree>, s: Section, offset: nat, depth: nat)
    requires AllWellFormed(ts, s)
    ensures |PreorderAll(ts, s, true, offset, depth)| == CountAll(ts)
    decreases ts, 0
  {
    hide EntryOf, HeadBytes, Preorder, TreeBytes, WellFormed;
    if ts != [] {
      PreorderSize(ts[0], s, offset, depth);
      PreorderAllSize(ts[1..], s, offset + |TreeBytes(ts[0], s)|, depth);
    }
  }

  lemma ForestUnfold(ts: seq<Tree>, s: Section, offset: nat, depth: nat)
    requires AllWellFormed(ts, s) && ts != []
    ensures WellFormed(ts[0], s) && AllWellFormed(ts[0].children, s) && AllWellFormed(ts[1..], s)
    ensures PreorderAll(ts, s, true, offset, depth) ==
      [Node(offset, EntryOf(ts[0], s, true), depth)]
      + (PreorderAll(ts[0].children, s, true, offset + |HeadBytes(ts[0], s)|, depth + 1)
         + PreorderAll(ts[1..], s, true, offset + |TreeBytes(ts[0], s)|, depth))
  {
    hide EntryOf, HeadBytes, TreeBytes;
    var head := [Node(offset, EntryOf(ts[0], s, true), depth)];
    var a := PreorderAll(ts[0].children, s, true, offset + |HeadBytes(ts[0], s)|, depth + 1);
    var b := PreorderAll(ts[1..], s, true, offset + |TreeBytes(ts[0], s)|, depth);
    assert head + a + b == head + (a + b);
  }

  lemma {:induction false} PreorderMatches(s: Section, rows: seq<Node>, base: nat, ts: seq<Tree>, offset: nat,
      depth: nat)
    requires RowsValid(s, rows) && AllWellFormed(ts, s)
    requires EntriesAt(s, rows, base, PreorderAll(ts, s, true, offset, depth))
    ensures RowsMatch(s, rows, base, ts)
    decreases ts
  {
    hide FullAt, RowValid, EntryOf, HeadBytes, TreeBytes, PreorderAll, EntriesAt, Count, CountAll, WellFormed;
    if ts != [] {
      ForestUnfold(ts, s, offset, depth);
      CountUnfold(ts);
      var head := [Node(offset, EntryOf(ts[0], s, true), depth)];
      var below, beside := offset + |HeadBytes(ts[0], s)|, offset + |TreeBytes(ts[0], s)|;
      var a, b := PreorderAll(ts[0].children, s, true, below, depth + 1), PreorderAll(ts[1..], s, true, beside, depth);
      PreorderAllSize(ts[0].children, s, below, depth + 1);
      EntriesSplit(s, rows, base, head, a + b);
      EntriesSplit(s, rows, base + 1, a, b);
      HeadEntry(s, rows, base, head[0]);
      PreorderMatches(s, rows, base + 1, ts[0].children, below, depth + 1);
      PreorderMatches(s, rows, base + Count(ts[0]), ts[1..], beside, depth);
    }
  }

  lemma HeadEntry(s: Section, rows: seq<Node>, base: nat, row: Node)
    requires RowsValid(s, rows) && EntriesAt(s, rows, base, [row])
    ensures base < |rows| && FullAt(s, rows[base].offset) == row.die
  {
    hide FullAt;
  }

  lemma CountUnfold(ts: seq<Tree>)
    requires ts != []
    ensures CountAll(ts) == Count(ts[0]) + CountAll(ts[1..]) && Count(ts[0]) == 1 + CountAll(ts[0].children)
  {
  }

  // ---- The scan over the rows ----

  /** What the rows from `i` up to `j` contribute to the search. */
  function DiesFrom(s: Section, rows: seq<Node>, q: Query, i: nat, j: nat): seq<nat>
    requires q.ranges.Usable() && RowsValid(s, rows) && i <= j <= |rows|
    decreases j - i
  {
    if i == j then [] else DiesAt(s, rows, q, i) + DiesFrom(s, rows, q, i + 1, j)
  }

  lemma {:induction false} DiesFromSplit(s: Section, rows: seq<Node>, q: Query, i: nat, j: nat, k: nat)
    requires q.ranges.Usable() && RowsValid(s, rows) && i <= j <= k <= |rows|
    ensures DiesFrom(s, rows, q, i, k) == DiesFrom(s, rows, q, i, j) + DiesFrom(s, rows, q, j, k)
    decreases j - i
  {
    hide DiesAt, RowValid;
    if i < j {
      DiesFromSplit(s, rows, q, i + 1, j, k);
    }
  }

  lemma {:induction false} DiesByIsDiesFrom(s: Section, rows: seq<Node>, q: Query, i: nat)
    requires q.ranges.Usable() && RowsValid(s, rows) && i <= |rows|
    ensures DiesBy(s, rows, q, i) == DiesFrom(s, rows, q, i, |rows|)
    decreases |rows| - i
  {
    hide DiesAt, RowValid;
    if i < |rows| {
      DiesByIsDiesFrom(s, rows, q, i + 1);
    }
  }

  lemma {:induction false} InlinedByAppend(s: Section, rows: seq<Node>, q: Query, a: seq<nat>, b: seq<nat>)
    requires q.ranges.Usable() && RowsValid(s, rows) && Below(a, |rows|) && Below(b, |rows|)
    ensures Below(a + b, |rows|) && InlinedBy(s, rows, q, a + b) == InlinedBy(s, rows, q, a) + InlinedBy(s, rows, q, b)
    decreases |a|
  {
    hide Holds, RowValid;
    if a == [] {
      assert a + b == b;
    } else {
      assert (a + b)[1..] == a[1..] + b;
      InlinedByAppend(s, rows, q, a[1..], b);
    }
  }

  lemma {:induction false} IntervalSplit(i: nat, j: nat, k: nat)
    requires i <= j <= k
    ensures Interval(i, k) == Interval(i, j) + Interval(j, k)
  {
    hide Interval;
    assert |Interval(i, k)| == |Interval(i, j) + Interval(j, k)|;
  }

  /** A row has the tag and holds the address exactly when its entry, parsed in full, does. */
  lemma RowMatches(s: Section, rows: seq<Node>, base: nat, t: Tree, q: Query, tag: nat)
    requires RowsValid(s, rows) && q.ranges.Usable() && base < |rows| && WellFormed(t, s)
    requires FullAt(s, rows[base].offset) == EntryOf(t, s, true)
    ensures rows[base].offset <= |s.data|
    ensures rows[base].die.tag == tag && Holds(s, rows[base], q) <==> Matches(t, s, q, tag)
  {
    hide EntryOf, FullAt, InRange, ReadEntry;
    assert RowValid(s, rows[base]);
  }

  lemma InlinedOne(s: Section, rows: seq<Node>, q: Query, i: nat)
    requires q.ranges.Usable() && RowsValid(s, rows) && i < |rows|
    ensures rows[i].offset <= |s.data| && Below([i], |rows|)
    ensures InlinedBy(s, rows, q, [i]) ==
      if rows[i].die.tag == INLINED_SUBROUTINE && Holds(s, rows[i], q) then [i] else []
  {
    hide Holds, ReadEntry;
    assert RowValid(s, rows[i]);
    assert [i][1..] == [];
  }

  lemma IntervalBelow(i: nat, j: nat, n: nat)
    requires i <= j <= n
    ensures Below(Interval(i, j), n)
  {
    hide Interval;
  }

  lemma IntervalOne(i: nat)
    ensures Interval(i, i + 1) == [i]
  {
    hide Interval;
  }

  /** Over the rows of a forest the scan for inlined subroutines finds those of the forest. */
  lemma {:induction false} InlinedOfForest(s: Section, rows: seq<Node>, q: Query, ts: seq<Tree>, base: nat)
    requires RowsValid(s, rows) && AllWellFormed(ts, s) && q.ranges.Usable()
    requires RowsMatch(s, rows, base, ts) && base + CountAll(ts) <= |rows|
    ensures
      var all := Interval(base, base + CountAll(ts));
      Below(all, |rows|) && InlinedBy(s, rows, q, all) == InlinedIn(ts, s, q, base)
    decreases ts
  {
    hide *;
    var end := base + CountAll(ts);
    IntervalBelow(base, end, |rows|);
    if ts == [] {
      NoInlined(s, rows, q, base, ts);
    } else {
      CountUnfold(ts);
      RowsMatchParts(s, rows, base, ts);
      InlinedUnfold(ts, s, q, base);
      var below, next := base + 1, base + Count(ts[0]);
      InlinedOfForest(s, rows, q, ts[0].children, below);
      InlinedOfForest(s, rows, q, ts[1..], next);
      InlinedOne(s, rows, q, base);
      RowMatches(s, rows, base, ts[0], q, INLINED_SUBROUTINE);
      IntervalOne(base);
      IntervalSplit(base, below, end);
      IntervalSplit(below, next, end);
      InlinedByAppend(s, rows, q, Interval(below, next), Interval(next, end));
      InlinedByAppend(s, rows, q, [base], Interval(below, next) + Interval(next, end));
    }
  }

  lemma NoInlined(s: Section, rows: seq<Node>, q: Query, base: nat, ts: seq<Tree>)
    requires RowsValid(s, rows) && q.ranges.Usable() && ts == []
    ensures CountAll(ts) == 0 && Interval(base, base) == [] && Below([], |rows|) && InlinedBy(s, rows, q, []) == []
    ensures AllWellFormed(ts, s) && InlinedIn(ts, s, q, base) == []
  {
  }

  lemma InlinedUnfold(ts: seq<Tree>, s: Section, q: Query, base: nat)
    requires AllWellFormed(ts, s) && q.ranges.Usable() && ts != []
    requires WellFormed(ts[0], s) && AllWellFormed(ts[0].children, s) && AllWellFormed(ts[1..], s)
    ensures InlinedIn(ts, s, q, base) ==
      (if Matches(ts[0], s, q, INLINED_SUBROUTINE) then [base] else [])
      + (InlinedIn(ts[0].children, s, q, base + 1) + InlinedIn(ts[1..], s, q, base + Count(ts[0])))
  {
    hide Matches, Count, WellFormed;
    var own := if Matches(ts[0], s, q, INLINED_SUBROUTINE) then [base] else [];
    var a, b := InlinedIn(ts[0].children, s, q, base + 1), InlinedIn(ts[1..], s, q, base + Count(ts[0]));
    assert own + a + b == own + (a + b);
  }

  lemma WellFormedParts(ts: seq<Tree>, s: Section)
    requires AllWellFormed(ts, s) && ts != []
    ensures WellFormed(ts[0], s) && AllWellFormed(ts[0].children, s) && AllWellFormed(ts[1..], s)
  {
  }

  /** A forest stands at `base`, and behind it comes a lesser depth or nothing. */
  ghost predicate Stands(depths: seq<nat>, base: nat, ts: seq<Tree>, depth: nat) {
    && DieQueries.Block(depths, base, ts, depth)
    && (base + CountAll(ts) == |depths| || depths[base + CountAll(ts)] < depth)
  }

  /** So do the children of its first tree, and the trees behind it. */
  lemma StandsParts(depths: seq<nat>, base: nat, ts: seq<Tree>, depth: nat)
    requires Stands(depths, base, ts, depth) && ts != [] && depth > 0
    ensures
      var next, end := base + Count(ts[0]), base + CountAll(ts);
      && base + 1 + CountAll(ts[0].children) == next && next + CountAll(ts[1..]) == end <= |depths|
      && Stands(depths, base + 1, ts[0].children, depth + 1) && Stands(depths, next, ts[1..], depth)
      && AllChildrenOf(depths, base) == Interval(base + 1, next)
  {
    hide Count, CountAll, DepthsAll, AllChildrenOf, ChildrenOf, Interval;
    CountUnfold(ts);
    BlockParts(depths, base, ts, depth);
    if ts[1..] != [] {
      BlockParts(depths, base + Count(ts[0]), ts[1..], depth);
    } else {
      NoTrees(ts[1..]);
    }
    ScansAtRoot(depths, base, ts[0].children, depth);
  }

  /** What the row of an entry contributes: itself, and the inlined subroutines of its subtree. */
  lemma RowContributes(s: Section, rows: seq<Node>, q: Query, ts: seq<Tree>, base: nat, depth: nat)
    requires RowsValid(s, rows) && AllWellFormed(ts, s) && q.ranges.Usable() && ts != [] && depth > 0
    requires WellFormed(ts[0], s) && AllWellFormed(ts[0].children, s)
    requires base < |rows| && FullAt(s, rows[base].offset) == EntryOf(ts[0], s, true)
    requires RowsMatch(s, rows, base + 1, ts[0].children) && Stands(DepthList(rows), base, ts, depth)
    ensures DiesAt(s, rows, q, base) ==
      if Matches(ts[0], s, q, SUBPROGRAM) then [base] + InlinedIn(ts[0].children, s, q, base + 1) else []
  {
    hide *;
    StandsParts(DepthList(rows), base, ts, depth);
    InlinedOfForest(s, rows, q, ts[0].children, base + 1);
    RowMatches(s, rows, base, ts[0], q, SUBPROGRAM);
    DiesAtIs(s, rows, q, base);
    Tags();
  }

  lemma RowsMatchParts(s: Section, rows: seq<Node>, base: nat, ts: seq<Tree>)
    requires RowsValid(s, rows) && AllWellFormed(ts, s) && ts != [] && RowsMatch(s, rows, base, ts)
    ensures WellFormed(ts[0], s) && AllWellFormed(ts[0].children, s) && AllWellFormed(ts[1..], s)
    ensures base < |rows| && FullAt(s, rows[base].offset) == EntryOf(ts[0], s, true)
    ensures RowsMatch(s, rows, base + 1, ts[0].children) && RowsMatch(s, rows, base + Count(ts[0]), ts[1..])
  {
    hide RowValid, EntryOf, FullAt, Count;
  }

  lemma FoundUnfold(s: Section, rows: seq<Node>, q: Query, ts: seq<Tree>, base: nat, end: nat)
    requires RowsValid(s, rows) && AllWellFormed(ts, s) && q.ranges.Usable() && ts != [] && base < end <= |rows|
    requires WellFormed(ts[0], s) && AllWellFormed(ts[0].children, s) && AllWellFormed(ts[1..], s)
    ensures SubprogramsIn(ts, s, q, base) ==
      (if Matches(ts[0], s, q, SUBPROGRAM) then [base] + InlinedIn(ts[0].children, s, q, base + 1) else [])
      + (SubprogramsIn(ts[0].children, s, q, base + 1) + SubprogramsIn(ts[1..], s, q, base + Count(ts[0])))
    ensures DiesFrom(s, rows, q, base, end) == DiesAt(s, rows, q, base) + DiesFrom(s, rows, q, base + 1, end)
  {
    hide RowValid, DiesAt, Matches, InlinedIn, Count;
    var own := if Matches(ts[0], s, q, SUBPROGRAM) then [base] + InlinedIn(ts[0].children, s, q, base + 1) else [];
    var a, b := SubprogramsIn(ts[0].children, s, q, base + 1), SubprogramsIn(ts[1..], s, q, base + Count(ts[0]));
    assert own + a + b == own + (a + b);
  }

  lemma NothingFound(s: Section, rows: seq<Node>, q: Query, ts: seq<Tree>, base: nat)
    requires RowsValid(s, rows) && AllWellFormed(ts, s) && q.ranges.Usable() && ts == [] && base <= |rows|
    ensures CountAll(ts) == 0 && DiesFrom(s, rows, q, base, base) == [] && SubprogramsIn(ts, s, q, base) == []
  {
  }

  lemma StandsInside(depths: seq<nat>, base: nat, ts: seq<Tree>, depth: nat)
    requires Stands(depths, base, ts, depth)
    ensures base + CountAll(ts) <= |depths|
  {
  }

  /** Over the rows of a forest below the root the search finds what is to be found in the forest. */
  lemma {:induction false} SearchForest(s: Section, rows: seq<Node>, q: Query, ts: seq<Tree>, base: nat, depth: nat)
    requires RowsValid(s, rows) && AllWellFormed(ts, s) && q.ranges.Usable() && depth > 0
    requires RowsMatch(s, rows, base, ts) && Stands(DepthList(rows), base, ts, depth)
    ensures base + CountAll(ts) <= |rows|
    ensures DiesFrom(s, rows, q, base, base + CountAll(ts)) == SubprogramsIn(ts, s, q, base)
    decreases ts
  {
    hide *;
    var next, end := base, base + CountAll(ts);
    StandsInside(DepthList(rows), base, ts, depth);
    if ts == [] {
      NothingFound(s, rows, q, ts, base);
    } else {
      next := base + Count(ts[0]);
      StandsParts(DepthList(rows), base, ts, depth);
      RowsMatchParts(s, rows, base, ts);
      RowContributes(s, rows, q, ts, base, depth);
      SearchForest(s, rows, q, ts[0].children, base + 1, depth + 1);
      SearchForest(s, rows, q, ts[1..], next, depth);
      FoundUnfold(s, rows, q, ts, base, end);
      DiesFromSplit(s, rows, q, base + 1, next, end);
    }
  }

  /** On a unit, written as section 7.5 of DWARF 4 says and read with its values skipped, the search
      finds exactly what is to be found in its tree. */
  lemma {:induction false} UnitSearch(s: Section, t: Tree, pos: nat, q: Query)
    requires WellFormed(t, s) && UnitAt(s, t, pos) && q.ranges.Usable()
    ensures
      var rows := Rows(s, false, pos + HEADER_SIZE, pos + |UnitBytes(s, t)|, 0);
      RowsValid(s, rows) && DiesBy(s, rows, q, 0) == FoundIn(t, s, q)
  {
    hide *;
    UnitParsed(s, t, false, pos);
    UnitParsed(s, t, true, pos);
    LazyIsEager(s, pos + HEADER_SIZE, pos + |UnitBytes(s, t)|, 0);
    PreorderDepths(t, s, false, pos + HEADER_SIZE, 0);
    var rows := Rows(s, false, pos + HEADER_SIZE, pos + |UnitBytes(s, t)|, 0);
    RowsOfUnit(s, t, rows, pos + HEADER_SIZE);
    SearchUnit(s, t, rows, q);
  }

  lemma RowsOfUnit(s: Section, t: Tree, rows: seq<Node>, offset: nat)
    requires WellFormed(t, s) && RowsValid(s, rows)
    requires |rows| == |Preorder(t, s, true, offset, 0)|
    requires forall i | 0 <= i < |rows| :: FullAt(s, rows[i].offset) == Preorder(t, s, true, offset, 0)[i].die
    ensures AllWellFormed([t], s) && RowsMatch(s, rows, 0, [t])
  {
    hide FullAt, RowValid, Preorder, RowsMatch, WellFormed;
    var eager := Preorder(t, s, true, offset, 0);
    assert [t][0] == t && [t][1..] == [];
    assert PreorderAll([t], s, true, offset, 0) == eager + [];
    assert eager + [] == eager;
    PreorderMatches(s, rows, 0, [t], offset, 0);
  }

  lemma SearchUnit(s: Section, t: Tree, rows: seq<Node>, q: Query)
    requires WellFormed(t, s) && AllWellFormed([t], s) && RowsValid(s, rows) && q.ranges.Usable()
    requires RowsMatch(s, rows, 0, [t]) && DepthList(rows) == Depths(t, 0)
    ensures DiesBy(s, rows, q, 0) == FoundIn(t, s, q)
  {
    hide RowValid, EntryOf, FullAt, Matches, InlinedBy, Holds, SubprogramsIn, DiesBy, CountAll, DepthsAll, DepthList;
    WellFormedParts([t], s);
    var depths := DepthList(rows);
    assert depths[1..1 + CountAll(t.children)] == DepthsAll(t.children, 1);
    SearchForest(s, rows, q, t.children, 1, 1);
    DiesByIsDiesFrom(s, rows, q, 0);
    RootContributes(s, rows, q, t);
  }

  /** The root is found without any of its subtree. */
  lemma RootContributes(s: Section, rows: seq<Node>, q: Query, t: Tree)
    requires WellFormed(t, s) && RowsValid(s, rows) && q.ranges.Usable() && |rows| > 0
    requires FullAt(s, rows[0].offset) == EntryOf(t, s, true) && DepthList(rows)[0] == 0
    ensures DiesAt(s, rows, q, 0) == if Matches(t, s, q, SUBPROGRAM) then [0] else []
  {
    hide RowValid, EntryOf, FullAt, Matches, Holds, DepthList;
    RowMatches(s, rows, 0, t, q, SUBPROGRAM);
    assert AllChildrenOf(DepthList(rows), 0) == [];
    NoInlined(s, rows, q, 0, []);
    assert [0] + [] == [0];
  }

  // ---- Where the search does what it is for ----

  lemma ForestOfOne(t: Tree, s: Section, q: Query)
    requires WellFormed(t, s) && q.ranges.Usable()
    ensures AllWellFormed([t], s) && AllWellFormed(t.children, s)
    ensures
      var own := if Matches(t, s, q, SUBPROGRAM) then [0] + InlinedIn(t.children, s, q, 1) else [];
      SubprogramsIn([t], s, q, 0) == own + SubprogramsIn(t.children, s, q, 1)
  {
    hide Matches, InlinedIn, Count;
    var ts := [t];
    assert ts[0] == t && ts[1..] == [];
    assert SubprogramsIn(ts[1..], s, q, Count(t)) == [];
  }

  /** The search finds every subprogram with the inlined subroutines of its subtree, the root taken as
      any other, if and only if the root does not hold the address as a subprogram, or nothing inlined
      in it does. */
  lemma {:induction false} FoundExact(t: Tree, s: Section, q: Query)
    requires WellFormed(t, s) && q.ranges.Usable()
    ensures AllWellFormed([t], s) && AllWellFormed(t.children, s)
    ensures FoundIn(t, s, q) == SubprogramsIn([t], s, q, 0) <==>
      !Matches(t, s, q, SUBPROGRAM) || InlinedIn(t.children, s, q, 1) == []
  {
    ForestOfOne(t, s, q);
    hide Matches, InlinedIn, SubprogramsIn;
    var inlined, rest := InlinedIn(t.children, s, q, 1), SubprogramsIn(t.children, s, q, 1);
    if Matches(t, s, q, SUBPROGRAM) {
      assert |FoundIn(t, s, q)| == 1 + |rest| && |SubprogramsIn([t], s, q, 0)| == 1 + |inlined| + |rest|;
    }
  }

  const LIMITS: seq<Attribute> := [Attribute(AT_LOW_PC, Addr), Attribute(AT_HIGH_PC, Addr)]

  function SectionOfTwo(data: seq<Byte>, bigEndian: bool): Section {
    Section(data, bigEndian,
            map[1 := Declaration(SUBPROGRAM, true, LIMITS),
              2 := Declaration(INLINED_SUBROUTINE, false, LIMITS)],
            RawEnv.Env(4, 32, 4))
  }

  /** An entry that holds the addresses from 0 up to 10. */
  function Holder(code: nat, children: seq<Tree>): Tree {
    Die(code, [Number(Addr, 0), Number(Addr, 10)], children)
  }

  lemma {:induction false} HolderMatches(data: seq<Byte>, bigEndian: bool, code: nat, children: seq<Tree>)
    requires code in {1, 2} && WellFormed(Holder(code, children), SectionOfTwo(data, bigEndian))
    ensures
      var s, q := SectionOfTwo(data, bigEndian), Query(5, 0, 4, NoRanges);
      && (Matches(Holder(code, children), s, q, SUBPROGRAM) <==> code == 1)
      && (Matches(Holder(code, children), s, q, INLINED_SUBROUTINE) <==> code == 2)
  {
    var s, t := SectionOfTwo(data, bigEndian), Holder(code, children);
    var low, high := Kept(AT_LOW_PC, Addr, Unsigned(0)), Kept(AT_HIGH_PC, Addr, Unsigned(10));
    TwoValues(t.values);
    assert EntryOf(t, s, true).values == [low, high];
    FindTwo(low, high);
  }

  lemma TwoValues(values: seq<Datum>)
    requires values == [Number(Addr, 0), Number(Addr, 10)]
    ensures KeptValues(values, LIMITS) == [Kept(AT_LOW_PC, Addr, Unsigned(0)), Kept(AT_HIGH_PC, Addr, Unsigned(10))]
  {
    assert values[1..] == [Number(Addr, 10)] && LIMITS[1..] == [Attribute(AT_HIGH_PC, Addr)];
    assert KeptValues(values[1..], LIMITS[1..]) == [Kept(AT_HIGH_PC, Addr, Unsigned(10))];
  }

  lemma FindTwo(low: Kept, high: Kept)
    requires low.name == AT_LOW_PC && high.name == AT_HIGH_PC
    ensures FindKept([low, high], AT_LOW_PC) == Some(low) && FindKept([low, high], AT_HIGH_PC) == Some(high)
  {
    assert [low, high][1..] == [high];
  }

  /** A unit that is one subprogram with one inlined subroutine, both of which hold address 5: row 1
      is missing. */
  lemma {:induction false} RootLosesInlined(data: seq<Byte>, bigEndian: bool)
    ensures
      var s, q := SectionOfTwo(data, bigEndian), Query(5, 0, 4, NoRanges);
      var t := Holder(1, [Holder(2, [])]);
      && WellFormed(t, s) && AllWellFormed([t], s)
      && FoundIn(t, s, q) == [0] && SubprogramsIn([t], s, q, 0) == [0, 1]
  {
    var s, q := SectionOfTwo(data, bigEndian), Query(5, 0, 4, NoRanges);
    var leaf := Holder(2, []);
    var t := Holder(1, [leaf]);
    NoForest(s, true, 0, 0);
    HolderFits(data, bigEndian, 2, []);
    SingleFits(leaf, s);
    HolderFits(data, bigEndian, 1, [leaf]);
    HolderMatches(data, bigEndian, 1, [leaf]);
    HolderMatches(data, bigEndian, 2, []);
    ForestOfOne(t, s, q);
    hide Matches, WellFormed;
    assert [leaf][0] == leaf && [leaf][1..] == [];
    assert InlinedIn([leaf], s, q, 1) == [1] && SubprogramsIn([leaf], s, q, 1) == [];
  }

  lemma HolderFits(data: seq<Byte>, bigEndian: bool, code: nat, children: seq<Tree>)
    requires code in {1, 2} && (children != [] ==> code == 1)
    requires AllWellFormed(children, SectionOfTwo(data, bigEndian))
    ensures WellFormed(Holder(code, children), SectionOfTwo(data, bigEndian))
  {
    assert Pow256(4) >= 0x100;
  }

  lemma SingleFits(t: Tree, s: Section)
    requires WellFormed(t, s)
    ensures AllWellFormed([t], s)
  {
    hide WellFormed;
  }
}
