/** Ancestors, children and descendants, found in the list of depths alone. */
module DieQueries {
  import opened DebugInfo
  import opened DieTree

  // ---- What the three loops compute, on any list of depths ----

  /** Going back from `j`: the nearest row not deeper than `depth`, then the nearest one above
      it, down to depth 0. */
  function Climb(depths: seq<nat>, j: nat, depth: nat): seq<nat>
    requires j <= |depths|
    decreases j
  {
    if j == 0 then []
    else if depths[j - 1] <= depth then [j - 1] + if depth == 0 then [] else Climb(depths, j - 1, depth - 1)
    else Climb(depths, j - 1, depth)
  }

  function ParentsOf(depths: seq<nat>, i: nat): seq<nat>
    requires i < |depths|
  {
    if depths[i] == 0 then [] else Climb(depths, i, depths[i] - 1)
  }

  function ScanEqual(depths: seq<nat>, j: nat, depth: nat): seq<nat>
    requires j <= |depths|
    decreases |depths| - j
  {
    if j == |depths| || depths[j] != depth then [] else [j] + ScanEqual(depths, j + 1, depth)
  }

  function ChildrenOf(depths: seq<nat>, i: nat): seq<nat>
    requires i < |depths|
  {
    if depths[i] == 0 then [] else ScanEqual(depths, i + 1, depths[i] + 1)
  }

  function ScanDeeper(depths: seq<nat>, j: nat, depth: nat): seq<nat>
    requires j <= |depths|
    decreases |depths| - j
  {
    if j == |depths| || depths[j] < depth then [] else [j] + ScanDeeper(depths, j + 1, depth)
  }

  function AllChildrenOf(depths: seq<nat>, i: nat): seq<nat>
    requires i < |depths|
  {
    if depths[i] == 0 then [] else ScanDeeper(depths, i + 1, depths[i] + 1)
  }

  // ---- What the questions mean on the tree, rows numbered in prefix order ----

  function Count(t: Tree): (n: nat)
    ensures n > 0
  {
    1 + CountAll(t.children)
  }

  function CountAll(ts: seq<Tree>): nat {
    if ts == [] then 0 else Count(ts[0]) + CountAll(ts[1..])
  }

  function Depths(t: Tree, depth: nat): (r: seq<nat>)
    ensures |r| == Count(t)
  {
    [depth] + DepthsAll(t.children, depth + 1)
  }

  function DepthsAll(ts: seq<Tree>, depth: nat): (r: seq<nat>)
    ensures |r| == CountAll(ts)
  {
    if ts == [] then [] else Depths(ts[0], depth) + DepthsAll(ts[1..], depth)
  }

  /** The rows of the ancestors of row `i`, from its parent to the root; the forest starts at row
      `base` and `up` are the ancestors of its roots. */
  function Ancestors(ts: seq<Tree>, base: nat, i: nat, up: seq<nat>): seq<nat>
    requires base <= i < base + CountAll(ts)
  {
    if i == base then up
    else if i < base + Count(ts[0]) then Ancestors(ts[0].children, base + 1, i, [base] + up)
    else Ancestors(ts[1..], base + Count(ts[0]), i, up)
  }

  /** The entry at row `i`. */
  function EntryAt(ts: seq<Tree>, base: nat, i: nat): Tree
    requires base <= i < base + CountAll(ts)
  {
    if i == base then ts[0]
    else if i < base + Count(ts[0]) then EntryAt(ts[0].children, base + 1, i)
    else EntryAt(ts[1..], base + Count(ts[0]), i)
  }

  /** The rows from `i` up to `j`. */
  function Interval(i: nat, j: nat): (r: seq<nat>)
    requires i <= j
    ensures |r| == j - i && forall k | 0 <= k < |r| :: r[k] == i + k
    decreases j - i
  {
    if i == j then [] else [i] + Interval(i + 1, j)
  }

  /** The rows of the roots of a forest, up to and including the first that has children. */
  function LeadingRoots(ts: seq<Tree>, base: nat): seq<nat> {
    if ts == [] then [] else [base] + if ts[0].children == [] then LeadingRoots(ts[1..], base + 1) else []
  }

  // ---- The loops answer the questions ----

  ghost predicate Block(depths: seq<nat>, base: nat, ts: seq<Tree>, depth: nat) {
    base + CountAll(ts) <= |depths| && depths[base..base + CountAll(ts)] == DepthsAll(ts, depth)
  }

  /** The parts of a block that begins at `base`. */
  lemma SliceParts(s: seq<nat>, base: nat, d: nat, inner: seq<nat>, rest: seq<nat>)
    requires base + 1 + |inner| + |rest| <= |s|
    requires s[base..base + 1 + |inner| + |rest|] == [d] + inner + rest
    ensures s[base] == d
    ensures s[base + 1..base + 1 + |inner|] == inner
    ensures s[base + 1 + |inner|..base + 1 + |inner| + |rest|] == rest
  {
    var all := s[base..base + 1 + |inner| + |rest|];
    assert all[0] == d;
    forall k | 0 <= k < |inner| ensures s[base + 1 + k] == inner[k] {
      assert all[1 + k] == inner[k];
    }
    forall k | 0 <= k < |rest| ensures s[base + 1 + |inner| + k] == rest[k] {
      assert all[1 + |inner| + k] == rest[k];
    }
  }

  lemma DepthsUnfold(ts: seq<Tree>, depth: nat)
    requires ts != []
    ensures DepthsAll(ts, depth) == [depth] + DepthsAll(ts[0].children, depth + 1) + DepthsAll(ts[1..], depth)
    ensures CountAll(ts) == Count(ts[0]) + CountAll(ts[1..]) && Count(ts[0]) == 1 + CountAll(ts[0].children)
  {
  }

  lemma BlockParts(depths: seq<nat>, base: nat, ts: seq<Tree>, depth: nat)
    requires Block(depths, base, ts, depth) && ts != []
    ensures depths[base] == depth
    ensures Block(depths, base + 1, ts[0].children, depth + 1)
    ensures Block(depths, base + Count(ts[0]), ts[1..], depth)
  {
    hide Depths, DepthsAll, Count, CountAll;
    DepthsUnfold(ts, depth);
    SliceParts(depths, base, depth, DepthsAll(ts[0].children, depth + 1), DepthsAll(ts[1..], depth));
  }

  lemma BlockIs(depths: seq<nat>, base: nat, ts: seq<Tree>, depth: nat)
    requires Block(depths, base, ts, depth)
    ensures base + CountAll(ts) <= |depths|
  {
  }

  lemma {:induction false} BlockDeep(depths: seq<nat>, base: nat, ts: seq<Tree>, depth: nat)
    requires Block(depths, base, ts, depth)
    ensures forall k | base <= k < base + CountAll(ts) :: depths[k] >= depth
    decreases ts
  {
    if ts != [] {
      BlockParts(depths, base, ts, depth);
      BlockDeep(depths, base + 1, ts[0].children, depth + 1);
      BlockDeep(depths, base + Count(ts[0]), ts[1..], depth);
    }
  }

  lemma {:induction false} ClimbPast(depths: seq<nat>, from: nat, j: nat, depth: nat)
    requires from <= j <= |depths| && forall k | from <= k < j :: depths[k] > depth
    ensures Climb(depths, j, depth) == Climb(depths, from, depth)
    decreases j
  {
    if j > from {
      ClimbPast(depths, from, j - 1, depth);
    }
  }

  /** Rows below a row, and the rows of the forest after it. */
  lemma AncestorsUnfold(ts: seq<Tree>, base: nat, i: nat, up: seq<nat>)
    requires base <= i < base + CountAll(ts)
    ensures ts != [] && CountAll(ts) == Count(ts[0]) + CountAll(ts[1..]) && Count(ts[0]) == 1 + CountAll(ts[0].children)
    ensures
      Ancestors(ts, base, i, up) ==
      if i == base then up
      else if i < base + Count(ts[0]) then Ancestors(ts[0].children, base + 1, i, [base] + up)
      else Ancestors(ts[1..], base + Count(ts[0]), i, up)
    ensures
      EntryAt(ts, base, i) ==
      if i == base then ts[0]
      else if i < base + Count(ts[0]) then EntryAt(ts[0].children, base + 1, i)
      else EntryAt(ts[1..], base + Count(ts[0]), i)
  {
  }

  lemma ClimbFrom(depths: seq<nat>, i: nat)
    requires i < |depths| && depths[i] > 0
    ensures ParentsOf(depths, i) == Climb(depths, i, depths[i] - 1)
    ensures Climb(depths, i + 1, depths[i]) == [i] + Climb(depths, i, depths[i] - 1)
  {
  }

  lemma NoneAtRoot(depths: seq<nat>, i: nat)
    requires i < |depths| && depths[i] == 0
    ensures ParentsOf(depths, i) == ChildrenOf(depths, i) == AllChildrenOf(depths, i) == []
  {
  }

  lemma {:induction false} ClimbFindsAncestors(depths: seq<nat>, base: nat, ts: seq<Tree>, depth: nat, i: nat,
      up: seq<nat>)
    requires Block(depths, base, ts, depth) && depth > 0 && base <= i < base + CountAll(ts)
    requires up == Climb(depths, base, depth - 1)
    ensures ParentsOf(depths, i) == Ancestors(ts, base, i, up)
    decreases ts
  {
    hide *;
    AncestorsUnfold(ts, base, i, up);
    BlockParts(depths, base, ts, depth);
    BlockIs(depths, base, ts, depth);
    ClimbFrom(depths, base);
    if i == base {
    } else if i < base + Count(ts[0]) {
      ClimbFindsAncestors(depths, base + 1, ts[0].children, depth + 1, i, [base] + up);
    } else {
      BlockDeep(depths, base + 1, ts[0].children, depth + 1);
      ClimbPast(depths, base, base + Count(ts[0]), depth - 1);
      ClimbFindsAncestors(depths, base + Count(ts[0]), ts[1..], depth, i, up);
    }
  }

  /** For every row but the root, the parents found are the ancestors, from the parent to the root. */
  lemma {:induction false} ParentsAreAncestors(t: Tree, i: nat)
    requires 0 < i < Count(t)
    ensures ParentsOf(Depths(t, 0), i) == Ancestors([t], 0, i, [])
  {
    var depths := Depths(t, 0);
    assert depths[1..1 + CountAll(t.children)] == DepthsAll(t.children, 1);
    assert Climb(depths, 1, 0) == [0];
    ClimbFindsAncestors(depths, 1, t.children, 1, i, [0]);
    assert [0] + [] == [0] && CountAll([t]) == Count(t) + CountAll([]);
  }

  lemma {:induction false} ScanDeeperInterval(depths: seq<nat>, j: nat, end: nat, depth: nat)
    requires j <= end <= |depths| && (forall k | j <= k < end :: depths[k] >= depth)
    requires end == |depths| || depths[end] < depth
    ensures ScanDeeper(depths, j, depth) == Interval(j, end)
    decreases end - j
  {
    if j < end {
      ScanDeeperInterval(depths, j + 1, end, depth);
    }
  }

  lemma {:induction false} ScanEqualLeading(depths: seq<nat>, base: nat, ts: seq<Tree>, depth: nat)
    requires Block(depths, base, ts, depth)
    requires base + CountAll(ts) == |depths| || depths[base + CountAll(ts)] < depth
    ensures ScanEqual(depths, base, depth) == LeadingRoots(ts, base)
    decreases |ts|
  {
    if ts != [] {
      BlockParts(depths, base, ts, depth);
      if ts[0].children == [] {
        ScanEqualLeading(depths, base + 1, ts[1..], depth);
      } else {
        BlockParts(depths, base + 1, ts[0].children, depth + 1);
      }
    }
  }

  lemma ScansFrom(depths: seq<nat>, i: nat)
    requires i < |depths| && depths[i] > 0
    ensures AllChildrenOf(depths, i) == ScanDeeper(depths, i + 1, depths[i] + 1)
    ensures ChildrenOf(depths, i) == ScanEqual(depths, i + 1, depths[i] + 1)
  {
  }

  lemma {:induction false} ScansAtRoot(depths: seq<nat>, i: nat, children: seq<Tree>, depth: nat)
    requires i < |depths| && depths[i] == depth > 0 && Block(depths, i + 1, children, depth + 1)
    requires i + 1 + CountAll(children) == |depths| || depths[i + 1 + CountAll(children)] <= depth
    ensures AllChildrenOf(depths, i) == Interval(i + 1, i + 1 + CountAll(children))
    ensures ChildrenOf(depths, i) == LeadingRoots(children, i + 1)
  {
    hide *;
    ScansFrom(depths, i);
    BlockIs(depths, i + 1, children, depth + 1);
    BlockDeep(depths, i + 1, children, depth + 1);
    ScanDeeperInterval(depths, i + 1, i + 1 + CountAll(children), depth + 1);
    ScanEqualLeading(depths, i + 1, children, depth + 1);
  }

  lemma NoTrees(ts: seq<Tree>)
    requires ts == []
    ensures CountAll(ts) == 0
  {
  }

  lemma {:induction false} ScansFindSubtree(depths: seq<nat>, base: nat, ts: seq<Tree>, depth: nat, i: nat)
    requires Block(depths, base, ts, depth) && depth > 0 && base <= i < base + CountAll(ts)
    requires base + CountAll(ts) == |depths| || depths[base + CountAll(ts)] < depth
    ensures
      var e := EntryAt(ts, base, i);
      && i + Count(e) <= |depths|
      && AllChildrenOf(depths, i) == Interval(i + 1, i + Count(e))
      && ChildrenOf(depths, i) == LeadingRoots(e.children, i + 1)
    decreases ts
  {
    hide *;
    AncestorsUnfold(ts, base, i, []);
    BlockParts(depths, base, ts, depth);
    BlockIs(depths, base, ts, depth);
    var next := base + Count(ts[0]);
    if ts[1..] != [] {
      BlockParts(depths, next, ts[1..], depth);
    } else {
      NoTrees(ts[1..]);
    }
    if i == base {
      ScansAtRoot(depths, base, ts[0].children, depth);
    } else if i < next {
      ScansFindSubtree(depths, base + 1, ts[0].children, depth + 1, i);
    } else {
      ScansFindSubtree(depths, next, ts[1..], depth, i);
    }
  }

  /** For every row but the root, all children are exactly the rows of its subtree in order, and
      the children are its direct children up to the first that has children of its own. */
  lemma {:induction false} ChildrenAreSubtree(t: Tree, i: nat)
    requires 0 < i < Count(t)
    ensures
      var e := EntryAt([t], 0, i);
      && AllChildrenOf(Depths(t, 0), i) == Interval(i + 1, i + Count(e))
      && ChildrenOf(Depths(t, 0), i) == LeadingRoots(e.children, i + 1)
  {
    var depths := Depths(t, 0);
    assert depths[1..1 + CountAll(t.children)] == DepthsAll(t.children, 1);
    ScansFindSubtree(depths, 1, t.children, 1, i);
    assert CountAll([t]) == Count(t) + CountAll([]);
  }

  /** The root gets no parents, but no children either. */
  lemma RootHasNone(t: Tree)
    ensures var d := Depths(t, 0); ParentsOf(d, 0) == ChildrenOf(d, 0) == AllChildrenOf(d, 0) == []
  {
  }

  /** The direct children are all found if and only if none but the last has children. */
  lemma {:induction false} AllRootsLead(ts: seq<Tree>, base: nat)
    ensures |LeadingRoots(ts, base)| == |ts| <==> forall k | 0 <= k < |ts| - 1 :: ts[k].children == []
    ensures |LeadingRoots(ts, base)| <= |ts|
    decreases |ts|
  {
    if ts != [] {
      AllRootsLead(ts[1..], base + 1);
      var rest := ts[1..];
      assert forall k | 0 <= k < |rest| :: rest[k] == ts[k + 1];
      assert (forall k | 0 <= k < |ts| - 1 :: ts[k].children == []) <==>
        (|ts| > 1 ==> ts[0].children == []) && (forall k | 0 <= k < |rest| - 1 :: rest[k].children == []);
    }
  }

  lemma DepthsOfParts(t: Tree, ts: seq<Tree>, node: Node, depth: nat)
    ensures Depths(t, depth) == [depth] + DepthsAll(t.children, depth + 1)
    ensures ts == [] ==> DepthsAll(ts, depth) == []
    ensures ts != [] ==> DepthsAll(ts, depth) == Depths(ts[0], depth) + DepthsAll(ts[1..], depth)
    ensures DepthList([node]) == [node.depth]
  {
  }

  /** The depths of the rows that the parser makes are the depths of the tree. */
  lemma {:induction false} PreorderDepths(t: Tree, s: Section, full: bool, offset: nat, depth: nat)
    requires WellFormed(t, s)
    ensures DepthList(Preorder(t, s, full, offset, depth)) == Depths(t, depth)
    decreases t, 1
  {
    hide *;
    PreorderUnfold(t, s, full, offset, depth);
    var row := Node(offset, EntryOf(t, s, full), depth);
    DepthsOfParts(t, [], row, depth);
    PreorderAllDepths(t.children, s, full, offset + |HeadBytes(t, s)|, depth + 1);
    DepthListAppend([row], PreorderAll(t.children, s, full, offset + |HeadBytes(t, s)|, depth + 1));
  }

  lemma NoRows(s: Section, full: bool, offset: nat, depth: nat)
    ensures DepthList(PreorderAll([], s, full, offset, depth)) == DepthsAll([], depth)
  {
  }

  lemma {:induction false} PreorderAllDepths(ts: seq<Tree>, s: Section, full: bool, offset: nat, depth: nat)
    requires AllWellFormed(ts, s)
    ensures DepthList(PreorderAll(ts, s, full, offset, depth)) == DepthsAll(ts, depth)
    decreases ts, 0
  {
    hide *;
    if ts == [] {
      NoRows(s, full, offset, depth);
    } else {
      PreorderAllUnfold(ts, s, full, offset, depth);
      PreorderDepths(ts[0], s, full, offset, depth);
      PreorderAllDepths(ts[1..], s, full, offset + |TreeBytes(ts[0], s)|, depth);
      DepthsOfParts(ts[0], ts, Node(offset, EntryOf(ts[0], s, full), depth), depth);
      DepthListAppend(Preorder(ts[0], s, full, offset, depth),
                      PreorderAll(ts[1..], s, full, offset + |TreeBytes(ts[0], s)|, depth));
    }
  }

  function DepthList(rows: seq<Node>): (r: seq<nat>)
    ensures |r| == |rows| && forall i | 0 <= i < |r| :: r[i] == rows[i].depth
  {
    if rows == [] then [] else [rows[0].depth] + DepthList(rows[1..])
  }

  lemma DepthListAppend(a: seq<Node>, b: seq<Node>)
    ensures DepthList(a + b) == DepthList(a) + DepthList(b)
  {
  }
}
