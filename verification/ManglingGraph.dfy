/** The links between components never form a cycle, although they are patched in place: the open
    operands of qualifiers, the open tails of lists, and the ref-qualifier that is moved outside
    of the qualifiers, even when a substitution has brought it back.

    The proof gives every component a rank, so that links go down.  Components with an open
    operand are hidden: nothing refers to them until they are closed, and then they are ranked
    above, or, for the ref-qualifier, put in between. */
module ManglingGraph {
  import opened Components
  import opened Mangling

  // ---- Ranks ----

  predicate NodeOk(size: nat, hidden: set<int>, dc: int) {
    dc == NULL || (0 <= dc < size && dc !in hidden)
  }

  predicate EdgeOk(hidden: set<int>, rank: seq<nat>, i: nat, c: int)
    requires i < |rank|
  {
    NodeOk(|rank|, hidden, c) && (c != NULL ==> rank[c] < rank[i])
  }

  predicate CellOk(comps: seq<Cell>, hidden: set<int>, rank: seq<nat>, i: nat)
    requires i < |comps| == |rank|
  {
    comps[i].Link? ==> EdgeOk(hidden, rank, i, comps[i].left) && EdgeOk(hidden, rank, i, comps[i].right)
  }

  /** Outside of the hidden components links go down, and neither they nor the substitutions lead
      to a hidden one. */
  predicate Good(st: State, hidden: set<int>, rank: seq<nat>) {
    && |rank| == |st.comps|
    && (forall h | h in hidden :: 0 <= h < |st.comps|)
    && (forall i | 0 <= i < |st.comps| && i !in hidden :: CellOk(st.comps, hidden, rank, i))
    && (forall k | 0 <= k < |st.subs| :: NodeOk(|st.comps|, hidden, st.subs[k]))
  }

  /** Hidden components are left alone. */
  predicate Kept(st: State, r: State, hidden: set<int>) {
    && |st.comps| <= |r.comps|
    && forall h | h in hidden :: 0 <= h < |st.comps| && r.comps[h] == st.comps[h]
  }

  /** What every production keeps. */
  predicate Safe(st: State, r: Result, hidden: set<int>, rank: seq<nat>) {
    Good(r.st, hidden, rank) && Kept(st, r.st, hidden) && NodeOk(|r.st.comps|, hidden, r.dc)
  }

  function Top(rank: seq<nat>): (t: nat)
    ensures forall k | 0 <= k < |rank| :: rank[k] < t
  {
    if rank == [] then 0
    else
      var t := Top(rank[..|rank| - 1]);
      if rank[|rank| - 1] < t then t else rank[|rank| - 1] + 1
  }

  // ---- Single steps ----

  lemma {:induction false} MakeSafe(st: State, cell: Cell, hidden: set<int>, rank: seq<nat>) returns (rank1: seq<nat>)
    requires Good(st, hidden, rank)
    requires cell.Link? ==> NodeOk(|st.comps|, hidden, cell.left) && NodeOk(|st.comps|, hidden, cell.right)
    ensures Safe(st, MakeEmpty(st, cell), hidden, rank1)
  {
    rank1 := rank + [Top(rank)];
    var st1 := MakeEmpty(st, cell).st;
    forall i | 0 <= i < |st1.comps| && i !in hidden ensures CellOk(st1.comps, hidden, rank1, i) {
      if i < |st.comps| {
        assert CellOk(st.comps, hidden, rank, i);
      }
    }
  }

  lemma {:induction false} MakeCompSafe(st: State, tag: Tag, left: int, right: int, hidden: set<int>, rank: seq<nat>)
    returns (rank1: seq<nat>)
    requires Good(st, hidden, rank) && NodeOk(|st.comps|, hidden, left) && NodeOk(|st.comps|, hidden, right)
    ensures Safe(st, MakeComp(st, tag, left, right), hidden, rank1)
  {
    hide Good;
    rank1 := MakeSafe(st, Link(tag, left, right), hidden, rank);
    if MakeComp(st, tag, left, right).dc == NULL {
      rank1 := rank;
      KeptRefl(st, hidden, rank);
    }
  }

  lemma KeptRefl(st: State, hidden: set<int>, rank: seq<nat>)
    requires Good(st, hidden, rank)
    ensures Kept(st, st, hidden)
  {
  }

  lemma KeptTrans(a: State, b: State, c: State, hidden: set<int>)
    requires Kept(a, b, hidden) && Kept(b, c, hidden)
    ensures Kept(a, c, hidden)
  {
  }

  lemma RegisterSafe(st: State, r: Result, hidden: set<int>, rank: seq<nat>)
    requires Safe(st, r, hidden, rank)
    ensures Safe(st, AddSubstitution(r), hidden, rank)
  {
  }

  /** Taking a link away. */
  lemma {:induction false} DropLeft(st: State, i: int, hidden: set<int>, rank: seq<nat>)
    requires Good(st, hidden, rank) && i !in hidden
    ensures Good(SetLeft(st, i, NULL), hidden, rank) && Kept(st, SetLeft(st, i, NULL), hidden)
  {
    var st1 := SetLeft(st, i, NULL);
    forall j | 0 <= j < |st1.comps| && j !in hidden ensures CellOk(st1.comps, hidden, rank, j) {
      assert CellOk(st.comps, hidden, rank, j);
    }
  }

  /** Patching a hidden component changes nothing for the others. */
  lemma {:induction false} PatchHidden(st: State, st1: State, i: int, hidden: set<int>, rank: seq<nat>)
    requires Good(st, hidden, rank) && i in hidden
    requires |st1.comps| == |st.comps| && st1.subs == st.subs
    requires forall j | 0 <= j < |st.comps| && j != i :: st1.comps[j] == st.comps[j]
    ensures Good(st1, hidden, rank)
  {
    forall j | 0 <= j < |st1.comps| && j !in hidden ensures CellOk(st1.comps, hidden, rank, j) {
      assert CellOk(st.comps, hidden, rank, j);
    }
  }

  /** A new hidden component. */
  lemma {:induction false} Hide(st: State, cell: Cell, hidden: set<int>, rank: seq<nat>)
    requires Good(st, hidden, rank)
    ensures Good(MakeEmpty(st, cell).st, hidden + {|st.comps|}, rank + [0])
  {
    var st1, hidden1, rank1 := MakeEmpty(st, cell).st, hidden + {|st.comps|}, rank + [0];
    forall i | 0 <= i < |st1.comps| && i !in hidden1 ensures CellOk(st1.comps, hidden1, rank1, i) {
      assert CellOk(st.comps, hidden, rank, i);
    }
  }

  /** A hidden component whose links lead to components that are not hidden comes out above all
      others. */
  lemma {:induction false} Unhide(st: State, i: int, hidden: set<int>, rank: seq<nat>) returns (rank1: seq<nat>)
    requires Good(st, hidden + {i}, rank) && 0 <= i < |st.comps| && i !in hidden
    requires st.comps[i].Link? ==>
      NodeOk(|st.comps|, hidden + {i}, st.comps[i].left) && NodeOk(|st.comps|, hidden + {i}, st.comps[i].right)
    ensures Good(st, hidden, rank1)
  {
    rank1 := rank[i := Top(rank)];
    forall j | 0 <= j < |st.comps| && j !in hidden ensures CellOk(st.comps, hidden, rank1, j) {
      if j != i {
        assert CellOk(st.comps, hidden + {i}, rank, j);
      }
    }
  }

  function Doubled(rank: seq<nat>): (r: seq<nat>)
    ensures |r| == |rank| && forall i | 0 <= i < |r| :: r[i] == 2 * rank[i]
  {
    if rank == [] then [] else [2 * rank[0]] + Doubled(rank[1..])
  }

  /** A hidden component with the same operand as `t` comes out between `t` and this operand. */
  lemma {:induction false} Insert(st: State, t: int, q: int, hidden: set<int>, rank: seq<nat>) returns (rank1: seq<nat>)
    requires Good(st, hidden + {q}, rank) && q !in hidden
    requires 0 <= t < |st.comps| && t !in hidden + {q} && st.comps[t].Link?
    requires 0 <= q < |st.comps| && st.comps[q].Link? && st.comps[q].left == st.comps[t].left
      && st.comps[q].right == NULL
    ensures Good(SetLeft(st, t, q), hidden, rank1)
  {
    assert CellOk(st.comps, hidden + {q}, rank, t);
    var st1 := SetLeft(st, t, q);
    var twice := Doubled(rank);
    var mid: nat := if rank[t] == 0 then 0 else 2 * rank[t] - 1;
    rank1 := twice[q := mid];
    if rank[t] == 0 {
      rank1 := rank1[t := 1];
    }
    forall j | 0 <= j < |st1.comps| && j !in hidden ensures CellOk(st1.comps, hidden, rank1, j) {
      if j != q {
        assert CellOk(st.comps, hidden + {q}, rank, j);
      }
    }
  }

  // ---- Chains of qualifiers ----

  function Span(a: int, b: int): (r: set<int>)
    ensures forall i :: i in r <==> a <= i < b
    decreases b - a
  {
    if a >= b then {} else Span(a, b - 1) + {b - 1}
  }

  /** Each from `a` up to `b` is linked to the next; the last one's operand is `target`. */
  predicate Chain(comps: seq<Cell>, a: int, b: int, target: int) {
    && 0 <= a <= b <= |comps|
    && forall i | a <= i < b ::
         comps[i].Link? && comps[i].right == NULL && comps[i].left == if i + 1 < b then i + 1 else target
  }

  function Zeros(n: nat): (r: seq<nat>)
    ensures |r| == n
  {
    seq(n, _ => 0)
  }

  lemma {:induction false} OpenQualifiers(s: CString, st: State, memberFn: bool, hidden: set<int>, rank: seq<nat>)
    returns (rank1: seq<nat>)
    requires Good(st, hidden, rank)
    ensures
      var q := CvQualifiers(s, st, memberFn);
      var open := Span(|st.comps|, |q.comps|);
      && Good(q, hidden + open, rank1) && Kept(st, q, hidden) && hidden !! open
      && Chain(q.comps, |st.comps|, |q.comps|, NULL)
  {
    hide QualifierChain, QualifierCount, QualifierKind;
    var q := CvQualifiers(s, st, memberFn);
    var hidden1 := hidden + Span(|st.comps|, |q.comps|);
    rank1 := rank + Zeros(|q.comps| - |st.comps|);
    forall i | 0 <= i < |q.comps| && i !in hidden1 ensures CellOk(q.comps, hidden1, rank1, i) {
      assert CellOk(st.comps, hidden, rank, i);
    }
    forall i | |st.comps| <= i < |q.comps|
      ensures q.comps[i].Link? && q.comps[i].right == NULL
        && q.comps[i].left == if i + 1 < |q.comps| then i + 1 else NULL {
      ChainAt(s, st.n, |st.comps|, memberFn || Peek(s, q.n) == 'F', i - |st.comps|);
    }
  }

  lemma {:induction false} CloseChain(st: State, a: int, b: int, target: int, hidden: set<int>, rank: seq<nat>)
    returns (rank1: seq<nat>)
    requires Chain(st.comps, a, b, target) && hidden !! Span(a, b) && Good(st, hidden + Span(a, b), rank)
    requires NodeOk(|st.comps|, hidden + Span(a, b), target)
    ensures Good(st, hidden, rank1)
    decreases b - a
  {
    if a == b {
      rank1 := rank;
      assert hidden + Span(a, b) == hidden;
    } else {
      assert hidden + Span(a, b) == hidden + Span(a, b - 1) + {b - 1};
      var rank2 := Unhide(st, b - 1, hidden + Span(a, b - 1), rank);
      rank1 := CloseChain(st, a, b - 1, b - 1, hidden, rank2);
    }
  }

  /** The chain comes out between `t` and what `t` has in common with the end of the chain. */
  lemma {:induction false} InsertChain(st: State, a: int, b: int, t: int, hidden: set<int>, rank: seq<nat>)
    returns (rank1: seq<nat>)
    requires 0 <= t < |st.comps| && st.comps[t].Link? && t !in hidden + Span(a, b)
    requires a < b && Chain(st.comps, a, b, st.comps[t].left)
    requires hidden !! Span(a, b) && Good(st, hidden + Span(a, b), rank)
    ensures Good(SetLeft(st, t, a), hidden, rank1)
    decreases b - a
  {
    assert hidden + Span(a, b) == hidden + Span(a, b - 1) + {b - 1};
    var rank2 := Insert(st, t, b - 1, hidden + Span(a, b - 1), rank);
    if a == b - 1 {
      rank1 := rank2;
      assert hidden + Span(a, b - 1) == hidden;
    } else {
      var st1 := SetLeft(st, t, b - 1);
      rank1 := InsertChain(st1, a, b - 1, t, hidden, rank2);
      assert SetLeft(st1, t, a) == SetLeft(st, t, a);
    }
  }

  /** Closing the qualifiers of a type keeps the links going down, whether or not a ref-qualifier
      has to be moved outside. */
  lemma {:induction false} CloseQualifiersSafe(st: State, r: Result, a: int, b: int, hidden: set<int>, rank: seq<nat>)
    returns (rank1: seq<nat>)
    requires a < b && hidden !! Span(a, b) && Safe(st, r, hidden + Span(a, b), rank) && Chain(r.st.comps, a, b, NULL)
    ensures Safe(st, CloseQualifiers(r, a, b - 1), hidden, rank1)
  {
    hide Good;
    var hidden1 := hidden + Span(a, b);
    if r.dc < 0 {
      rank1 := CloseChain(r.st, a, b, NULL, hidden, rank);
    } else {
      var st1 := SetLeft(r.st, b - 1, r.dc);
      PatchHidden(r.st, st1, b - 1, hidden1, rank);
      if IsRefThis(st1, r.dc) {
        var fn := LeftOf(st1, r.dc);
        var st2 := SetLeft(st1, b - 1, fn);
        PatchHidden(st1, st2, b - 1, hidden1, rank);
        rank1 := InsertChain(st2, a, b, r.dc, hidden, rank);
        assert SetLeft(st2, r.dc, a) == SetLeft(SetLeft(st1, r.dc, a), b - 1, fn);
        RegisterSafe(st, Result(SetLeft(st2, r.dc, a), r.dc), hidden, rank1);
      } else {
        rank1 := CloseChain(st1, a, b, r.dc, hidden, rank);
        RegisterSafe(st, Result(st1, a), hidden, rank1);
      }
    }
  }

  /** Closing the qualifiers of a nested name: the prefix under them, and they under the
      ref-qualifier that comes right behind them, if there is one. */
  lemma {:induction false} CloseNestedSafe(st: State, prefix: Result, a: int, b: int, ref: int, hidden: set<int>,
      rank: seq<nat>)
    returns (rank1: seq<nat>)
    requires 0 <= a <= b && (ref == NULL || ref == b) && hidden !! Span(a, b) && ref !in hidden
    requires Safe(st, prefix, hidden + Span(a, b) + (if ref == NULL then {} else {ref}), rank)
    requires Chain(prefix.st.comps, a, b, NULL)
    requires ref == b ==>
      b < |prefix.st.comps| && prefix.st.comps[b].Link? && prefix.st.comps[b].left == prefix.st.comps[b].right == NULL
    ensures
      var r := if prefix.dc < 0 then Result(prefix.st, NULL) else CloseNested(prefix, a, b - 1, ref);
      Safe(st, r, hidden, rank1)
  {
    hide Good;
    var above := if ref == NULL then hidden else hidden + {ref};
    assert hidden + Span(a, b) + (if ref == NULL then {} else {ref}) == above + Span(a, b);
    var st1 := if a < b && prefix.dc >= 0 then SetLeft(prefix.st, b - 1, prefix.dc) else prefix.st;
    if a < b && prefix.dc >= 0 {
      PatchHidden(prefix.st, st1, b - 1, above + Span(a, b), rank);
    }
    rank1 := CloseChain(st1, a, b, if prefix.dc < 0 then NULL else prefix.dc, above, rank);
    if ref == b {
      var dc := if a < b then a else prefix.dc;
      var st2 := if prefix.dc >= 0 then SetLeft(st1, ref, dc) else st1;
      PatchHidden(st1, st2, ref, above, rank1);
      rank1 := Unhide(st2, ref, hidden, rank1);
    }
  }

  // ---- Lists ----

  function Members(list: seq<int>): (r: set<int>)
    ensures forall i :: i in r <==> i in list
  {
    set i | i in list
  }

  predicate ListCell(comps: seq<Cell>, hidden: set<int>, list: seq<int>, end: int, j: nat)
    requires j < |list|
  {
    && 0 <= list[j] < |comps| && list[j] !in hidden && comps[list[j]].Link?
    && comps[list[j]].right == (if j + 1 < |list| then list[j + 1] else end)
    && NodeOk(|comps|, hidden + Members(list), comps[list[j]].left)
  }

  predicate Distinct(list: seq<int>) {
    forall i, j | 0 <= i < j < |list| :: list[i] != list[j]
  }

  /** The components of a list, in order: each holds an element, its tail is the next, and the last
      tail is `end`. */
  predicate List(comps: seq<Cell>, hidden: set<int>, list: seq<int>, end: int) {
    Distinct(list) && forall j | 0 <= j < |list| :: ListCell(comps, hidden, list, end, j)
  }

  function FirstOf(list: seq<int>): int {
    if list == [] then NULL else list[0]
  }

  function LastOf(list: seq<int>): int {
    if list == [] then NULL else list[|list| - 1]
  }

  lemma NodeGrown(size: nat, hidden: set<int>, list: seq<int>, c: int)
    requires NodeOk(size, hidden + Members(list), c)
    ensures NodeOk(size + 1, hidden + Members(list + [size]), c)
  {
  }

  /** One more element at the open tail. */
  lemma {:induction false} AppendSafe(st: State, tag: Tag, element: int, list: seq<int>, hidden: set<int>,
      rank: seq<nat>) returns (rank1: seq<nat>)
    requires Good(st, hidden + Members(list), rank) && List(st.comps, hidden, list, NULL)
    requires 0 <= element && NodeOk(|st.comps|, hidden + Members(list), element)
      && (forall h | h in hidden :: 0 <= h < |st.comps|)
    ensures
      var st1 := MakeEmpty(st, Link(tag, element, NULL)).st;
      var st2 := if list == [] then st1 else SetRight(st1, LastOf(list), |st.comps|);
      var list1 := list + [|st.comps|];
      Good(st2, hidden + Members(list1), rank1) && List(st2.comps, hidden, list1, NULL) && Kept(st, st2, hidden)
  {
    hide Good;
    var st1 := MakeEmpty(st, Link(tag, element, NULL)).st;
    var list1 := list + [|st.comps|];
    rank1 := rank + [0];
    Hide(st, Link(tag, element, NULL), hidden + Members(list), rank);
    assert hidden + Members(list) + {|st.comps|} == hidden + Members(list1);
    assert forall j | 0 <= j < |list| :: ListCell(st.comps, hidden, list, NULL, j);
    if list != [] {
      PatchHidden(st1, SetRight(st1, LastOf(list), |st.comps|), LastOf(list), hidden + Members(list1), rank1);
    }
    var st2 := if list == [] then st1 else SetRight(st1, LastOf(list), |st.comps|);
    assert list != [] ==> ListCell(st.comps, hidden, list, NULL, |list| - 1) && LastOf(list) < |st.comps|;
    forall j | 0 <= j < |list1| ensures ListCell(st2.comps, hidden, list1, NULL, j) {
      if j < |list| {
        assert ListCell(st.comps, hidden, list, NULL, j);
        assert j < |list| - 1 ==> list[j] != list[|list| - 1];
        NodeGrown(|st.comps|, hidden, list, st.comps[list[j]].left);
      } else {
        NodeGrown(|st.comps|, hidden, list, element);
      }
    }
    forall i, j | 0 <= i < j < |list1| ensures list1[i] != list1[j] {
      assert ListCell(st.comps, hidden, list, NULL, i);
    }
  }

  lemma {:induction false} ListKept(st: State, r: State, hidden: set<int>, list: seq<int>)
    requires List(st.comps, hidden, list, NULL) && Kept(st, r, hidden + Members(list))
    ensures List(r.comps, hidden, list, NULL) && Kept(st, r, hidden)
  {
    forall j | 0 <= j < |list| ensures ListCell(r.comps, hidden, list, NULL, j) {
      assert ListCell(st.comps, hidden, list, NULL, j);
    }
  }

  lemma {:induction false} CloseList(st: State, list: seq<int>, end: int, hidden: set<int>, rank: seq<nat>)
    returns (rank1: seq<nat>)
    requires Good(st, hidden + Members(list), rank) && NodeOk(|st.comps|, hidden + Members(list), end)
    requires List(st.comps, hidden, list, end)
    ensures Good(st, hidden, rank1)
    decreases |list|
  {
    hide Good;
    if list == [] {
      rank1 := rank;
      assert hidden + Members(list) == hidden;
    } else {
      var front, i := list[..|list| - 1], list[|list| - 1];
      assert hidden + Members(list) == hidden + Members(front) + {i};
      assert ListCell(st.comps, hidden, list, end, |list| - 1);
      assert i !in Members(front);
      var rank2 := Unhide(st, i, hidden + Members(front), rank);
      forall j | 0 <= j < |front| ensures ListCell(st.comps, hidden, front, i, j) {
        assert ListCell(st.comps, hidden, list, end, j);
      }
      rank1 := CloseList(st, front, i, hidden, rank2);
    }
  }
}
