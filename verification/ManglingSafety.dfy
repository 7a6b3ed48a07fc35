/** Every production of the parser keeps the links between components going down: by induction
    over the run of the parser. */
module ManglingSafety {
  import opened Wrappers
  import opened Components
  import opened Mangling
  import opened ManglingGraph

  // ---- Steps that do not touch a link ----

  lemma Unlinked(st: State, st1: State, hidden: set<int>, rank: seq<nat>)
    requires Good(st, hidden, rank) && st1.comps == st.comps && st1.subs == st.subs
    ensures Good(st1, hidden, rank) && Kept(st, st1, hidden)
  {
  }

  lemma FailSafe(st: State, st1: State, hidden: set<int>, rank: seq<nat>)
    requires Good(st, hidden, rank) && st1.comps == st.comps && st1.subs == st.subs
    ensures Safe(st, Result(st1, NULL), hidden, rank)
  {
  }

  /** The same components, at another place in the string. */
  lemma MovedSafe(st: State, r: Result, r1: Result, hidden: set<int>, rank: seq<nat>)
    requires Safe(st, r, hidden, rank) && r1.st.comps == r.st.comps && r1.st.subs == r.st.subs
    requires r1.dc == r.dc || r1.dc == NULL
    ensures Safe(st, r1, hidden, rank)
  {
  }

  lemma Then(a: State, b: State, r: Result, hidden: set<int>, rank: seq<nat>)
    requires Kept(a, b, hidden) && Safe(b, r, hidden, rank)
    ensures Safe(a, r, hidden, rank)
  {
  }

  /** A component that was not hidden still is not. */
  lemma StillOk(a: State, b: State, hidden: set<int>, dc: int)
    requires NodeOk(|a.comps|, hidden, dc) && Kept(a, b, hidden)
    ensures NodeOk(|b.comps|, hidden, dc)
  {
  }

  lemma {:induction false} SourceNameSafe(s: CString, st: State, hidden: set<int>, rank: seq<nat>)
    returns (rank1: seq<nat>)
    requires st.n <= |s| && Good(st, hidden, rank)
    ensures Safe(st, SourceName(s, st), hidden, rank1)
  {
    hide Good, Kept, Number, NameText, MakeEmpty;
    var (len, n) := Number(s, st.n, 0);
    if len == 0 || |s| - n < len {
      rank1 := rank;
      FailSafe(st, st.(n := n), hidden, rank);
    } else {
      var st1 := st.(n := n + len);
      Unlinked(st, st1, hidden, rank);
      rank1 := MakeSafe(st1, NameCell(NameText(s[n..n + len])), hidden, rank);
      Then(st, st1, SourceName(s, st), hidden, rank1);
    }
  }

  lemma {:induction false} UnqualifiedNameSafe(s: CString, st: State, hidden: set<int>, rank: seq<nat>)
    returns (rank1: seq<nat>)
    requires st.n <= |s| && Good(st, hidden, rank)
    ensures Safe(st, UnqualifiedName(s, st), hidden, rank1)
  {
    hide Good, Kept, SourceName;
    if !IsDigit(Peek(s, st.n)) {
      rank1 := rank;
      FailSafe(st, st, hidden, rank);
    } else {
      rank1 := SourceNameSafe(s, st, hidden, rank);
      MovedSafe(st, SourceName(s, st), UnqualifiedName(s, st), hidden, rank1);
    }
  }

  lemma {:induction false} MakeStandardSafe(st: State, sub: Standard, verbose: bool, hidden: set<int>, rank: seq<nat>)
    returns (rank1: seq<nat>)
    requires Good(st, hidden, rank)
    ensures Safe(st, MakeStandard(st, sub, verbose), hidden, rank1)
  {
    hide Good, Kept, MakeEmpty;
    var cell := SubCell(if verbose then sub.full else sub.simple);
    if sub.lastName.Some? {
      var name := MakeEmpty(st, SubCell(sub.lastName.value));
      var rank2 := MakeSafe(st, SubCell(sub.lastName.value), hidden, rank);
      rank1 := MakeSafe(name.st, cell, hidden, rank2);
      Then(st, name.st, MakeEmpty(name.st, cell), hidden, rank1);
    } else {
      rank1 := MakeSafe(st, cell, hidden, rank);
    }
  }

  lemma {:induction false} SubstitutionSafe(s: CString, st: State, prefix: bool, hidden: set<int>, rank: seq<nat>)
    returns (rank1: seq<nat>)
    requires st.n <= |s| && Good(st, hidden, rank)
    ensures Safe(st, Substitution(s, st, prefix), hidden, rank1)
  {
    hide SeqId, StandardSub, MakeStandard, CellOk;
    rank1 := rank;
    var c := Peek(s, st.n + 1);
    if Peek(s, st.n) == 'S' && c != '_' && !IsDigit(c) && !IsUpper(c) && StandardSub(c).Some? {
      var st1 := Advance(st, if c == '\0' then 1 else 2);
      Unlinked(st, st1, hidden, rank);
      rank1 := MakeStandardSafe(st1, StandardSub(c).value, prefix && Peek(s, st1.n) in "CD", hidden, rank);
      Then(st, st1, Substitution(s, st, prefix), hidden, rank1);
    }
  }

  lemma {:induction false} RefQualifierSafe(s: CString, st: State, sub: int, hidden: set<int>, rank: seq<nat>)
    returns (rank1: seq<nat>)
    requires Good(st, hidden, rank) && NodeOk(|st.comps|, hidden, sub)
    ensures Safe(st, RefQualifier(s, st, sub), hidden, rank1)
  {
    hide Good, Kept;
    var c := Peek(s, st.n);
    var st1 := Advance(st, 1);
    Unlinked(st, st1, hidden, rank);
    Unlinked(st, st, hidden, rank);
    rank1 := rank;
    if c == 'R' || c == 'O' {
      rank1 := MakeCompSafe(st1, Mod(if c == 'R' then ReferenceThis else RvalueReferenceThis), sub, NULL, hidden, rank);
      Then(st, st1, RefQualifier(s, st, sub), hidden, rank1);
    }
  }

  /** A component made of what has been found so far. */
  lemma {:induction false} JoinSafe(a: State, b: State, tag: Tag, left: int, right: int, hidden: set<int>,
      rank: seq<nat>) returns (rank1: seq<nat>)
    requires Kept(a, b, hidden) && Good(b, hidden, rank) && NodeOk(|b.comps|, hidden, left)
      && NodeOk(|b.comps|, hidden, right)
    ensures Safe(a, MakeComp(b, tag, left, right), hidden, rank1)
  {
    hide Good, Kept, MakeComp;
    rank1 := MakeCompSafe(b, tag, left, right, hidden, rank);
    Then(a, b, MakeComp(b, tag, left, right), hidden, rank1);
  }

  // ---- What the open components look like meanwhile ----

  lemma {:induction false} ChainKept(st: State, r: State, a: int, b: int, hidden: set<int>)
    requires Chain(st.comps, a, b, NULL) && Kept(st, r, hidden) && Span(a, b) <= hidden
    ensures Chain(r.comps, a, b, NULL)
  {
    forall i | a <= i < b
      ensures r.comps[i].Link? && r.comps[i].right == NULL && r.comps[i].left == if i + 1 < b then i + 1 else NULL {
      assert i in hidden;
    }
  }

  lemma KeptLess(a: State, b: State, c: State, hidden: set<int>, open: set<int>)
    requires Kept(a, b, hidden) && Kept(b, c, open) && hidden <= open
    ensures Kept(a, c, hidden)
  {
  }

  /** A ref-qualifier whose operand is still open. */
  lemma {:induction false} OpenRefQualifier(s: CString, st: State, hidden: set<int>, rank: seq<nat>)
    returns (rank1: seq<nat>)
    requires Good(st, hidden, rank)
    ensures
      var r := RefQualifier(s, st, NULL);
      var above := if r.dc == NULL then {} else {r.dc};
      && (r.dc == NULL || (r.dc == |st.comps| < |r.st.comps| && r.st.comps[r.dc].Link?
                           && r.st.comps[r.dc].left == r.st.comps[r.dc].right == NULL))
      && Good(r.st, hidden + above, rank1) && Kept(st, r.st, hidden) && r.dc !in hidden
      && st.n <= r.st.n && (st.n <= |s| ==> r.st.n <= |s|)
  {
    hide Good;
    var c := Peek(s, st.n);
    rank1 := rank;
    KeptRefl(st, hidden, rank);
    EmptyList(st, hidden);
    assert hidden + {} == hidden;
    InRange(st, hidden, [], rank);
    if c == 'R' || c == 'O' {
      var st1 := Advance(st, 1);
      Unlinked(st, st1, hidden, rank);
      Hide(st1, Link(Mod(if c == 'R' then ReferenceThis else RvalueReferenceThis), NULL, NULL), hidden, rank);
      rank1 := rank + [0];
    }
  }

  lemma EmptyList(st: State, hidden: set<int>)
    ensures hidden + Members([]) == hidden && List(st.comps, hidden, [], NULL) && FirstOf([]) == LastOf([]) == NULL
  {
  }

  lemma {:induction false} InRange(st: State, hidden: set<int>, list: seq<int>, rank: seq<nat>)
    requires Good(st, hidden + Members(list), rank)
    ensures forall h | h in hidden :: 0 <= h < |st.comps|
    ensures Kept(st, st, hidden)
  {
    assert forall h | h in hidden :: h in hidden + Members(list);
  }

  lemma {:induction false} FirstAndLast(st: State, hidden: set<int>, list: seq<int>)
    requires List(st.comps, hidden, list, NULL)
    ensures list == [] <==> FirstOf(list) < 0
    ensures NULL <= FirstOf(list) && NodeOk(|st.comps|, hidden, FirstOf(list))
      && NodeOk(|st.comps|, hidden, LastOf(list))
    ensures Members([]) == {}
  {
    if list != [] {
      assert ListCell(st.comps, hidden, list, NULL, 0) && ListCell(st.comps, hidden, list, NULL, |list| - 1);
    }
  }

  lemma {:induction false} FinishSafe(st: State, first: int, hidden: set<int>, rank: seq<nat>)
    requires Good(st, hidden, rank) && NodeOk(|st.comps|, hidden, first)
    ensures Safe(st, FinishParameters(st, first), hidden, rank)
  {
    hide Good;
    KeptRefl(st, hidden, rank);
    if first >= 0 {
      DropLeft(st, first, hidden, rank);
    }
  }

  lemma MakeEmptyMoves(st: State, cell: Cell)
    ensures MakeEmpty(st, cell).st.n == st.n
  {
  }

  lemma RegisteredKeeps(r: Result)
    requires r.dc >= 0
    ensures AddSubstitution(r).st.n == r.st.n && AddSubstitution(r).dc == r.dc
      && AddSubstitution(r).st.comps == r.st.comps
  {
  }

  // ---- The productions ----

  lemma {:induction false} TypeSafe(s: CString, st: State, hidden: set<int>, rank: seq<nat>) returns (rank1: seq<nat>)
    requires st.n <= |s| && Good(st, hidden, rank)
    ensures Safe(st, Type(s, st), hidden, rank1)
    decreases |s| - st.n, 3
  {
    hide Good, Kept, PlainType, SubstitutedType, QualifiedType, MakeEmpty, AddSubstitution;
    var c := Peek(s, st.n);
    if IsQualifier(c) {
      rank1 := QualifiedTypeSafe(s, st, hidden, rank);
    } else if IsBuiltin(c) {
      rank1 := MakeSafe(st, BuiltinCell(c), hidden, rank);
      MovedSafe(st, MakeEmpty(st, BuiltinCell(c)), Type(s, st), hidden, rank1);
    } else if c == 'S' {
      rank1 := SubstitutedTypeSafe(s, st, hidden, rank);
    } else {
      rank1 := PlainTypeSafe(s, st, hidden, rank);
      RegisterSafe(st, PlainType(s, st), hidden, rank1);
    }
  }

  lemma {:induction false} QualifiedTypeSafe(s: CString, st: State, hidden: set<int>, rank: seq<nat>)
    returns (rank1: seq<nat>)
    requires st.n <= |s| && Good(st, hidden, rank) && IsQualifier(Peek(s, st.n))
    ensures Safe(st, QualifiedType(s, st), hidden, rank1)
    decreases |s| - st.n, 2
  {
    hide Good, Type, FunctionOf, CloseQualifiers, QualifierChain;
    var q := CvQualifiers(s, st, false);
    var a, b := |st.comps|, |q.comps|;
    var open := hidden + Span(a, b);
    var rank2 := OpenQualifiers(s, st, false, hidden, rank);
    var r := if Peek(s, q.n) == 'F' then FunctionOf(s, q) else Type(s, q);
    if Peek(s, q.n) == 'F' {
      rank2 := FunctionOfSafe(s, q, open, rank2);
    } else {
      rank2 := TypeSafe(s, q, open, rank2);
    }
    ChainKept(q, r.st, a, b, open);
    rank1 := CloseQualifiersSafe(q, r, a, b, hidden, rank2);
    Then(st, q, QualifiedType(s, st), hidden, rank1);
  }

  lemma {:induction false} PlainTypeSafe(s: CString, st: State, hidden: set<int>, rank: seq<nat>)
    returns (rank1: seq<nat>)
    requires st.n <= |s| && Good(st, hidden, rank)
    ensures Safe(st, PlainType(s, st), hidden, rank1)
    decreases |s| - st.n, 2
  {
    hide Good, Kept, SourceName, FunctionOf, NameOf, ArrayOf, PointerToMember, Type, MakeComp;
    var c := Peek(s, st.n);
    var next := Advance(st, 1);
    Unlinked(st, next, hidden, rank);
    if c == 'u' {
      rank1 := SourceNameSafe(s, next, hidden, rank);
      var name := SourceName(s, next);
      Then(st, next, name, hidden, rank1);
      rank1 := JoinSafe(st, name.st, VendorType, name.dc, NULL, hidden, rank1);
    } else if c == 'F' {
      rank1 := FunctionOfSafe(s, st, hidden, rank);
    } else if IsDigit(c) || c == 'N' {
      rank1 := NameOfSafe(s, st, hidden, rank);
    } else if c == 'A' {
      rank1 := ArrayOfSafe(s, st, hidden, rank);
    } else if c == 'M' {
      rank1 := PointerToMemberSafe(s, st, hidden, rank);
    } else if IsPrefix(c) {
      rank1 := TypeSafe(s, next, hidden, rank);
      var sub := Type(s, next);
      Then(st, next, sub, hidden, rank1);
      rank1 := JoinSafe(st, sub.st, Mod(PrefixKind(c)), sub.dc, NULL, hidden, rank1);
    } else if c == 'U' {
      rank1 := SourceNameSafe(s, next, hidden, rank);
      var name := SourceName(s, next);
      Then(st, next, name, hidden, rank1);
      rank1 := TypeSafe(s, name.st, hidden, rank1);
      var sub := Type(s, name.st);
      Then(st, name.st, sub, hidden, rank1);
      StillOk(name.st, sub.st, hidden, name.dc);
      rank1 := JoinSafe(st, sub.st, VendorTypeQual, sub.dc, name.dc, hidden, rank1);
    } else {
      rank1 := rank;
      FailSafe(st, st, hidden, rank);
    }
  }

  lemma {:induction false} SubstitutedTypeSafe(s: CString, st: State, hidden: set<int>, rank: seq<nat>)
    returns (rank1: seq<nat>)
    requires st.n <= |s| && Good(st, hidden, rank) && Peek(s, st.n) == 'S'
    ensures Safe(st, SubstitutedType(s, st), hidden, rank1)
    decreases |s| - st.n, 2
  {
    hide Good, Kept, Substitution, WithArguments, NameOf, AddSubstitution;
    var c := Peek(s, st.n + 1);
    if IsDigit(c) || c == '_' || IsUpper(c) {
      rank1 := SubstitutionSafe(s, st, false, hidden, rank);
      var sub := Substitution(s, st, false);
      if Peek(s, sub.st.n) == 'I' {
        rank1 := WithArgumentsSafe(s, sub.st, sub.dc, hidden, rank1);
        Then(st, sub.st, WithArguments(s, sub.st, sub.dc), hidden, rank1);
        RegisterSafe(st, WithArguments(s, sub.st, sub.dc), hidden, rank1);
      }
    } else {
      rank1 := NameOfSafe(s, st, hidden, rank);
      RegisterSafe(st, NameOf(s, st), hidden, rank1);
    }
  }

  lemma {:induction false} WithArgumentsSafe(s: CString, st: State, dc: int, hidden: set<int>, rank: seq<nat>)
    returns (rank1: seq<nat>)
    requires st.n <= |s| && Good(st, hidden, rank) && NodeOk(|st.comps|, hidden, dc)
    ensures Safe(st, WithArguments(s, st, dc), hidden, rank1)
    decreases |s| - st.n, 1, 0
  {
    hide Good, Kept, TemplateArgs, MakeComp;
    var args := TemplateArgs(s, st);
    rank1 := TemplateArgsSafe(s, st, hidden, rank);
    StillOk(st, args.st, hidden, dc);
    rank1 := JoinSafe(st, args.st, TemplateId, dc, args.dc, hidden, rank1);
  }

  lemma {:induction false} FunctionOfSafe(s: CString, st: State, hidden: set<int>, rank: seq<nat>)
    returns (rank1: seq<nat>)
    requires st.n <= |s| && Good(st, hidden, rank)
    ensures Safe(st, FunctionOf(s, st), hidden, rank1)
    decreases |s| - st.n, 1
  {
    hide Good, Kept, BareFunction, RefQualifier;
    if Peek(s, st.n) != 'F' {
      rank1 := rank;
      FailSafe(st, st, hidden, rank);
    } else {
      var st1 := Advance(st, if Peek(s, st.n + 1) == 'Y' then 2 else 1);
      Unlinked(st, st1, hidden, rank);
      var fn := BareFunction(s, st1, true);
      rank1 := BareFunctionSafe(s, st1, true, hidden, rank);
      Then(st, st1, fn, hidden, rank1);
      rank1 := RefQualifierSafe(s, fn.st, fn.dc, hidden, rank1);
      var r := RefQualifier(s, fn.st, fn.dc);
      Then(st, fn.st, r, hidden, rank1);
      MovedSafe(st, r, FunctionOf(s, st), hidden, rank1);
    }
  }

  lemma {:induction false} BareFunctionSafe(s: CString, st: State, hasReturn: bool, hidden: set<int>, rank: seq<nat>)
    returns (rank1: seq<nat>)
    requires st.n <= |s| && Good(st, hidden, rank)
    ensures Safe(st, BareFunction(s, st, hasReturn), hidden, rank1)
    decreases |s| - st.n, 5
  {
    hide Good, Kept, Type, Parameters, MakeComp;
    var st1 := if Peek(s, st.n) == 'J' then Advance(st, 1) else st;
    Unlinked(st, st1, hidden, rank);
    if hasReturn || Peek(s, st.n) == 'J' {
      var ret := Type(s, st1);
      rank1 := TypeSafe(s, st1, hidden, rank);
      Then(st, st1, ret, hidden, rank1);
      if ret.dc >= 0 {
        var args := Parameters(s, ret.st, NULL, NULL);
        EmptyList(ret.st, hidden);
        rank1 := ParametersSafe(s, ret.st, [], hidden, rank1);
        Then(st, ret.st, args, hidden, rank1);
        StillOk(ret.st, args.st, hidden, ret.dc);
        if args.dc >= 0 {
          rank1 := JoinSafe(st, args.st, FunctionTag, ret.dc, args.dc, hidden, rank1);
        }
      }
    } else {
      var args := Parameters(s, st1, NULL, NULL);
      EmptyList(st1, hidden);
      rank1 := ParametersSafe(s, st1, [], hidden, rank);
      Then(st, st1, args, hidden, rank1);
      if args.dc >= 0 {
        rank1 := JoinSafe(st, args.st, FunctionTag, NULL, args.dc, hidden, rank1);
      }
    }
  }

  lemma {:induction false} ParametersSafe(s: CString, st: State, list: seq<int>, hidden: set<int>, rank: seq<nat>)
    returns (rank1: seq<nat>)
    requires st.n <= |s| && Good(st, hidden + Members(list), rank) && List(st.comps, hidden, list, NULL)
      && NULL <= FirstOf(list)
    ensures Safe(st, Parameters(s, st, FirstOf(list), LastOf(list)), hidden, rank1)
    decreases |s| - st.n, 4
  {
    hide Good, Type, FinishParameters, List, Members;
    InRange(st, hidden, list, rank);
    FirstAndLast(st, hidden, list);
    var open := hidden + Members(list);
    if EndOfParameters(s, st.n) {
      rank1 := CloseList(st, list, NULL, hidden, rank);
      FinishSafe(st, FirstOf(list), hidden, rank1);
    } else {
      var type_ := Type(s, st);
      var rank2 := TypeSafe(s, st, open, rank);
      ListKept(st, type_.st, hidden, list);
      if type_.dc < 0 {
        rank1 := CloseList(type_.st, list, NULL, hidden, rank2);
      } else {
        var st1 := MakeEmpty(type_.st, Link(ArgumentList, type_.dc, NULL)).st;
        var st2 := if list == [] then st1 else SetRight(st1, LastOf(list), |type_.st.comps|);
        rank2 := AppendSafe(type_.st, ArgumentList, type_.dc, list, hidden, rank2);
        KeptTrans(st, type_.st, st2, hidden);
        rank1 := ParametersSafe(s, st2, list + [|type_.st.comps|], hidden, rank2);
        Then(st, st2, Parameters(s, st, FirstOf(list), LastOf(list)), hidden, rank1);
      }
    }
  }

  lemma {:induction false} ArrayOfSafe(s: CString, st: State, hidden: set<int>, rank: seq<nat>)
    returns (rank1: seq<nat>)
    requires st.n <= |s| && Good(st, hidden, rank)
    ensures Safe(st, ArrayOf(s, st), hidden, rank1)
    decreases |s| - st.n, 1
  {
    hide Good, Kept, Type, MakeComp, Number, MakeEmpty;
    var c := Peek(s, st.n + 1);
    rank1 := rank;
    Unlinked(st, st, hidden, rank);
    if Peek(s, st.n) == 'A' && (c == '_' || IsDigit(c)) {
      var (_, n) := Number(s, st.n + 1, 0);
      var dim := if c == '_' then Result(Advance(st, 1), NULL) else MakeEmpty(st.(n := n), NameCell(s[st.n + 1..n]));
      Unlinked(st, Advance(st, 1), hidden, rank);
      Unlinked(st, st.(n := n), hidden, rank);
      if c != '_' {
        MakeEmptyMoves(st.(n := n), NameCell(s[st.n + 1..n]));
      }
      if c != '_' {
        rank1 := MakeSafe(st.(n := n), NameCell(s[st.n + 1..n]), hidden, rank);
        Then(st, st.(n := n), dim, hidden, rank1);
      }
      var next := Advance(dim.st, 1);
      Unlinked(dim.st, next, hidden, rank1);
      FailSafe(st, st, hidden, rank);
      if Peek(s, dim.st.n) != '_' {
        MovedSafe(st, dim, Result(dim.st, NULL), hidden, rank1);
      } else {
        var element := Type(s, next);
        KeptTrans(st, dim.st, next, hidden);
        rank1 := TypeSafe(s, next, hidden, rank1);
        Then(st, next, element, hidden, rank1);
        StillOk(next, element.st, hidden, dim.dc);
        rank1 := JoinSafe(st, element.st, Array, dim.dc, element.dc, hidden, rank1);
      }
    } else {
      FailSafe(st, ArrayOf(s, st).st, hidden, rank);
    }
  }

  lemma {:induction false} PointerToMemberSafe(s: CString, st: State, hidden: set<int>, rank: seq<nat>)
    returns (rank1: seq<nat>)
    requires st.n <= |s| && Good(st, hidden, rank)
    ensures Safe(st, PointerToMember(s, st), hidden, rank1)
    decreases |s| - st.n, 1
  {
    hide Good, Kept, Type, MakeComp;
    if Peek(s, st.n) != 'M' {
      rank1 := rank;
      FailSafe(st, st, hidden, rank);
    } else {
      var next := Advance(st, 1);
      Unlinked(st, next, hidden, rank);
      var cls := Type(s, next);
      rank1 := TypeSafe(s, next, hidden, rank);
      Then(st, next, cls, hidden, rank1);
      if cls.dc >= 0 {
        var member := Type(s, cls.st);
        rank1 := TypeSafe(s, cls.st, hidden, rank1);
        Then(st, cls.st, member, hidden, rank1);
        StillOk(cls.st, member.st, hidden, cls.dc);
        if member.dc >= 0 {
          rank1 := JoinSafe(st, member.st, PtrMemType, cls.dc, member.dc, hidden, rank1);
        }
      }
    }
  }

  lemma {:induction false} NameOfSafe(s: CString, st: State, hidden: set<int>, rank: seq<nat>) returns (rank1: seq<nat>)
    requires st.n <= |s| && Good(st, hidden, rank)
    ensures Safe(st, NameOf(s, st), hidden, rank1)
    decreases |s| - st.n, 1, 2
  {
    hide Good, Kept, NestedName, SubstitutedName, UnscopedTemplate;
    var c := Peek(s, st.n);
    if c == 'N' {
      rank1 := NestedNameSafe(s, st, hidden, rank);
    } else if c == 'S' && Peek(s, st.n + 1) != 't' {
      rank1 := SubstitutedNameSafe(s, st, hidden, rank);
    } else {
      rank1 := UnscopedTemplateSafe(s, st, hidden, rank);
    }
  }

  lemma {:induction false} SubstitutedNameSafe(s: CString, st: State, hidden: set<int>, rank: seq<nat>)
    returns (rank1: seq<nat>)
    requires st.n <= |s| && Good(st, hidden, rank) && Peek(s, st.n) == 'S'
    ensures Safe(st, SubstitutedName(s, st), hidden, rank1)
    decreases |s| - st.n, 1, 1
  {
    hide Good, Kept, Substitution, WithArguments;
    var sub := Substitution(s, st, false);
    rank1 := SubstitutionSafe(s, st, false, hidden, rank);
    if Peek(s, sub.st.n) == 'I' {
      rank1 := WithArgumentsSafe(s, sub.st, sub.dc, hidden, rank1);
      Then(st, sub.st, WithArguments(s, sub.st, sub.dc), hidden, rank1);
    }
  }

  lemma {:induction false} UnscopedTemplateSafe(s: CString, st: State, hidden: set<int>, rank: seq<nat>)
    returns (rank1: seq<nat>)
    requires st.n <= |s| && Good(st, hidden, rank)
    ensures Safe(st, UnscopedTemplate(s, st), hidden, rank1)
    decreases |s| - st.n, 1, 1
  {
    hide Good, Kept, UnscopedName, WithArguments;
    var name := UnscopedName(s, st);
    rank1 := UnscopedNameSafe(s, st, hidden, rank);
    if Peek(s, name.st.n) == 'I' {
      RegisterSafe(st, name, hidden, rank1);
      var candidate := AddSubstitution(name);
      if candidate.dc >= 0 {
        rank1 := WithArgumentsSafe(s, candidate.st, candidate.dc, hidden, rank1);
        Then(st, candidate.st, WithArguments(s, candidate.st, candidate.dc), hidden, rank1);
      }
    }
  }

  lemma {:induction false} UnscopedNameSafe(s: CString, st: State, hidden: set<int>, rank: seq<nat>)
    returns (rank1: seq<nat>)
    requires st.n <= |s| && Good(st, hidden, rank)
    ensures Safe(st, UnscopedName(s, st), hidden, rank1)
    decreases |s| - st.n, 1, 0
  {
    hide Good, Kept, UnqualifiedName, MakeComp, MakeEmpty;
    if Peek(s, st.n) == 'S' && Peek(s, st.n + 1) == 't' {
      var st1 := Advance(st, 2);
      Unlinked(st, st1, hidden, rank);
      var std := MakeEmpty(st1, NameCell("std"));
      rank1 := MakeSafe(st1, NameCell("std"), hidden, rank);
      Then(st, st1, std, hidden, rank1);
      MakeEmptyMoves(st1, NameCell("std"));
      var name := UnqualifiedName(s, std.st);
      rank1 := UnqualifiedNameSafe(s, std.st, hidden, rank1);
      Then(st, std.st, name, hidden, rank1);
      StillOk(std.st, name.st, hidden, std.dc);
      rank1 := JoinSafe(st, name.st, QualifiedName, std.dc, name.dc, hidden, rank1);
    } else {
      rank1 := UnqualifiedNameSafe(s, st, hidden, rank);
    }
  }

  lemma {:induction false} NestedNameSafe(s: CString, st: State, hidden: set<int>, rank: seq<nat>)
    returns (rank1: seq<nat>)
    requires st.n <= |s| && Good(st, hidden, rank)
    ensures Safe(st, NestedName(s, st), hidden, rank1)
    decreases |s| - st.n, 0
  {
    hide Good, Prefix, CloseNested, QualifierChain, QualifierCount, RefQualifier, CvQualifiers;
    if Peek(s, st.n) != 'N' {
      rank1 := rank;
      FailSafe(st, st, hidden, rank);
    } else {
      var st1 := Advance(st, 1);
      Unlinked(st, st1, hidden, rank);
      var q := CvQualifiers(s, st1, true);
      var a, b := |st.comps|, |q.comps|;
      var ref := RefQualifier(s, q, NULL);
      var above := if ref.dc == NULL then {} else {ref.dc};
      var rank2 := OpenQualifiers(s, st1, true, hidden, rank);
      rank2 := OpenRefQualifier(s, q, hidden + Span(a, b), rank2);
      var prefix := Prefix(s, ref.st, NULL);
      var open := hidden + Span(a, b) + above;
      rank2 := PrefixSafe(s, ref.st, NULL, open, rank2);
      ChainKept(q, ref.st, a, b, hidden + Span(a, b));
      ChainKept(ref.st, prefix.st, a, b, open);
      KeptLess(st, q, ref.st, hidden, hidden + Span(a, b));
      rank1 := CloseNestedSafe(ref.st, prefix, a, b, ref.dc, hidden, rank2);
      var r := if prefix.dc < 0 then Result(prefix.st, NULL) else CloseNested(prefix, a, b - 1, ref.dc);
      Then(st, ref.st, r, hidden, rank1);
      MovedSafe(st, r, NestedName(s, st), hidden, rank1);
    }
  }

  lemma {:induction false} PrefixSafe(s: CString, st: State, ret: int, hidden: set<int>, rank: seq<nat>)
    returns (rank1: seq<nat>)
    requires st.n <= |s| && Good(st, hidden, rank) && NodeOk(|st.comps|, hidden, ret)
    ensures Safe(st, Prefix(s, st, ret), hidden, rank1)
    decreases |s| - st.n, 2, 1
  {
    hide Good, Kept, LongerPrefix, AddSubstitution;
    var c := Peek(s, st.n);
    rank1 := rank;
    Unlinked(st, st, hidden, rank);
    if c == 'E' {
    } else if c == 'M' && ret >= 0 {
      var next := Advance(st, 1);
      Unlinked(st, next, hidden, rank);
      rank1 := PrefixSafe(s, next, ret, hidden, rank);
      Then(st, next, Prefix(s, next, ret), hidden, rank1);
    } else if IsDigit(c) || c == 'S' || (c == 'I' && ret >= 0) {
      var longer := LongerPrefix(s, st, ret);
      rank1 := LongerPrefixSafe(s, st, ret, hidden, rank);
      RegisterSafe(st, longer, hidden, rank1);
      if c == 'S' || Peek(s, longer.st.n) == 'E' {
        rank1 := PrefixSafe(s, longer.st, longer.dc, hidden, rank1);
        Then(st, longer.st, Prefix(s, longer.st, longer.dc), hidden, rank1);
      } else if longer.dc >= 0 {
        var next := AddSubstitution(longer);
        RegisteredKeeps(longer);
        rank1 := PrefixSafe(s, next.st, longer.dc, hidden, rank1);
        Then(st, next.st, Prefix(s, next.st, longer.dc), hidden, rank1);
      } else {
        MovedSafe(st, longer, Result(longer.st, NULL), hidden, rank1);
      }
    }
  }

  lemma {:induction false} LongerPrefixSafe(s: CString, st: State, ret: int, hidden: set<int>, rank: seq<nat>)
    returns (rank1: seq<nat>)
    requires st.n <= |s| && Good(st, hidden, rank) && NodeOk(|st.comps|, hidden, ret)
      && (IsDigit(Peek(s, st.n)) || Peek(s, st.n) in "SI")
    ensures Safe(st, LongerPrefix(s, st, ret), hidden, rank1)
    decreases |s| - st.n, 2, 0
  {
    hide Good, Kept, Substitution, TemplateArgs, UnqualifiedName, MakeComp;
    var part := PrefixPart(s, st);
    if Peek(s, st.n) == 'S' {
      rank1 := SubstitutionSafe(s, st, true, hidden, rank);
    } else if Peek(s, st.n) == 'I' {
      rank1 := TemplateArgsSafe(s, st, hidden, rank);
    } else {
      rank1 := UnqualifiedNameSafe(s, st, hidden, rank);
    }
    if ret >= 0 {
      StillOk(st, part.st, hidden, ret);
      var tag := if Peek(s, st.n) == 'I' then TemplateId else QualifiedName;
      rank1 := JoinSafe(st, part.st, tag, ret, part.dc, hidden, rank1);
    }
  }

  lemma {:induction false} TemplateArgsSafe(s: CString, st: State, hidden: set<int>, rank: seq<nat>)
    returns (rank1: seq<nat>)
    requires st.n <= |s| && Good(st, hidden, rank)
    ensures Safe(st, TemplateArgs(s, st), hidden, rank1)
    decreases |s| - st.n, 0
  {
    hide Good, Kept, MakeComp, Arguments;
    var st1, st2 := Advance(st, 1), Advance(st, 2);
    Unlinked(st, st1, hidden, rank);
    Unlinked(st, st2, hidden, rank);
    if Peek(s, st.n) !in "IJ" {
      rank1 := rank;
      FailSafe(st, st, hidden, rank);
    } else if Peek(s, st.n + 1) == 'E' {
      rank1 := JoinSafe(st, st2, TemplateArgList, NULL, NULL, hidden, rank);
    } else {
      EmptyList(st1, hidden);
      rank1 := ArgumentsSafe(s, st1, [], hidden, rank);
      Then(st, st1, Arguments(s, st1, NULL, NULL), hidden, rank1);
    }
  }

  lemma {:induction false} ArgumentsSafe(s: CString, st: State, list: seq<int>, hidden: set<int>, rank: seq<nat>)
    returns (rank1: seq<nat>)
    requires st.n <= |s| && Good(st, hidden + Members(list), rank) && List(st.comps, hidden, list, NULL)
      && NULL <= FirstOf(list)
    ensures Safe(st, Arguments(s, st, FirstOf(list), LastOf(list)), hidden, rank1)
    decreases |s| - st.n, 5
  {
    hide Good, TemplateArg, List, Members;
    InRange(st, hidden, list, rank);
    FirstAndLast(st, hidden, list);
    var open := hidden + Members(list);
    var arg := TemplateArg(s, st);
    var rank2 := TemplateArgSafe(s, st, open, rank);
    ListKept(st, arg.st, hidden, list);
    if arg.dc < 0 {
      rank1 := CloseList(arg.st, list, NULL, hidden, rank2);
    } else {
      var st1 := MakeEmpty(arg.st, Link(TemplateArgList, arg.dc, NULL)).st;
      var st2 := if list == [] then st1 else SetRight(st1, LastOf(list), |arg.st.comps|);
      var list1 := list + [|arg.st.comps|];
      rank2 := AppendSafe(arg.st, TemplateArgList, arg.dc, list, hidden, rank2);
      KeptTrans(st, arg.st, st2, hidden);
      FirstAndLast(st2, hidden, list1);
      if Peek(s, st2.n) == 'E' {
        rank1 := CloseList(st2, list1, NULL, hidden, rank2);
        MovedSafe(st, Result(st2, FirstOf(list1)), Arguments(s, st, FirstOf(list), LastOf(list)), hidden, rank1);
      } else {
        rank1 := ArgumentsSafe(s, st2, list1, hidden, rank2);
        Then(st, st2, Arguments(s, st, FirstOf(list), LastOf(list)), hidden, rank1);
      }
    }
  }

  lemma {:induction false} TemplateArgSafe(s: CString, st: State, hidden: set<int>, rank: seq<nat>)
    returns (rank1: seq<nat>)
    requires st.n <= |s| && Good(st, hidden, rank)
    ensures Safe(st, TemplateArg(s, st), hidden, rank1)
    decreases |s| - st.n, 4
  {
    hide Good, Kept, TemplateArgs, Type;
    if Peek(s, st.n) in "IJ" {
      rank1 := TemplateArgsSafe(s, st, hidden, rank);
    } else if Peek(s, st.n) in "XL" {
      rank1 := rank;
      FailSafe(st, st, hidden, rank);
    } else {
      rank1 := TypeSafe(s, st, hidden, rank);
    }
  }

  // ---- The whole ----

  /** Links lead from component to component. */
  predicate Linked(comps: seq<Cell>, i: nat, j: nat) {
    i < |comps| && j < |comps| && comps[i].Link? && (comps[i].left == j || comps[i].right == j)
  }

  predicate Path(comps: seq<Cell>, path: seq<nat>) {
    forall k | 0 <= k < |path| - 1 :: Linked(comps, path[k], path[k + 1])
  }

  lemma {:induction false} PathGoesDown(st: State, path: seq<nat>, rank: seq<nat>)
    requires Good(st, {}, rank) && |path| > 1 && Path(st.comps, path)
    ensures path[0] < |rank| && path[|path| - 1] < |rank| && rank[path[|path| - 1]] < rank[path[0]]
    decreases |path|
  {
    assert Linked(st.comps, path[0], path[1]);
    assert CellOk(st.comps, {}, rank, path[0]);
    if |path| > 2 {
      var tail := path[1..];
      forall k | 0 <= k < |tail| - 1 ensures Linked(st.comps, tail[k], tail[k + 1]) {
        assert Linked(st.comps, path[k + 1], path[k + 2]);
      }
      PathGoesDown(st, tail, rank);
    }
  }

  lemma {:induction false} EncodingSafe(s: CString, st: State, hidden: set<int>, rank: seq<nat>)
    returns (rank1: seq<nat>)
    requires st.n <= |s| && Good(st, hidden, rank)
    ensures Safe(st, Encoding(s, st), hidden, rank1)
  {
    hide Good, Kept, NameOf, BareFunction, MakeComp, HasReturnType;
    if Peek(s, st.n) == 'G' || Peek(s, st.n) == 'T' {
      rank1 := rank;
      FailSafe(st, st, hidden, rank);
    } else {
      var name := NameOf(s, st);
      rank1 := NameOfSafe(s, st, hidden, rank);
      if name.dc >= 0 && Peek(s, name.st.n) != '\0' && Peek(s, name.st.n) != 'E' {
        var hasReturn := HasReturnType(name.st.comps, name.dc, 2 * |s|);
        var fn := BareFunction(s, name.st, hasReturn);
        rank1 := BareFunctionSafe(s, name.st, hasReturn, hidden, rank1);
        Then(st, name.st, fn, hidden, rank1);
        StillOk(name.st, fn.st, hidden, name.dc);
        rank1 := JoinSafe(st, fn.st, TypedName, name.dc, fn.dc, hidden, rank1);
      }
    }
  }

  lemma {:induction false} MangledNameSafe(s: CString, st: State, hidden: set<int>, rank: seq<nat>)
    returns (rank1: seq<nat>)
    requires st.n <= |s| && Good(st, hidden, rank)
    ensures Safe(st, MangledName(s, st), hidden, rank1)
  {
    hide Good, Kept, Encoding;
    if Peek(s, st.n) != '_' {
      rank1 := rank;
      FailSafe(st, st, hidden, rank);
    } else if Peek(s, st.n + 1) != 'Z' {
      rank1 := rank;
      Unlinked(st, Advance(st, 1), hidden, rank);
      FailSafe(st, Advance(st, 1), hidden, rank);
    } else {
      Unlinked(st, Advance(st, 2), hidden, rank);
      rank1 := EncodingSafe(s, Advance(st, 2), hidden, rank);
      Then(st, Advance(st, 2), MangledName(s, st), hidden, rank1);
    }
  }

  /** A whole string, taken as a mangled name or as a mangled type. */
  function Parse(s: CString, isName: bool): Result {
    if isName then MangledName(s, State(0, [], [])) else Type(s, State(0, [], []))
  }

  lemma {:induction false} ParseSafe(s: CString, isName: bool) returns (rank: seq<nat>)
    ensures Safe(State(0, [], []), Parse(s, isName), {}, rank)
  {
    hide Type, MangledName;
    var start := State(0, [], []);
    if isName {
      rank := MangledNameSafe(s, start, {}, []);
    } else {
      rank := TypeSafe(s, start, {}, []);
    }
  }

  /** Whatever the string, and whether or not it is a mangled name or type: no path of links leads
      back to where it started. */
  lemma {:induction false} NoCycles(s: CString, isName: bool, path: seq<nat>)
    requires |path| > 1 && Path(Parse(s, isName).st.comps, path)
    ensures path[0] != path[|path| - 1]
  {
    hide Parse;
    var rank := ParseSafe(s, isName);
    PathGoesDown(Parse(s, isName).st, path, rank);
  }

  /** And every link, every substitution and the result are null or components that were made. */
  lemma {:induction false} NothingDangles(s: CString, isName: bool)
    ensures
      var r := Parse(s, isName);
      && NULL <= r.dc < |r.st.comps|
      && (forall k | 0 <= k < |r.st.subs| :: r.st.subs[k] < |r.st.comps|)
      && forall i | 0 <= i < |r.st.comps| && r.st.comps[i].Link? ::
           NULL <= r.st.comps[i].left < |r.st.comps| && NULL <= r.st.comps[i].right < |r.st.comps|
  {
    hide Parse;
    var rank := ParseSafe(s, isName);
    var st := Parse(s, isName).st;
    forall i | 0 <= i < |st.comps| && st.comps[i].Link?
      ensures NULL <= st.comps[i].left < |st.comps| && NULL <= st.comps[i].right < |st.comps| {
      assert CellOk(st.comps, {}, rank, i);
    }
  }

  // ---- The bound on the links that are followed ----

  ghost function UpTo(n: nat): (r: set<nat>)
    ensures |r| == n && forall j: nat :: j in r <==> j < n
  {
    if n == 0 then {} else UpTo(n - 1) + {n - 1}
  }

  /** The components that are not above `i`. */
  ghost function NotAbove(rank: seq<nat>, i: nat): set<nat>
    requires i < |rank|
  {
    set j: nat | j in UpTo(|rank|) && rank[j] <= rank[i]
  }

  lemma {:induction false} FuelSuffices(st: State, rank: seq<nat>, i: int, f: nat, g: nat)
    requires Good(st, {}, rank) && (0 <= i < |st.comps| ==> |NotAbove(rank, i)| <= f) && f <= g
    ensures HasReturnType(st.comps, i, f) == HasReturnType(st.comps, i, g)
    decreases g
  {
    if 0 <= i < |st.comps| && st.comps[i].Link? {
      assert CellOk(st.comps, {}, rank, i) && i in NotAbove(rank, i);
      var next := st.comps[i].left;
      assert f > 0 by {
        assert |NotAbove(rank, i)| > 0;
      }
      if 0 <= next {
        assert NotAbove(rank, next) <= NotAbove(rank, i) - {i};
        Smaller(NotAbove(rank, next), NotAbove(rank, i), i);
      }
      FuelSuffices(st, rank, next, f - 1, g - 1);
    }
  }

  lemma {:induction false} Smaller(a: set<nat>, b: set<nat>, i: nat)
    requires i in b && a <= b - {i}
    ensures |a| < |b|
  {
    Within(a, b - {i});
  }

  lemma {:induction false} Within(a: set<nat>, b: set<nat>)
    requires a <= b
    ensures |a| <= |b|
  {
    if a != {} {
      var x :| x in a;
      Within(a - {x}, b - {x});
    }
  }

  /** To follow more links than there can be components changes nothing. */
  lemma {:induction false} FuelEnough(s: CString, isName: bool, i: int, g: nat)
    requires g >= 2 * |s|
    ensures
      var comps := Parse(s, isName).st.comps;
      HasReturnType(comps, i, 2 * |s|) == HasReturnType(comps, i, g)
  {
    hide HasReturnType, Type, MangledName;
    var rank := ParseSafe(s, isName);
    var st := Parse(s, isName).st;
    assert |st.comps| <= 2 * |s| by {
      assert Frugal(s, State(0, [], []), Type(s, State(0, [], [])), 1, 0);
      assert Frugal(s, State(0, [], []), MangledName(s, State(0, [], [])), 0, 0);
    }
    if 0 <= i < |st.comps| {
      Within(NotAbove(rank, i), UpTo(|rank|));
    }
    FuelSuffices(st, rank, i, 2 * |s|, g);
  }
}
