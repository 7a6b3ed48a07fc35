/** Reading a type back: whatever type is encoded, wherever it stands in a name, the parser comes
    to its end, makes components that denote it, and registers the candidates in it. */
module MangledTypesRead {
  import opened Wrappers
  import opened Components
  import opened Mangling
  import opened MangledTypes
  import opened MangledTypesSteps
  import opened Bytes
  import opened SubstitutionDictionary

  // ---- The induction ----

  /** Every type, wherever it stands, is read back: the parser stops at its end, the component it
      returns denotes the type, and the candidates in it are registered, in their order.  (A name must
      not be followed by template arguments or a tag, which would belong to it.) */
  lemma {:induction false} TypeRead(s: CString, st: State, t: Ty)
    requires WellFormed(t) && Reads(s, st.n, Mangle(t)) && Peek(s, st.n + |Mangle(t)|) != 'I'
      && Peek(s, st.n + |Mangle(t)|) != 'B'
    ensures Parsed(st, Type(s, st), |Mangle(t)|, TreeOf(t), Candidates(t))
    decreases |Mangle(t)|, 1
  {
    hide *;
    HeadOf(t);
    ReadsBound(s, st.n, Mangle(t));
    if t.Letter? {
      LetterRead(s, st, t);
    } else if t.Prefixed? {
      PrefixedRead(s, st, t);
    } else if t.Qualified? {
      QualifiedRead(s, st, t);
    } else if t.Func? {
      FunctionAlone(s, st, t);
    } else if t.Member? {
      MemberRead(s, st, t);
    } else if t.ArrayOfTy? {
      ArrayRead(s, st, t);
    } else if t.Named? {
      NameRead(s, st, t);
    } else if t.TemplateOf? {
      TemplateRead(s, st, t);
    } else {
      ScopedRead(s, st, t);
    }
  }

  lemma ParsedUnfold(st: State, r: Result, length: nat, c: Component, cs: seq<Component>)
    ensures Parsed(st, r, length, c, cs) <==> ParsedFrom(|st.comps|, st, r, length, c, cs)
  {
    hide ParsedFrom;
  }

  lemma {:induction false} LetterRead(s: CString, st: State, t: Ty)
    requires t.Letter? && WellFormed(t) && Reads(s, st.n, Mangle(t))
    ensures Parsed(st, Type(s, st), |Mangle(t)|, TreeOf(t), Candidates(t))
  {
    hide BuiltinName;
    ReadsAt(s, st.n, Mangle(t), 0);
  }

  lemma {:induction false} NameRead(s: CString, st: State, t: Ty)
    requires t.Named? && WellFormed(t) && Reads(s, st.n, Mangle(t)) && Peek(s, st.n + |Mangle(t)|) != 'I'
      && Peek(s, st.n + |Mangle(t)|) != 'B'
    ensures Parsed(st, Type(s, st), |Mangle(t)|, TreeOf(t), Candidates(t))
  {
    hide *;
    NameForms(t);
    var lo, root, k := |st.comps|, t.root, |MangleRoot(t.root)|;
    RootRead(s, st, root);
    var r := RootMade(s, st, root);
    ParsedEnd(st, r, k, RootTree(root), []);
    ReadsInside(s, st.n, MangleRoot(root));
    RootIsType(s, st, root);
    RootParsed(st, r, k, root);
  }

  lemma NameForms(t: Ty)
    requires t.Named? && WellFormed(t)
    ensures IsRoot(t.root) && Mangle(t) == MangleRoot(t.root) && TreeOf(t) == RootTree(t.root)
    ensures Candidates(t) == RootCandidates(t.root)
  {
    hide IsRoot, MangleRoot, RootTree, RootCandidates;
  }

  lemma {:induction false} RootParsed(st: State, r: Result, k: nat, root: Root)
    requires Parsed(st, r, k, RootTree(root), [])
    ensures Parsed(st, RootRegistered(root, r), k, RootTree(root), RootCandidates(root))
  {
    hide RootTree, Denotes, Registered, AddSubstitution;
    if !root.Standard? {
      ParsedRegistered(|st.comps|, st, r, k, RootTree(root), []);
      assert [] + [RootTree(root)] == [RootTree(root)];
    }
  }

  lemma {:induction false} PrefixedRead(s: CString, st: State, t: Ty)
    requires t.Prefixed? && WellFormed(t) && Reads(s, st.n, Mangle(t)) && Peek(s, st.n + |Mangle(t)|) != 'I'
      && Peek(s, st.n + |Mangle(t)|) != 'B'
    ensures Parsed(st, Type(s, st), |Mangle(t)|, TreeOf(t), Candidates(t))
    decreases |Mangle(t)|, 0
  {
    hide *;
    PrefixedParts(s, st, t);
    TypeRead(s, Advance(st, 1), t.sub);
    var sub := Type(s, Advance(st, 1));
    PrefixedStep(s, st, t.prefix);
    ModifierParsed(st, sub, |Mangle(t.sub)|, PrefixKind(t.prefix), TreeOf(t.sub), Candidates(t.sub));
  }

  lemma {:induction false} PrefixedParts(s: CString, st: State, t: Ty)
    requires t.Prefixed? && WellFormed(t) && Reads(s, st.n, Mangle(t))
    ensures WellFormed(t.sub) && IsPrefix(t.prefix) && TreeOf(t) == Modifier(PrefixKind(t.prefix), TreeOf(t.sub))
    ensures Candidates(t) == Candidates(t.sub) + [TreeOf(t)] && |Mangle(t)| == 1 + |Mangle(t.sub)|
    ensures st.n < |s| && Peek(s, st.n) == t.prefix && Advance(st, 1).n == st.n + 1
      && Reads(s, st.n + 1, Mangle(t.sub))
  {
    hide IsPrefix, PrefixKind, Peek, BuiltinName, Decimal, QualifiedTree, NameText, MangleAll, TreesOf, Reads;
    ReadsSplit(s, st.n, [t.prefix], Mangle(t.sub));
    ReadsBound(s, st.n, [t.prefix]);
  }

  lemma {:induction false} QualifiedRead(s: CString, st: State, t: Ty)
    requires t.Qualified? && WellFormed(t) && Reads(s, st.n, Mangle(t)) && Peek(s, st.n + |Mangle(t)|) != 'I'
      && Peek(s, st.n + |Mangle(t)|) != 'B'
    ensures Parsed(st, Type(s, st), |Mangle(t)|, TreeOf(t), Candidates(t))
    decreases |Mangle(t)|, 0
  {
    hide *;
    QualifiedParts(s, st, t);
    QualifiedStep(s, st);
    var q, base, start := t.qualifiers, t.base, CvQualifiers(s, st, false);
    if base.Func? {
      FunctionRead(s, start, base);
      var fn, m := BareFunction(s, Inner(s, start), true), |Mangle(base)| - |RefLetter(base.ref)| - 1;
      RefQualifiersParsed(s, st, q, fn, m, FunctionTree(base), InsideFunction(base), base.ref);
    } else {
      TypeRead(s, start, base);
      ParsedIsNoRefThis(base, start, Type(s, start), Candidates(base));
      QualifiersParsed(s, st, q, false, Type(s, start), |Mangle(base)|, TreeOf(base), Candidates(base));
    }
  }

  lemma {:induction false} QualifiedParts(s: CString, st: State, t: Ty)
    requires t.Qualified? && WellFormed(t) && Reads(s, st.n, Mangle(t))
    ensures WellFormed(t.base) && !t.base.Qualified? && t.qualifiers != "" && AllQualifiers(t.qualifiers)
    ensures TreeOf(t) ==
      if t.base.Func? then RefTree(t.base.ref, QualifiedTree(t.qualifiers, true, FunctionTree(t.base)))
      else QualifiedTree(t.qualifiers, false, TreeOf(t.base))
    ensures t.base.Func? ==> FunctionTree(t.base).Function?
    ensures Candidates(t) ==
      (if t.base.Func? then InsideFunction(t.base) else Candidates(t.base)) + [TreeOf(t)]
    ensures |Mangle(t)| == |t.qualifiers| + |Mangle(t.base)|
    ensures
      var n := st.n + |t.qualifiers|;
      && st.n < |s| && IsQualifier(Peek(s, st.n)) && Reads(s, st.n, t.qualifiers) && Reads(s, n, Mangle(t.base))
        && n <= |s|
      && !IsQualifier(Peek(s, n)) && (Peek(s, n) == 'F' <==> t.base.Func?) && CvQualifiers(s, st, false).n == n
  {
    hide *;
    QualifiedForms(t);
    var q, m := t.qualifiers, Mangle(t.base);
    ReadsSplit(s, st.n, q, m);
    FirstIsF(t.base);
    ReadsAt(s, st.n + |q|, m, 0);
    ReadsAt(s, st.n, q, 0);
    ReadsBound(s, st.n, q);
    ReadsInside(s, st.n + |q|, m);
    QualifiersCounted(s, st.n, q);
    CountedState(s, st);
  }

  lemma CountedState(s: CString, st: State)
    ensures CvQualifiers(s, st, false).n == st.n + QualifierCount(s, st.n)
  {
  }

  lemma {:induction false} QualifiedForms(t: Ty)
    requires t.Qualified? && WellFormed(t)
    ensures WellFormed(t.base) && !t.base.Qualified? && t.qualifiers != "" && AllQualifiers(t.qualifiers)
    ensures IsQualifier(t.qualifiers[0]) && Mangle(t) == t.qualifiers + Mangle(t.base)
    ensures TreeOf(t) ==
      if t.base.Func? then RefTree(t.base.ref, QualifiedTree(t.qualifiers, true, FunctionTree(t.base)))
      else QualifiedTree(t.qualifiers, false, TreeOf(t.base))
    ensures t.base.Func? ==> FunctionTree(t.base).Function?
    ensures Candidates(t) ==
      (if t.base.Func? then InsideFunction(t.base) else Candidates(t.base)) + [TreeOf(t)]
  {
    hide BuiltinName, Decimal, QualifiedTree, NameText, IsQualifier, RefTree;
    hide RootTree, NestedTree, ScopeCandidates, RootCandidates, FunctionLetters, RefLetter;
    var q := t.qualifiers;
    forall i | 0 <= i < |q| ensures IsQualifier(q[i]) {
      assert q[i] in q;
    }
  }

  lemma {:induction false} ParsedIsNoRefThis(t: Ty, st: State, r: Result, cs: seq<Component>)
    requires WellFormed(t) && !t.Qualified? && !t.Func? && Parsed(st, r, |Mangle(t)|, TreeOf(t), cs)
    ensures !IsRefThis(r.st, r.dc)
  {
    hide Denotes;
    NoRefThis(t, r.st, |st.comps|, r.dc);
  }

  lemma {:induction false} MemberRead(s: CString, st: State, t: Ty)
    requires t.Member? && WellFormed(t) && Reads(s, st.n, Mangle(t)) && Peek(s, st.n + |Mangle(t)|) != 'I'
      && Peek(s, st.n + |Mangle(t)|) != 'B'
    ensures Parsed(st, Type(s, st), |Mangle(t)|, TreeOf(t), Candidates(t))
    decreases |Mangle(t)|, 0
  {
    hide *;
    MemberParts(s, st, t);
    var m, n, next := Mangle(t.cls), Mangle(t.member), Advance(st, 1);
    var cls := Type(s, next);
    TypeRead(s, next, t.cls);
    ParsedEnd(next, cls, |m|, TreeOf(t.cls), Candidates(t.cls));
    TypeRead(s, cls.st, t.member);
    ParsedEnd(cls.st, Type(s, cls.st), |n|, TreeOf(t.member), Candidates(t.member));
    MemberStep(s, st);
    MemberParsed(st, cls, |m|, TreeOf(t.cls), Candidates(t.cls), Type(s, cls.st), |n|, TreeOf(t.member),
                 Candidates(t.member));
  }

  lemma {:induction false} MemberText(t: Ty)
    requires t.Member? && WellFormed(t)
    ensures WellFormed(t.cls) && WellFormed(t.member) && TreeOf(t) == PtrMem(TreeOf(t.cls), TreeOf(t.member))
    ensures Candidates(t) == Candidates(t.cls) + Candidates(t.member) + [TreeOf(t)]
    ensures Mangle(t) == "M" + (Mangle(t.cls) + Mangle(t.member))
  {
    hide *;
    MemberStarts(t);
    MemberTree(t);
    assert "M" + Mangle(t.cls) + Mangle(t.member) == "M" + (Mangle(t.cls) + Mangle(t.member));
  }

  lemma {:induction false} MemberStarts(t: Ty)
    requires t.Member? && WellFormed(t)
    ensures WellFormed(t.cls) && WellFormed(t.member)
    ensures Mangle(t) == "M" + Mangle(t.cls) + Mangle(t.member)
  {
    hide Decimal, MangleAll, MangleParts, ManglePart;
  }

  lemma {:induction false} MemberTree(t: Ty)
    requires t.Member? && WellFormed(t) && WellFormed(t.cls) && WellFormed(t.member)
    ensures TreeOf(t) == PtrMem(TreeOf(t.cls), TreeOf(t.member))
    ensures Candidates(t) == Candidates(t.cls) + Candidates(t.member) + [TreeOf(t)]
  {
    hide BuiltinName, Decimal, QualifiedTree, NameText, TreesOf, NestedTree, CandidatesAll, NestedCandidates;
  }

  lemma {:induction false} MemberParts(s: CString, st: State, t: Ty)
    requires t.Member? && WellFormed(t) && Reads(s, st.n, Mangle(t))
    ensures WellFormed(t.cls) && WellFormed(t.member) && TreeOf(t) == PtrMem(TreeOf(t.cls), TreeOf(t.member))
    ensures Candidates(t) == Candidates(t.cls) + Candidates(t.member) + [TreeOf(t)]
    ensures |Mangle(t)| == 1 + |Mangle(t.cls)| + |Mangle(t.member)| && Advance(st, 1).n == st.n + 1
    ensures
      var m, n := Mangle(t.cls), Mangle(t.member);
      && st.n < |s| && Peek(s, st.n) == 'M' && Reads(s, st.n + 1, m) && Reads(s, st.n + 1 + |m|, n)
      && Peek(s, st.n + 1 + |m|) != 'I' && Peek(s, st.n + 1 + |m|) != 'B' && st.n + 1 + |m| <= |s|
  {
    hide *;
    MemberText(t);
    var m, n := Mangle(t.cls), Mangle(t.member);
    AdvanceMoves(st);
    ReadsSplit(s, st.n, "M", m + n);
    ReadsSplit(s, st.n + 1, m, n);
    HeadOf(t.member);
    ReadsAt(s, st.n + 1 + |m|, n, 0);
    ReadsBound(s, st.n + 1 + |m|, n);
    HeadIsNoOther(n[0]);
  }

  lemma {:induction false} ArrayRead(s: CString, st: State, t: Ty)
    requires t.ArrayOfTy? && WellFormed(t) && Reads(s, st.n, Mangle(t)) && Peek(s, st.n + |Mangle(t)|) != 'I'
      && Peek(s, st.n + |Mangle(t)|) != 'B'
    ensures Parsed(st, Type(s, st), |Mangle(t)|, TreeOf(t), Candidates(t))
    decreases |Mangle(t)|, 0
  {
    hide *;
    ArrayParts(s, st, t);
    var digits, m := Decimal(t.dim), Mangle(t.element);
    var n := st.n + 1 + |digits|;
    var next := Advance(MakeEmpty(st.(n := n), NameCell(digits)).st, 1);
    TypeRead(s, next, t.element);
    ArrayStep(s, st, n);
    ArrayParsed(st, n, digits, Type(s, next), |m|, TreeOf(t.element), Candidates(t.element));
  }

  lemma {:induction false} ArrayParts(s: CString, st: State, t: Ty)
    requires t.ArrayOfTy? && WellFormed(t) && Reads(s, st.n, Mangle(t))
    ensures WellFormed(t.element) && TreeOf(t) == ArrayType(Some(Name(Decimal(t.dim))), TreeOf(t.element))
    ensures Candidates(t) == Candidates(t.element) + [TreeOf(t)]
    ensures |Mangle(t)| == 2 + |Decimal(t.dim)| + |Mangle(t.element)|
    ensures
      var digits := Decimal(t.dim);
      var n := st.n + 1 + |digits|;
      var dim := MakeEmpty(st.(n := n), NameCell(digits));
      && st.n < n < |s| && Peek(s, st.n) == 'A' && IsDigit(Peek(s, st.n + 1)) && Peek(s, n) == '_'
      && Number(s, st.n + 1, 0).1 == n && s[st.n + 1..n] == digits
      && dim.dc == |st.comps| && Advance(dim.st, 1).n == n + 1 && Reads(s, n + 1, Mangle(t.element))
  {
    hide Decimal, Number, Head, IsBuiltin, BuiltinName, QualifiedTree, NameText, MangleAll, TreesOf, Peek;
    var digits, m := Decimal(t.dim), Mangle(t.element);
    assert Mangle(t) == "A" + (digits + ("_" + m));
    ReadsSplit(s, st.n, "A", digits + ("_" + m));
    ReadsSplit(s, st.n + 1, digits, "_" + m);
    ReadsSplit(s, st.n + 1 + |digits|, "_", m);
    NumberReads(s, st.n + 1, 0, digits);
  }

  /** What a function type makes before its ref-qualifier. */
  lemma {:induction false} FunctionRead(s: CString, st: State, t: Ty)
    requires t.Func? && WellFormed(t) && Reads(s, st.n, Mangle(t))
    ensures Inner(s, st).n <= |s| && |Mangle(t)| >= |RefLetter(t.ref)| + 1
    ensures
      var fn := BareFunction(s, Inner(s, st), true);
      && Parsed(st, fn, |Mangle(t)| - |RefLetter(t.ref)| - 1, FunctionTree(t), InsideFunction(t))
      && FunctionOf(s, st) == Advanced(WithRef(fn, t.ref), 1)
    decreases |Mangle(t)|, 0, 0
  {
    hide *;
    FunctionParts(s, st, t);
    var m, ps, next := Mangle(t.ret), MangleAll(t.params), Inner(s, st);
    var ret := Type(s, next);
    TypeRead(s, next, t.ret);
    ParsedEnd(next, ret, |m|, TreeOf(t.ret), Candidates(t.ret));
    ReadsInside(s, ret.st.n, ps);
    NoneOpen(ArgumentList, ret.st.comps, |ret.st.comps|);
    ParametersRead(s, ret.st, t.params, NULL, NULL, [], |ret.st.comps|);
    assert [] + TreesOf(t.params) == TreesOf(t.params);
    var args := Parameters(s, ret.st, NULL, NULL);
    ListParsed(ret.st, args, |ps|, Finished(TreesOf(t.params)), CandidatesAll(t.params));
    BareStep(s, next);
    BareParsed(st, |FunctionLetters(t)|, ret, |m|, TreeOf(t.ret), Candidates(t.ret), args, |ps|,
               Finished(TreesOf(t.params)), CandidatesAll(t.params));
    ParsedEnd(st, BareFunction(s, next, true), |Mangle(t)| - |RefLetter(t.ref)| - 1, FunctionTree(t),
      InsideFunction(t));
    FunctionStep(s, st, t.ref);
  }

  /** A function type that is not under qualifiers. */
  lemma {:induction false} FunctionAlone(s: CString, st: State, t: Ty)
    requires t.Func? && WellFormed(t) && Reads(s, st.n, Mangle(t))
    ensures Parsed(st, Type(s, st), |Mangle(t)|, TreeOf(t), Candidates(t))
    decreases |Mangle(t)|, 0, 1
  {
    hide *;
    FunctionParts(s, st, t);
    FunctionRead(s, st, t);
    FunctionIsType(s, st);
    var lo, fn, cs := |st.comps|, BareFunction(s, Inner(s, st), true), InsideFunction(t);
    var m, k := |Mangle(t)| - |RefLetter(t.ref)| - 1, |RefLetter(t.ref)|;
    RefParsed(st, fn, m, FunctionTree(t), cs, t.ref);
    var r := WithRef(fn, t.ref);
    ParsedAdvance(st, r, m + k, TreeOf(t), cs);
    ParsedUnfold(st, Advanced(r, 1), |Mangle(t)|, TreeOf(t), cs);
    ParsedRegistered(lo, st, Advanced(r, 1), |Mangle(t)|, TreeOf(t), cs);
    ParsedUnfold(st, Type(s, st), |Mangle(t)|, TreeOf(t), Candidates(t));
  }

  /** A list that was begun anew. */
  lemma ListParsed(st: State, r: Result, m: nat, c: Component, cs: seq<Component>)
    requires r.dc >= 0 && r.st.n == st.n + m && Kept(st.comps, r.st.comps, NULL, NULL)
    requires Denotes(r.st.comps, |st.comps|, r.dc, c) && Registered(|st.comps|, st.subs, r.st, cs)
    ensures Parsed(st, r, m, c, cs)
  {
    hide Denotes, Registered;
  }

  lemma NoneOpen(tag: Tag, comps: seq<Cell>, lo: nat)
    ensures OpenOrNone(tag, comps, lo, NULL, NULL, [])
  {
  }

  lemma ParsedEnd(st: State, r: Result, length: nat, c: Component, cs: seq<Component>)
    requires Parsed(st, r, length, c, cs)
    ensures 0 <= r.dc && r.st.n == st.n + length && |st.comps| <= |r.st.comps|
  {
  }

  lemma {:induction false} FunctionParts(s: CString, st: State, t: Ty)
    requires t.Func? && WellFormed(t) && Reads(s, st.n, Mangle(t))
    ensures WellFormed(t.ret) && t.params != [] && forall p | p in t.params :: WellFormed(p)
    ensures TreesOf(t.params) != [] && TreeOf(t) == RefTree(t.ref, FunctionTree(t))
    ensures FunctionTree(t) == Function(Some(TreeOf(t.ret)), Some(Finished(TreesOf(t.params))))
    ensures InsideFunction(t) == Candidates(t.ret) + CandidatesAll(t.params)
      && Candidates(t) == InsideFunction(t) + [TreeOf(t)]
    ensures |Mangle(t)| == |FunctionLetters(t)| + |Mangle(t.ret)| + |MangleAll(t.params)| + |RefLetter(t.ref)| + 1
    ensures |FunctionLetters(t)| >= 1
    ensures
      var next := Inner(s, st);
      var n := next.n + |Mangle(t.ret)|;
      var end := n + |MangleAll(t.params)|;
      && next == Advance(st, |FunctionLetters(t)|) && next.n == st.n + |FunctionLetters(t)|
      && st.n < |s| && next.n <= |s| && Peek(s, st.n) == 'F' && Head(Peek(s, next.n)) && Reads(s, next.n, Mangle(t.ret))
      && Peek(s, n) != 'I' && Peek(s, n) != 'B' && Reads(s, n, MangleAll(t.params)) && EndOfParameters(s, end)
      && Reads(s, end, RefLetter(t.ref) + "E")
  {
    hide *;
    FunctionText(t);
    var f, m, ps, e := FunctionLetters(t), Mangle(t.ret), MangleAll(t.params), RefLetter(t.ref) + "E";
    ReadsSplit(s, st.n, f, m + (ps + e));
    ReadsSplit(s, st.n + |f|, m, ps + e);
    ReadsSplit(s, st.n + |f| + |m|, ps, e);
    ReadsInside(s, st.n + |f|, m);
    HeadOf(t.ret);
    ReadsAt(s, st.n + |f|, m, 0);
    HeadIsNoOther(m[0]);
    LettersRead(s, st, t);
    EndRead(s, st.n + |f| + |m| + |ps|, t.ref);
    HeadOfAll(s, st.n + |f| + |m|, t.params);
  }

  lemma LettersRead(s: CString, st: State, t: Ty)
    requires t.Func? && Reads(s, st.n, FunctionLetters(t))
    requires Peek(s, st.n + |FunctionLetters(t)|) != 'Y'
    ensures st.n < |s| && Peek(s, st.n) == 'F' && Inner(s, st) == Advance(st, |FunctionLetters(t)|)
    ensures Inner(s, st).n == st.n + |FunctionLetters(t)| && |FunctionLetters(t)| >= 1
  {
    ReadsAt(s, st.n, FunctionLetters(t), 0);
    if t.externC {
      ReadsAt(s, st.n, FunctionLetters(t), 1);
    }
  }

  lemma EndRead(s: CString, n: nat, ref: Ref)
    requires Reads(s, n, RefLetter(ref) + "E")
    ensures EndOfParameters(s, n)
  {
    ReadsAt(s, n, RefLetter(ref) + "E", 0);
    if !ref.NoRef? {
      ReadsAt(s, n, RefLetter(ref) + "E", 1);
    }
  }

  lemma {:induction false} FunctionText(t: Ty)
    requires t.Func? && WellFormed(t)
    ensures WellFormed(t.ret) && t.params != [] && forall p | p in t.params :: WellFormed(p)
    ensures TreesOf(t.params) != [] && TreeOf(t) == RefTree(t.ref, FunctionTree(t))
    ensures FunctionTree(t) == Function(Some(TreeOf(t.ret)), Some(Finished(TreesOf(t.params))))
    ensures InsideFunction(t) == Candidates(t.ret) + CandidatesAll(t.params)
      && Candidates(t) == InsideFunction(t) + [TreeOf(t)]
    ensures Mangle(t) == FunctionLetters(t) + (Mangle(t.ret) + (MangleAll(t.params) + (RefLetter(t.ref) + "E")))
  {
    hide *;
    FunctionStarts(t);
    FunctionTrees(t);
    var f, m, ps, e := FunctionLetters(t), Mangle(t.ret), MangleAll(t.params), RefLetter(t.ref) + "E";
    assert f + m + ps + e == f + (m + (ps + e));
  }

  lemma {:induction false} FunctionStarts(t: Ty)
    requires t.Func? && WellFormed(t)
    ensures WellFormed(t.ret) && t.params != [] && forall p | p in t.params :: WellFormed(p)
    ensures Mangle(t) == FunctionLetters(t) + Mangle(t.ret) + MangleAll(t.params) + (RefLetter(t.ref) + "E")
  {
    hide Decimal, MangleAll, MangleParts, ManglePart, RefLetter, FunctionLetters;
  }

  lemma {:induction false} FunctionTrees(t: Ty)
    requires t.Func? && WellFormed(t) && WellFormed(t.ret) && t.params != []
    requires forall p | p in t.params :: WellFormed(p)
    ensures TreesOf(t.params) != [] && TreeOf(t) == RefTree(t.ref, FunctionTree(t))
    ensures FunctionTree(t) == Function(Some(TreeOf(t.ret)), Some(Finished(TreesOf(t.params))))
    ensures InsideFunction(t) == Candidates(t.ret) + CandidatesAll(t.params)
      && Candidates(t) == InsideFunction(t) + [TreeOf(t)]
  {
    hide ListTree, Finished, BuiltinName, Decimal, QualifiedTree, NameText, NestedTree, NestedCandidates, TreesOf;
    hide CandidatesAll, PartTree, WellFormed, RefTree;
    OnlyVoid(t.params);
  }

  lemma AdvanceMoves(st: State)
    ensures Advance(st, 1).n == st.n + 1
  {
  }

  /** Where an encoding ends, and its last character. */
  lemma {:induction false} ReadsBound(s: CString, n: nat, m: string)
    requires Reads(s, n, m) && m != ""
    ensures n + |m| <= |s| && Peek(s, n + |m| - 1) == m[|m| - 1]
  {
    ReadsAt(s, n, m, |m| - 1);
  }

  /** How a list of encodings begins. */
  lemma {:induction false} HeadOfAll(s: CString, n: nat, ts: seq<Ty>)
    requires ts != [] && (forall t | t in ts :: WellFormed(t)) && Reads(s, n, MangleAll(ts))
    ensures Peek(s, n) != 'I' && Peek(s, n) != 'B' && !EndOfParameters(s, n) && Head(Peek(s, n))
  {
    var m := Mangle(ts[0]);
    HeadOf(ts[0]);
    ReadsSplit(s, n, m, MangleAll(ts[1..]));
    ReadsAt(s, n, m, 0);
    HeadIsNoOther(m[0]);
    if m[0] in "RO" {
      ReadsAt(s, n, m, 1);
      HeadIsNoOther(m[1]);
    }
  }

  lemma {:induction false} BuiltinIsLetter(t: Ty)
    requires WellFormed(t) && TreeOf(t).Builtin?
    ensures t.Letter?
  {
    hide BuiltinName;
    if t.Scoped? {
      ScopedIsName(t.parts);
    }
  }

  lemma {:induction false} OnlyVoid(ts: seq<Ty>)
    requires ts != [] && forall t | t in ts :: WellFormed(t)
    ensures TreesOf(ts) == [Builtin("void")] <==> ts == [Letter('v')]
    ensures Finished(TreesOf(ts)) == if ts == [Letter('v')] then ArgList(None, None) else ListTree(TreesOf(ts))
  {
    hide ListTree, BuiltinName;
    if TreesOf(ts) == [Builtin("void")] {
      assert TreeOf(ts[0]) == Builtin("void");
      BuiltinIsLetter(ts[0]);
      OnlyVoidIsVoid(ts[0].letter);
    }
    OnlyVoidIsVoid('v');
  }

  /** The parameters that are left, behind those of an open list. */
  lemma {:induction false} ParametersRead(s: CString, st: State, ts: seq<Ty>, first: int, last: int,
      cs: seq<Component>, lo: nat)
    requires (forall t | t in ts :: WellFormed(t)) && Reads(s, st.n, MangleAll(ts))
      && EndOfParameters(s, st.n + |MangleAll(ts)|)
    requires lo <= |st.comps| && cs + TreesOf(ts) != [] && OpenOrNone(ArgumentList, st.comps, lo, first, last, cs)
    ensures
      var r := Parameters(s, st, first, last);
      && r.dc >= 0 && r.st.n == st.n + |MangleAll(ts)| && Kept(st.comps, r.st.comps, first, last)
      && Denotes(r.st.comps, lo, r.dc, Finished(cs + TreesOf(ts)))
      && Registered(|st.comps|, st.subs, r.st, CandidatesAll(ts))
    decreases |MangleAll(ts)|, 2
  {
    hide *;
    FirstOrNull(ArgumentList, st.comps, lo, first, last, cs);
    if ts == [] {
      NoParameters(s, st, ts);
      assert cs + TreesOf(ts) == cs;
      AtEnd(s, st, first, last);
      IsOpen(ArgumentList, st.comps, lo, first, last, cs);
      FinishDenotes(st, lo, first, last, cs);
      RegisteredNone(|st.comps|, st.subs, FinishParameters(st, first).st);
    } else {
      ParameterParts(s, st.n, ts);
      var m, c, es := Mangle(ts[0]), TreeOf(ts[0]), Candidates(ts[0]);
      var type_ := Type(s, st);
      TypeRead(s, st, ts[0]);
      ParsedEnd(st, type_, |m|, c, es);
      ParametersStep(s, st, first, last);
      var n, st2 := |type_.st.comps|, WithPlace(ArgumentList, type_, first, last);
      PlaceMade(ArgumentList, type_, first, last);
      var first1 := if first < 0 then n else first;
      OneMore(ArgumentList, st, type_, |m|, lo, first, last, cs, c, es);
      IsOpen(ArgumentList, st2.comps, lo, first1, n, cs + [c]);
      assert cs + [c] + TreesOf(ts[1..]) == cs + TreesOf(ts);
      ParametersRead(s, st2, ts[1..], first1, n, cs + [c], lo);
      RestRegistered(ArgumentList, st, type_, |m|, lo, first, last, cs, c, es, Parameters(s, st, first, last).st,
                     CandidatesAll(ts[1..]));
    }
  }

  lemma IsOpen(tag: Tag, comps: seq<Cell>, lo: nat, first: int, last: int, cs: seq<Component>)
    requires cs != []
    ensures OpenOrNone(tag, comps, lo, first, last, cs) <==> OpenList(tag, comps, lo, first, last, cs)
  {
  }

  lemma PlaceMade(tag: Tag, type_: Result, first: int, last: int)
    ensures
      var cell := MakeEmpty(type_.st, Link(tag, type_.dc, NULL));
      && cell.dc == |type_.st.comps| && cell.st.n == type_.st.n
      && WithPlace(tag, type_, first, last) == if first < 0 then cell.st else SetRight(cell.st, last, cell.dc)
  {
  }

  lemma NoParameters(s: CString, st: State, ts: seq<Ty>)
    requires ts == [] && Reads(s, st.n, MangleAll(ts))
    ensures MangleAll(ts) == "" && TreesOf(ts) == [] && st.n <= |s| && CandidatesAll(ts) == []
  {
  }

  lemma {:induction false} ParameterParts(s: CString, n: nat, ts: seq<Ty>)
    requires ts != [] && (forall t | t in ts :: WellFormed(t)) && Reads(s, n, MangleAll(ts))
      && EndOfParameters(s, n + |MangleAll(ts)|)
    ensures WellFormed(ts[0]) && (forall t | t in ts[1..] :: WellFormed(t))
      && TreesOf(ts) == [TreeOf(ts[0])] + TreesOf(ts[1..])
      && CandidatesAll(ts) == Candidates(ts[0]) + CandidatesAll(ts[1..])
    ensures
      var m := Mangle(ts[0]);
      && |MangleAll(ts)| == |m| + |MangleAll(ts[1..])| && |m| > 0 && n <= |s|
      && Reads(s, n, m) && Reads(s, n + |m|, MangleAll(ts[1..])) && !EndOfParameters(s, n)
      && Head(Peek(s, n)) && Peek(s, n + |m|) != 'I' && Peek(s, n + |m|) != 'B'
      && (Peek(s, n + |MangleAll(ts)|) == 'E' ==> (Peek(s, n + |m|) == 'E' <==> ts[1..] == []))
  {
    hide *;
    MangleAllStep(ts);
    EndChars(s, n + |MangleAll(ts)|);
    var m := Mangle(ts[0]);
    ReadsSplit(s, n, m, MangleAll(ts[1..]));
    HeadOf(ts[0]);
    ReadsBound(s, n, m);
    HeadOfAll(s, n, ts);
    if ts[1..] != [] {
      HeadOfAll(s, n + |m|, ts[1..]);
      HeadIsNoOther(Peek(s, n + |m|));
    } else {
      MangleNone(ts[1..]);
    }
  }

  lemma EndChars(s: CString, n: nat)
    ensures Peek(s, n) == 'E' ==> EndOfParameters(s, n)
    ensures EndOfParameters(s, n) ==> Peek(s, n) != 'I' && Peek(s, n) != 'B'
  {
  }

  lemma {:induction false} MangleAllStep(ts: seq<Ty>)
    requires ts != [] && forall t | t in ts :: WellFormed(t)
    ensures WellFormed(ts[0]) && forall t | t in ts[1..] :: WellFormed(t)
    ensures MangleAll(ts) == Mangle(ts[0]) + MangleAll(ts[1..]) && TreesOf(ts) == [TreeOf(ts[0])] + TreesOf(ts[1..])
    ensures CandidatesAll(ts) == Candidates(ts[0]) + CandidatesAll(ts[1..])
  {
    hide Mangle, TreeOf, WellFormed, Candidates;
  }

  lemma MangleNone(ts: seq<Ty>)
    requires ts == []
    ensures MangleAll(ts) == ""
  {
  }

  lemma {:induction false} AtEnd(s: CString, st: State, first: int, last: int)
    requires st.n <= |s| && NULL <= first && EndOfParameters(s, st.n)
    ensures Parameters(s, st, first, last) == FinishParameters(st, first)
  {
    hide FinishParameters;
  }

  // ---- Template arguments and nested names ----

  /** The template arguments that are left, behind those of an open list. */
  lemma {:induction false} ArgumentsRead(s: CString, st: State, ts: seq<Ty>, first: int, last: int,
      cs: seq<Component>, lo: nat)
    requires ts != [] && (forall t | t in ts :: WellFormed(t)) && Reads(s, st.n, MangleAll(ts))
      && Peek(s, st.n + |MangleAll(ts)|) == 'E'
    requires lo <= |st.comps| && OpenOrNone(TemplateArgList, st.comps, lo, first, last, cs)
    ensures
      var r := Arguments(s, st, first, last);
      && r.dc >= 0 && r.st.n == st.n + |MangleAll(ts)| + 1 && Kept(st.comps, r.st.comps, first, last)
      && cs + TreesOf(ts) != [] && Denotes(r.st.comps, lo, r.dc, ListTree(cs + TreesOf(ts)))
      && Registered(|st.comps|, st.subs, r.st, CandidatesAll(ts))
    decreases |MangleAll(ts)|, 2
  {
    hide *;
    FirstOrNull(TemplateArgList, st.comps, lo, first, last, cs);
    EndChars(s, st.n + |MangleAll(ts)|);
    ParameterParts(s, st.n, ts);
    var m, c, es := Mangle(ts[0]), TreeOf(ts[0]), Candidates(ts[0]);
    var type_ := Type(s, st);
    TypeRead(s, st, ts[0]);
    ParsedEnd(st, type_, |m|, c, es);
    ArgumentsStep(s, st, first, last);
    var n, st2 := |type_.st.comps|, WithPlace(TemplateArgList, type_, first, last);
    PlaceMade(TemplateArgList, type_, first, last);
    var first1 := if first < 0 then n else first;
    OneMore(TemplateArgList, st, type_, |m|, lo, first, last, cs, c, es);
    IsOpen(TemplateArgList, st2.comps, lo, first1, n, cs + [c]);
    assert cs + [c] + TreesOf(ts[1..]) == cs + TreesOf(ts);
    var rest := Arguments(s, st, first, last);
    if ts[1..] == [] {
      NoParameters(s, st2, ts[1..]);
      assert cs + [c] + TreesOf(ts[1..]) == cs + [c];
      ListEnds(st2, lo, first1, n, cs + [c]);
    } else {
      ArgumentsRead(s, st2, ts[1..], first1, n, cs + [c], lo);
    }
    RestRegistered(TemplateArgList, st, type_, |m|, lo, first, last, cs, c, es, rest.st, CandidatesAll(ts[1..]));
  }

  /** At the end of a list nothing is left to be done. */
  lemma {:induction false} ListEnds(st: State, lo: nat, first: int, last: int, cs: seq<Component>)
    requires OpenList(TemplateArgList, st.comps, lo, first, last, cs)
    ensures
      var st1 := Advance(st, 1);
      && cs != [] && first >= 0 && st1.n == st.n + 1 && Kept(st.comps, st1.comps, first, last)
      && Denotes(st1.comps, lo, first, ListTree(cs)) && Registered(|st.comps|, st.subs, st1, [])
  {
    hide Denotes;
    OpenListDenotes(TemplateArgList, st.comps, lo, first, last, cs);
  }

  lemma {:induction false} TemplateArgsRead(s: CString, st: State, p: Part)
    requires p.Args? && PartWellFormed(p) && Reads(s, st.n, ManglePart(p))
    ensures Parsed(st, TemplateArgs(s, st), |ManglePart(p)|, PartTree(p), PartCandidates(p))
    decreases |ManglePart(p)|, 0
  {
    hide *;
    ArgsParts(s, st, p);
    TemplateArgsStep(s, st);
    if p.args == [] {
      EmptyParsed(st, p);
    } else {
      var next := Advance(st, 1);
      NoneOpen(TemplateArgList, next.comps, |next.comps|);
      ArgumentsRead(s, next, p.args, NULL, NULL, [], |next.comps|);
      assert [] + TreesOf(p.args) == TreesOf(p.args);
      ListParsed(next, TemplateArgs(s, st), |MangleAll(p.args)| + 1, PartTree(p), PartCandidates(p));
      OneBefore(st, TemplateArgs(s, st), |MangleAll(p.args)| + 1, PartTree(p), PartCandidates(p));
    }
  }

  lemma OneBefore(st: State, r: Result, m: nat, c: Component, cs: seq<Component>)
    requires Parsed(Advance(st, 1), r, m, c, cs)
    ensures Parsed(st, r, m + 1, c, cs)
  {
  }

  lemma EmptyParsed(st: State, p: Part)
    requires p == Args([])
    ensures PartWellFormed(p)
      && Parsed(st, MakeEmpty(Advance(st, 2), Link(TemplateArgList, NULL, NULL)), 2, PartTree(p), PartCandidates(p))
  {
  }

  lemma {:induction false} ArgsParts(s: CString, st: State, p: Part)
    requires p.Args? && PartWellFormed(p) && Reads(s, st.n, ManglePart(p))
    ensures forall a | a in p.args :: WellFormed(a)
    ensures PartCandidates(p) == CandidatesAll(p.args) && |ManglePart(p)| == 2 + |MangleAll(p.args)|
    ensures p.args != [] ==> TreesOf(p.args) != [] && PartTree(p) == ListTree(TreesOf(p.args))
    ensures
      var next := Advance(st, 1);
      && next.n == st.n + 1 && next.comps == st.comps && st.n + 1 < |s| && Peek(s, st.n) == 'I'
      && Reads(s, next.n, MangleAll(p.args)) && Peek(s, next.n + |MangleAll(p.args)|) == 'E'
      && (Peek(s, next.n) == 'E' <==> p.args == []) && (p.args == [] ==> |ManglePart(p)| == 2 && p == Args([]))
  {
    hide *;
    ArgsText(p);
    AdvanceMoves(st);
    assert p.args == [] ==> p == Args([]);
    assert Advance(st, 1).comps == st.comps by {
      AdvanceKeeps(st);
    }
    var inner := MangleAll(p.args);
    ReadsSplit(s, st.n, "I", inner + "E");
    ReadsSplit(s, st.n + 1, inner, "E");
    ReadsBound(s, st.n + 1 + |inner|, "E");
    if p.args == [] {
      MangleNone(p.args);
    } else {
      HeadOfAll(s, st.n + 1, p.args);
      HeadIsNoOther(Peek(s, st.n + 1));
    }
  }

  lemma AdvanceKeeps(st: State)
    ensures Advance(st, 1).comps == st.comps && Advance(st, 1).subs == st.subs
  {
  }

  lemma ArgsText(p: Part)
    requires p.Args? && PartWellFormed(p)
    ensures forall a | a in p.args :: WellFormed(a)
    ensures ManglePart(p) == "I" + (MangleAll(p.args) + "E") && PartCandidates(p) == CandidatesAll(p.args)
    ensures p.args != [] ==> TreesOf(p.args) != [] && PartTree(p) == ListTree(TreesOf(p.args))
  {
    hide MangleAll, ListTree, CandidatesAll, WellFormed;
  }

  /** A name with template arguments: the name is registered, then what the arguments register, then
      the whole. */
  lemma {:induction false} TemplateRead(s: CString, st: State, t: Ty)
    requires t.TemplateOf? && WellFormed(t) && Reads(s, st.n, Mangle(t))
    ensures Parsed(st, Type(s, st), |Mangle(t)|, TreeOf(t), Candidates(t))
    decreases |Mangle(t)|, 0
  {
    hide *;
    TemplateParts(s, st, t);
    var lo, p, root, c, es := |st.comps|, Args(t.args), t.root, RootTree(t.root), RootCandidates(t.root);
    var k, m, r := |MangleRoot(root)|, |ManglePart(p)|, RootMade(s, st, root);
    RootRead(s, st, root);
    ParsedEnd(st, r, k, c, []);
    RootIsType(s, st, root);
    RootParsed(st, r, k, root);
    var name := RootRegistered(root, r);
    ParsedEnd(st, name, k, c, es);
    ParsedUnfold(st, name, k, c, es);
    ReadsInside(s, name.st.n, ManglePart(p));
    TemplateArgsRead(s, name.st, p);
    var args := TemplateArgs(s, name.st);
    ParsedEnd(name.st, args, m, PartTree(p), PartCandidates(p));
    JoinParsed(lo, st, name, k, c, es, p, args, m, PartCandidates(p));
    var whole := MakeEmpty(args.st, Link(TemplateId, name.dc, args.dc));
    ParsedRegistered(lo, st, whole, k + m, TreeOf(t), es + PartCandidates(p));
    ParsedUnfold(st, Type(s, st), |Mangle(t)|, TreeOf(t), Candidates(t));
  }

  lemma {:induction false} TemplateParts(s: CString, st: State, t: Ty)
    requires t.TemplateOf? && WellFormed(t) && Reads(s, st.n, Mangle(t))
    ensures
      var p, k := Args(t.args), |MangleRoot(t.root)|;
      && PartWellFormed(p) && IsRoot(t.root) && |Mangle(t)| == k + |ManglePart(p)| && k > 0
      && TreeOf(t) == Joined(RootTree(t.root), p)
      && Candidates(t) == RootCandidates(t.root) + PartCandidates(p) + [TreeOf(t)]
      && st.n <= |s| && st.n + k <= |s| && Reads(s, st.n, MangleRoot(t.root)) && Reads(s, st.n + k, ManglePart(p))
      && Peek(s, st.n + k) == 'I' && |ManglePart(p)| < |Mangle(t)|
  {
    hide *;
    TemplateText(t);
    var p, text := Args(t.args), MangleRoot(t.root);
    ReadsSplit(s, st.n, text, ManglePart(p));
    RootStarts(s, st.n, t.root);
    ReadsAt(s, st.n + |text|, ManglePart(p), 0);
    ArgsText(p);
  }

  lemma {:induction false} TemplateText(t: Ty)
    requires t.TemplateOf? && WellFormed(t)
    ensures
      var p := Args(t.args);
      && PartWellFormed(p) && IsRoot(t.root) && Mangle(t) == MangleRoot(t.root) + ManglePart(p) && ManglePart(p) != ""
      && TreeOf(t) == Joined(RootTree(t.root), p)
      && Candidates(t) == RootCandidates(t.root) + PartCandidates(p) + [TreeOf(t)]
  {
    hide MangleAll, ArgsTree, CandidatesAll, MangleRoot, RootTree, RootCandidates, IsRoot;
  }

  /** One part of a prefix. */
  lemma {:induction false} PartRead(s: CString, st: State, p: Part)
    requires PartWellFormed(p) && !p.Abbreviated? && Reads(s, st.n, ManglePart(p))
      && Peek(s, st.n + |ManglePart(p)|) != 'B'
    ensures
      && st.n < |s| && (IsDigit(Peek(s, st.n)) <==> p.Simple?) && (Peek(s, st.n) == 'I' <==> p.Args?)
      && Parsed(st, if p.Simple? then UnqualifiedName(s, st) else TemplateArgs(s, st), |ManglePart(p)|,
                PartTree(p), PartCandidates(p))
    decreases |ManglePart(p)|, 1
  {
    hide *;
    PartStarts(p);
    ReadsBound(s, st.n, ManglePart(p));
    ReadsAt(s, st.n, ManglePart(p), 0);
    if p.Simple? {
      SimpleText(p);
      UnqualifiedRead(s, st, p.name);
      NameParsed(st, |ManglePart(p)|, NameText(p.name));
    } else {
      TemplateArgsRead(s, st, p);
    }
  }

  lemma SimpleText(p: Part)
    requires p.Simple? && PartWellFormed(p)
    ensures IsName(p.name) && ManglePart(p) == Decimal(|p.name|) + p.name
    ensures PartTree(p) == Name(NameText(p.name)) && PartCandidates(p) == []
  {
    hide Decimal, NameText;
  }

  lemma PartStarts(p: Part)
    requires PartWellFormed(p)
    ensures
      var m := ManglePart(p);
      && m != "" && (IsDigit(m[0]) <==> p.Simple?) && (m[0] == 'I' <==> p.Args?) && m[0] != 'B' && m[0] != 'E'
      && (m[0] == 'S' <==> p.Abbreviated?) && m[0] !in "CD"
  {
    hide MangleAll, WellFormed;
  }

  /** The parts of a nested name that are left, behind a prefix that denotes `c`: they are joined from
      left to right, and every prefix but the last is registered. */
  lemma {:induction false} PrefixRead(s: CString, lo: nat, st0: State, prefix: Result, k: nat, c: Component,
      cs: seq<Component>, parts: seq<Part>)
    requires lo <= |st0.comps| && ParsedFrom(lo, st0, prefix, k, c, cs)
    requires (forall p | p in parts :: PartWellFormed(p) && !p.Abbreviated?)
      && Reads(s, prefix.st.n, MangleParts(parts))
    requires Peek(s, prefix.st.n + |MangleParts(parts)|) == 'E'
    ensures NULL <= prefix.dc && prefix.st.n <= |s|
    ensures ParsedFrom(lo, st0, Prefix(s, prefix.st, prefix.dc), k + |MangleParts(parts)|, NestedTree(c, parts),
                       cs + NestedCandidates(c, parts))
    decreases |MangleParts(parts)|, 2
  {
    hide *;
    NullIsNone();
    var st := prefix.st;
    ReadsInside(s, st.n, MangleParts(parts));
    FromEnd(lo, st0, prefix, k, c, cs);
    if parts == [] {
      NoParts(c, parts);
      assert cs + [] == cs;
      PrefixEnd(s, st, prefix.dc);
    } else {
      PartsStep(s, st.n, c, parts);
      var p, m := parts[0], |ManglePart(parts[0])|;
      PartRead(s, st, p);
      LongerStep(s, st, prefix.dc);
      var part := if p.Simple? then UnqualifiedName(s, st) else TemplateArgs(s, st);
      ParsedEnd(st, part, m, PartTree(p), PartCandidates(p));
      JoinParsed(lo, st0, prefix, k, c, cs, p, part, m, PartCandidates(p));
      var longer, d := LongerPrefix(s, st, prefix.dc), Joined(c, p);
      FromEnd(lo, st0, longer, k + m, d, cs + PartCandidates(p));
      PrefixStep(s, st, prefix.dc);
      var es := cs + PartCandidates(p);
      if parts[1..] == [] {
        PrefixRead(s, lo, st0, longer, k + m, d, es, parts[1..]);
        NoParts(d, parts[1..]);
        assert PartCandidates(p) + [] == PartCandidates(p) && es + [] == es;
      } else {
        ParsedRegistered(lo, st0, longer, k + m, d, es);
        Registers(longer);
        PrefixRead(s, lo, st0, AddSubstitution(longer), k + m, d, es + [d], parts[1..]);
        assert es + [d] + NestedCandidates(d, parts[1..]) == cs + NestedCandidates(c, parts);
      }
    }
  }

  lemma NullIsNone()
    ensures NULL == -1
  {
  }

  lemma Registers(r: Result)
    requires r.dc >= 0
    ensures AddSubstitution(r).dc == r.dc && AddSubstitution(r).st.n == r.st.n
  {
  }

  lemma FromEnd(lo: nat, st: State, r: Result, length: nat, c: Component, cs: seq<Component>)
    requires ParsedFrom(lo, st, r, length, c, cs)
    ensures 0 <= r.dc && r.st.n == st.n + length
  {
  }

  lemma NoParts(c: Component, parts: seq<Part>)
    requires parts == []
    ensures MangleParts(parts) == "" && NestedTree(c, parts) == c && NestedCandidates(c, parts) == []
  {
  }

  lemma {:induction false} PartsStep(s: CString, n: nat, c: Component, parts: seq<Part>)
    requires parts != [] && (forall p | p in parts :: PartWellFormed(p)) && Reads(s, n, MangleParts(parts))
    requires Peek(s, n + |MangleParts(parts)|) == 'E'
    ensures PartWellFormed(parts[0]) && forall p | p in parts[1..] :: PartWellFormed(p)
    ensures
      var p, m := parts[0], ManglePart(parts[0]);
      && |MangleParts(parts)| == |m| + |MangleParts(parts[1..])| && |m| > 0
      && Reads(s, n, m) && Reads(s, n + |m|, MangleParts(parts[1..]))
      && Peek(s, n + |m|) !in "BCD" && (Peek(s, n + |m|) == 'E' <==> parts[1..] == [])
      && NestedTree(c, parts) == NestedTree(Joined(c, p), parts[1..])
      && NestedCandidates(c, parts) == PartCandidates(p)
        + if parts[1..] == [] then [] else [Joined(c, p)] + NestedCandidates(Joined(c, p), parts[1..])
  {
    hide *;
    PartsText(c, parts);
    var m, rest := ManglePart(parts[0]), parts[1..];
    ReadsSplit(s, n, m, MangleParts(rest));
    PartStarts(parts[0]);
    if rest == [] {
      NoParts(c, rest);
    } else {
      PartsText(c, rest);
      PartStarts(rest[0]);
      ReadsAt(s, n + |m|, MangleParts(rest), 0);
    }
  }

  lemma {:induction false} PartsText(c: Component, parts: seq<Part>)
    requires parts != [] && forall p | p in parts :: PartWellFormed(p)
    ensures PartWellFormed(parts[0]) && forall p | p in parts[1..] :: PartWellFormed(p)
    ensures MangleParts(parts) == ManglePart(parts[0]) + MangleParts(parts[1..])
    ensures NestedTree(c, parts) == NestedTree(Joined(c, parts[0]), parts[1..])
    ensures NestedCandidates(c, parts) == PartCandidates(parts[0])
      + if parts[1..] == [] then []
        else [Joined(c, parts[0])] + NestedCandidates(Joined(c, parts[0]), parts[1..])
  {
    hide ManglePart, PartWellFormed, Joined, PartCandidates;
  }

  /** A nested name. */
  lemma {:induction false} ScopedRead(s: CString, st: State, t: Ty)
    requires t.Scoped? && WellFormed(t) && Reads(s, st.n, Mangle(t))
    ensures Parsed(st, Type(s, st), |Mangle(t)|, TreeOf(t), Candidates(t))
    decreases |Mangle(t)|, 0
  {
    hide *;
    ScopedParts(s, st, t);
    var next, lo, m, cs := Advance(st, 1), |st.comps|, |MangleParts(t.parts)|, ScopeCandidates(t.parts);
    PartsRead(s, next, t.parts);
    var prefix := Prefix(s, next, NULL);
    ParsedEnd(next, prefix, m, TreeOf(t), cs);
    NestedStep(s, st);
    OneBefore(st, prefix, m, TreeOf(t), cs);
    ParsedAdvance(st, prefix, m + 1, TreeOf(t), cs);
    ParsedUnfold(st, Advanced(prefix, 1), |Mangle(t)|, TreeOf(t), cs);
    ParsedRegistered(lo, st, Advanced(prefix, 1), |Mangle(t)|, TreeOf(t), cs);
    ParsedUnfold(st, Type(s, st), |Mangle(t)|, TreeOf(t), Candidates(t));
  }

  /** All parts of a nested name. */
  lemma {:induction false} PartsRead(s: CString, st: State, parts: seq<Part>)
    requires WellScoped(parts) && (forall p | p in parts :: PartWellFormed(p)) && Reads(s, st.n, MangleParts(parts))
    requires Peek(s, st.n + |MangleParts(parts)|) == 'E'
    ensures st.n <= |s|
    ensures Parsed(st, Prefix(s, st, NULL), |MangleParts(parts)|, NestedTree(PartTree(parts[0]), parts[1..]),
                   ScopeCandidates(parts))
    decreases |MangleParts(parts)|, 3
  {
    hide *;
    NullIsNone();
    ScopeForms(parts);
    var p, rest, c := parts[0], parts[1..], PartTree(parts[0]);
    var lo, m := |st.comps|, |ManglePart(p)|;
    PartsStep(s, st.n, c, parts);
    ReadsInside(s, st.n, MangleParts(parts));
    if p.Abbreviated? {
      FirstAbbreviated(s, st, p);
      var first := Substitution(s, st, true);
      ParsedEnd(st, first, m, c, []);
      ParsedUnfold(st, first, m, c, []);
      PrefixSkips(s, st);
      PrefixRead(s, lo, st, first, m, c, [], rest);
    } else {
      FirstSimple(s, st, p);
      var part := UnqualifiedName(s, st);
      ParsedEnd(st, part, m, c, []);
      ParsedUnfold(st, part, m, c, []);
      LongerStep(s, st, NULL);
      PrefixStep(s, st, NULL);
      if rest == [] {
        PrefixRead(s, lo, st, part, m, c, [], rest);
      } else {
        ParsedRegistered(lo, st, part, m, c, []);
        Registers(part);
        assert [] + [c] == [c];
        PrefixRead(s, lo, st, AddSubstitution(part), m, c, [c], rest);
      }
    }
    NoParts(c, rest[|rest|..]);
    if rest == [] {
      NoParts(c, rest);
    }
    ScopeRegisters(parts);
    ParsedUnfold(st, Prefix(s, st, NULL), |MangleParts(parts)|, NestedTree(c, rest), ScopeCandidates(parts));
  }

  lemma ScopeForms(parts: seq<Part>)
    requires WellScoped(parts) && forall p | p in parts :: PartWellFormed(p)
    ensures parts != [] && !parts[0].Args? && PartWellFormed(parts[0])
    ensures forall p | p in parts[1..] :: PartWellFormed(p) && !p.Abbreviated?
  {
    hide PartWellFormed;
  }

  lemma ScopeRegisters(parts: seq<Part>)
    requires WellScoped(parts) && forall p | p in parts :: PartWellFormed(p)
    ensures
      var c, rest := PartTree(parts[0]), parts[1..];
      && (forall p | p in rest :: PartWellFormed(p))
      && (rest == [] ==> ScopeCandidates(parts) == [] && [] + NestedCandidates(c, rest) == [])
      && (rest != [] && parts[0].Abbreviated? ==> ScopeCandidates(parts) == [] + NestedCandidates(c, rest))
      && (rest != [] && !parts[0].Abbreviated? ==> ScopeCandidates(parts) == [c] + NestedCandidates(c, rest))
  {
    hide PartTree;
  }

  lemma {:induction false} FirstAbbreviated(s: CString, st: State, p: Part)
    requires p.Abbreviated? && PartWellFormed(p) && Reads(s, st.n, ManglePart(p))
      && Peek(s, st.n + |ManglePart(p)|) !in "CD"
    ensures st.n <= |s| && Peek(s, st.n) == 'S'
    ensures Parsed(st, Substitution(s, st, true), |ManglePart(p)|, PartTree(p), [])
  {
    hide Substitution, StandardName, Parsed;
    StandardRead(s, st, p.letter, true);
    ReadsAt(s, st.n, ManglePart(p), 0);
  }

  lemma {:induction false} FirstSimple(s: CString, st: State, p: Part)
    requires p.Simple? && PartWellFormed(p) && Reads(s, st.n, ManglePart(p)) && Peek(s, st.n + |ManglePart(p)|) != 'B'
    ensures st.n <= |s| && IsDigit(Peek(s, st.n))
    ensures Parsed(st, UnqualifiedName(s, st), |ManglePart(p)|, PartTree(p), [])
  {
    hide *;
    SimpleText(p);
    ReadsInside(s, st.n, ManglePart(p));
    UnqualifiedRead(s, st, p.name);
    NameParsed(st, |ManglePart(p)|, NameText(p.name));
  }

  lemma {:induction false} ScopedParts(s: CString, st: State, t: Ty)
    requires t.Scoped? && WellFormed(t) && Reads(s, st.n, Mangle(t))
    ensures WellScoped(t.parts) && forall p | p in t.parts :: PartWellFormed(p)
    ensures
      var next, m := Advance(st, 1), |MangleParts(t.parts)|;
      && |Mangle(t)| == 2 + m && TreeOf(t) == NestedTree(PartTree(t.parts[0]), t.parts[1..])
      && Candidates(t) == ScopeCandidates(t.parts) + [TreeOf(t)]
      && next.n == st.n + 1 && st.n + 1 < |s| && Peek(s, st.n) == 'N' && Peek(s, next.n + m) == 'E'
      && (IsDigit(Peek(s, next.n)) || Peek(s, next.n) == 'S') && Reads(s, next.n, MangleParts(t.parts))
  {
    hide *;
    ScopedMangled(t);
    AdvanceMoves(st);
    var ps := MangleParts(t.parts);
    ReadsSplit(s, st.n, "N", ps + "E");
    ReadsSplit(s, st.n + 1, ps, "E");
    ReadsBound(s, st.n + 1 + |ps|, "E");
    ScopeForms(t.parts);
    PartsStep(s, st.n + 1, PartTree(t.parts[0]), t.parts);
    PartStarts(t.parts[0]);
    ReadsAt(s, st.n + 1, ManglePart(t.parts[0]), 0);
  }

  lemma {:induction false} ScopedMangled(t: Ty)
    requires t.Scoped? && WellFormed(t)
    ensures WellScoped(t.parts) && forall p | p in t.parts :: PartWellFormed(p)
    ensures Mangle(t) == "N" + (MangleParts(t.parts) + "E")
    ensures TreeOf(t) == NestedTree(PartTree(t.parts[0]), t.parts[1..])
      && Candidates(t) == ScopeCandidates(t.parts) + [TreeOf(t)]
  {
    hide MangleParts, PartTree, NestedTree, NestedCandidates, ScopeCandidates, PartWellFormed;
  }

  /** The name of a member function: its qualifiers and its ref-qualifier stand first, and go around
      the name.  The whole is not registered here. */
  lemma {:induction false} MemberNameRead(s: CString, st: State, q: string, ref: Ref, parts: seq<Part>)
    requires AllQualifiers(q) && WellScoped(parts) && forall p | p in parts :: PartWellFormed(p)
    requires Reads(s, st.n, "N" + (q + (RefLetter(ref) + (MangleParts(parts) + "E"))))
    ensures st.n <= |s|
    ensures Parsed(st, NameOf(s, st), 2 + |q| + |RefLetter(ref)| + |MangleParts(parts)|,
                   RefTree(ref, QualifiedTree(q, true, NestedTree(PartTree(parts[0]), parts[1..]))),
                   ScopeCandidates(parts))
  {
    hide *;
    ScopeForms(parts);
    MemberNameParts(s, st, q, ref, parts);
    AdvanceMoves(st);
    AdvanceKeeps(st);
    var next := Advance(st, 1);
    var start := CvQualifiers(s, next, true);
    OpenMade(start, ref);
    var open, m := OpenRef(start, ref), |MangleParts(parts)|;
    var c, cs := NestedTree(PartTree(parts[0]), parts[1..]), ScopeCandidates(parts);
    PartsRead(s, open.st, parts);
    var prefix := Prefix(s, open.st, NULL);
    ParsedEnd(open.st, prefix, m, c, cs);
    NestedNameStep(s, st, ref);
    ClosedParsed(next, start, q, ref, prefix, m, c, cs);
    var r := CloseNested(prefix, |st.comps|, |start.comps| - 1, open.dc);
    var d := RefTree(ref, QualifiedTree(q, true, c));
    OneBefore(st, r, |q| + |RefLetter(ref)| + m, d, cs);
    ParsedAdvance(st, r, |q| + |RefLetter(ref)| + m + 1, d, cs);
  }

  lemma {:induction false} MemberNameParts(s: CString, st: State, q: string, ref: Ref, parts: seq<Part>)
    requires AllQualifiers(q) && WellScoped(parts) && forall p | p in parts :: PartWellFormed(p)
    requires Reads(s, st.n, "N" + (q + (RefLetter(ref) + (MangleParts(parts) + "E"))))
    ensures
      var next, k, m := Advance(st, 1), |RefLetter(ref)|, |MangleParts(parts)|;
      var start := CvQualifiers(s, next, true);
      && st.n < |s| && Peek(s, st.n) == 'N' && start.n == next.n + |q| && start.subs == st.subs
      && st.comps <= start.comps && |start.comps| == |st.comps| + |q|
      && (forall j | 0 <= j < |q| ::
            start.comps[|st.comps| + j] ==
              Link(Mod(QualifierKind(q[j], true)), if j + 1 < |q| then |st.comps| + j + 1 else NULL, NULL))
      && Reads(s, start.n, RefLetter(ref)) && start.n + k <= |s| && Peek(s, start.n + k) !in "RO"
      && Reads(s, start.n + k, MangleParts(parts)) && Peek(s, start.n + k + m) == 'E'
  {
    hide *;
    AdvanceMoves(st);
    AdvanceKeeps(st);
    MemberNameChars(s, st.n, q, ref, parts);
    var next := Advance(st, 1);
    if q == "" {
      NoQualifiers(s, next, true);
    } else {
      ChainMade(s, next, q, true, true, CvQualifiers(s, next, true));
    }
  }

  lemma {:induction false} MemberNameChars(s: CString, n: nat, q: string, ref: Ref, parts: seq<Part>)
    requires WellScoped(parts) && forall p | p in parts :: PartWellFormed(p)
    requires Reads(s, n, "N" + (q + (RefLetter(ref) + (MangleParts(parts) + "E"))))
    ensures
      var end, k, m := n + 1 + |q|, |RefLetter(ref)|, |MangleParts(parts)|;
      && n < |s| && Peek(s, n) == 'N' && Reads(s, n + 1, q) && !IsQualifier(Peek(s, end))
      && Reads(s, end, RefLetter(ref)) && end + k <= |s| && Peek(s, end + k) !in "RO"
      && Reads(s, end + k, MangleParts(parts)) && Peek(s, end + k + m) == 'E'
  {
    hide *;
    var tail := RefLetter(ref) + (MangleParts(parts) + "E");
    ReadsSplit(s, n, "N", q + tail);
    ReadsBound(s, n, "N");
    ReadsSplit(s, n + 1, q, tail);
    RefAndParts(s, n + 1 + |q|, ref, parts);
  }

  lemma {:induction false} RefAndParts(s: CString, n: nat, ref: Ref, parts: seq<Part>)
    requires WellScoped(parts) && forall p | p in parts :: PartWellFormed(p)
    requires Reads(s, n, RefLetter(ref) + (MangleParts(parts) + "E"))
    ensures
      var k, m := |RefLetter(ref)|, |MangleParts(parts)|;
      && !IsQualifier(Peek(s, n)) && Reads(s, n, RefLetter(ref)) && n + k <= |s| && Peek(s, n + k) !in "RO"
      && Reads(s, n + k, MangleParts(parts)) && Peek(s, n + k + m) == 'E'
  {
    hide *;
    var e, ps := RefLetter(ref), MangleParts(parts);
    ReadsSplit(s, n, e, ps + "E");
    ReadsSplit(s, n + |e|, ps, "E");
    ReadsInside(s, n + |e|, ps);
    ReadsAt(s, n + |e| + |ps|, "E", 0);
    FirstChar(s, n + |e|, parts);
    RefChars(ref, Peek(s, n + |e|));
    if !ref.NoRef? {
      ReadsAt(s, n, e, 0);
    }
  }

  lemma {:induction false} FirstChar(s: CString, n: nat, parts: seq<Part>)
    requires WellScoped(parts) && (forall p | p in parts :: PartWellFormed(p)) && Reads(s, n, MangleParts(parts))
    requires Peek(s, n + |MangleParts(parts)|) == 'E'
    ensures IsDigit(Peek(s, n)) || Peek(s, n) == 'S'
  {
    hide *;
    ScopeForms(parts);
    PartsStep(s, n, PartTree(parts[0]), parts);
    PartStarts(parts[0]);
    ReadsAt(s, n, ManglePart(parts[0]), 0);
  }

  lemma RefChars(ref: Ref, c: char)
    requires IsDigit(c) || c == 'S'
    ensures !IsQualifier(c) && c !in "RO"
    ensures if ref.NoRef? then RefLetter(ref) == "" else RefLetter(ref) != "" && !IsQualifier(RefLetter(ref)[0])
  {
  }

  /** A type of a vendor is a component over its name. */
  lemma {:induction false} VendorRead(s: CString, st: State, name: string)
    requires IsName(name) && Reads(s, st.n, "u" + (Decimal(|name|) + name))
    ensures st.n <= |s|
    ensures
      var r := Type(s, st);
      && r.dc >= 0 && r.st.n == st.n + 1 + |Decimal(|name|) + name| && r.st.subs == st.subs + [r.dc]
      && st.comps + [NameCell(NameText(name)), Link(VendorType, |st.comps|, NULL)] == r.st.comps
      && r.dc == |st.comps| + 1
  {
    hide NameText, Decimal, Number, Type;
    var text := Decimal(|name|) + name;
    ReadsSplit(s, st.n, "u", text);
    ReadsInside(s, st.n + 1, text);
    SourceRead(s, st.n + 1, name);
    VendorStep(s, st);
  }

  /** A qualifier of a vendor is a component over the type, with the name behind it. */
  lemma {:induction false} VendorQualifierRead(s: CString, st: State, name: string, t: Ty)
    requires IsName(name) && WellFormed(t) && Reads(s, st.n, "U" + ((Decimal(|name|) + name) + Mangle(t)))
    requires
      var end := st.n + 1 + |Decimal(|name|) + name| + |Mangle(t)|;
      Peek(s, end) != 'I' && Peek(s, end) != 'B'
    ensures st.n <= |s|
    ensures
      var r := Type(s, st);
      && 0 <= r.dc < |r.st.comps| && r.st.n == st.n + 1 + |Decimal(|name|) + name| + |Mangle(t)|
      && var cell := r.st.comps[r.dc];
         && cell.Link? && cell.tag == VendorTypeQual && Denotes(r.st.comps, |st.comps|, cell.left, TreeOf(t))
         && Denotes(r.st.comps, |st.comps|, cell.right, Name(NameText(name)))
  {
    hide *;
    var text := Decimal(|name|) + name;
    AdvanceMoves(st);
    AdvanceKeeps(st);
    ReadsSplit(s, st.n, "U", text + Mangle(t));
    ReadsSplit(s, st.n + 1, text, Mangle(t));
    ReadsBound(s, st.n, "U");
    ReadsInside(s, st.n + 1, text);
    var next, made := Advance(st, 1), SourceName(s, Advance(st, 1));
    SourceMade(s, next, name);
    NameParsed(next, |text|, NameText(name));
    TypeRead(s, made.st, t);
    var sub := Type(s, made.st);
    ParsedEnd(made.st, sub, |Mangle(t)|, TreeOf(t), Candidates(t));
    VendorQualifierStep(s, st);
    BothStay(next, made, |text|, Name(NameText(name)), [], sub, |Mangle(t)|, TreeOf(t), Candidates(t));
  }

  lemma {:induction false} SourceMade(s: CString, st: State, name: string)
    requires st.n <= |s| && IsName(name) && Reads(s, st.n, Decimal(|name|) + name)
    ensures SourceName(s, st) == MakeEmpty(st.(n := st.n + |Decimal(|name|) + name|), NameCell(NameText(name)))
    ensures SourceName(s, st).st.n == st.n + |Decimal(|name|) + name| <= |s| && SourceName(s, st).dc >= 0
  {
    hide NameText, Decimal, Number;
    SourceRead(s, st.n, name);
  }

  lemma {:induction false} BothStay(st: State, a: Result, m: nat, c: Component, cs: seq<Component>, b: Result, n: nat,
      d: Component, ds: seq<Component>)
    requires Parsed(st, a, m, c, cs) && Parsed(a.st, b, n, d, ds)
    ensures
      var r := AddSubstitution(MakeEmpty(b.st, Link(VendorTypeQual, b.dc, a.dc)));
      && r.dc == |b.st.comps| && |r.st.comps| == |b.st.comps| + 1 && r.st.n == st.n + m + n
      && r.st.comps[r.dc] == Link(VendorTypeQual, b.dc, a.dc)
      && Denotes(r.st.comps, |st.comps|, b.dc, d) && Denotes(r.st.comps, |st.comps|, a.dc, c)
  {
    hide Denotes, Registered;
    var made := MakeEmpty(b.st, Link(VendorTypeQual, b.dc, a.dc)).st;
    DenotesStays(a.st.comps, made.comps, |st.comps|, |st.comps|, a.dc, c);
    DenotesStays(b.st.comps, made.comps, |a.st.comps|, |st.comps|, b.dc, d);
  }

  // ---- Whole functions ----

  /** A name that is not nested, as the name of a function: it is no candidate itself. */
  lemma {:induction false} UnscopedRead(s: CString, st: State, t: Ty)
    requires (t.Named? || t.TemplateOf?) && WellFormed(t) && Reads(s, st.n, Mangle(t))
    requires Peek(s, st.n + |Mangle(t)|) != 'I' && Peek(s, st.n + |Mangle(t)|) != 'B'
    ensures st.n <= |s| && Parsed(st, NameOf(s, st), |Mangle(t)|, TreeOf(t), NameCandidates(t))
    ensures IsDigit(Peek(s, st.n)) || Peek(s, st.n) == 'S'
  {
    hide *;
    ReadsInside(s, st.n, Mangle(t));
    var lo, root, c, es := |st.comps|, t.root, RootTree(t.root), RootCandidates(t.root);
    var k, r := |MangleRoot(root)|, RootMade(s, st, root);
    if t.Named? {
      NameForms(t);
      NamedCandidates(t);
      RootStarts(s, st.n, root);
      RootRead(s, st, root);
      ParsedEnd(st, r, k, c, []);
      ReadsInside(s, st.n, MangleRoot(root));
      RootIsName(s, st, root);
    } else {
      TemplateParts(s, st, t);
      NamedCandidates(t);
      RootStarts(s, st.n, root);
      RootRead(s, st, root);
      ParsedEnd(st, r, k, c, []);
      RootIsName(s, st, root);
      RootParsed(st, r, k, root);
      var name, p, m := RootRegistered(root, r), Args(t.args), |ManglePart(Args(t.args))|;
      ParsedEnd(st, name, k, c, es);
      ParsedUnfold(st, name, k, c, es);
      ReadsInside(s, name.st.n, ManglePart(p));
      TemplateArgsRead(s, name.st, p);
      var args := TemplateArgs(s, name.st);
      ParsedEnd(name.st, args, m, PartTree(p), PartCandidates(p));
      JoinParsed(lo, st, name, k, c, es, p, args, m, PartCandidates(p));
      ParsedUnfold(st, NameOf(s, st), |Mangle(t)|, TreeOf(t), NameCandidates(t));
    }
  }

  lemma NamedCandidates(t: Ty)
    requires (t.Named? || t.TemplateOf?) && WellFormed(t)
    ensures t.Named? ==> NameCandidates(t) == []
    ensures t.TemplateOf? ==>
      PartWellFormed(Args(t.args)) && NameCandidates(t) == RootCandidates(t.root) + PartCandidates(Args(t.args))
  {
    hide RootCandidates, CandidatesAll;
  }

  /** The name of a function. */
  lemma {:induction false} FnNameRead(s: CString, st: State, f: Fn)
    requires WellFormedFn(f) && Reads(s, st.n, MangleName(f))
    requires Peek(s, st.n + |MangleName(f)|) != 'I' && Peek(s, st.n + |MangleName(f)|) != 'B'
    ensures st.n <= |s| && Peek(s, st.n) !in "GT"
    ensures Parsed(st, NameOf(s, st), |MangleName(f)|, NameTree(f), NameCandidates(f.name))
  {
    hide *;
    FnNameText(f);
    if f.name.Scoped? {
      MemberNameRead(s, st, f.qualifiers, f.ref, f.name.parts);
      ReadsSplit(s, st.n, "N", f.qualifiers + (RefLetter(f.ref) + (MangleParts(f.name.parts) + "E")));
      ReadsAt(s, st.n, "N", 0);
    } else {
      UnscopedRead(s, st, f.name);
      DigitOrS(Peek(s, st.n));
    }
  }

  lemma DigitOrS(c: char)
    requires IsDigit(c) || c == 'S'
    ensures c !in "GT"
  {
  }

  lemma PlainTree(c: Component)
    ensures RefTree(NoRef, QualifiedTree("", true, c)) == c
  {
  }

  lemma {:induction false} FnNameText(f: Fn)
    requires WellFormedFn(f)
    ensures WellFormed(f.name) && (f.name.Named? || f.name.TemplateOf? || f.name.Scoped?)
    ensures f.name.Scoped? ==>
      && AllQualifiers(f.qualifiers) && WellScoped(f.name.parts)
      && (forall p | p in f.name.parts :: PartWellFormed(p))
      && MangleName(f) == "N" + (f.qualifiers + (RefLetter(f.ref) + (MangleParts(f.name.parts) + "E")))
      && |MangleName(f)| == 2 + |f.qualifiers| + |RefLetter(f.ref)| + |MangleParts(f.name.parts)|
      && NameTree(f) == RefTree(f.ref, QualifiedTree(f.qualifiers, true,
                                                     NestedTree(PartTree(f.name.parts[0]), f.name.parts[1..])))
      && NameCandidates(f.name) == ScopeCandidates(f.name.parts)
    ensures !f.name.Scoped? ==> MangleName(f) == Mangle(f.name) && NameTree(f) == TreeOf(f.name)
    ensures MangleName(f) != ""
  {
    hide MangleParts, NestedTree, PartTree, ScopeCandidates, RefLetter, PartWellFormed, IsQualifier, MangleRoot;
    hide RootTree, MangleAll, TreesOf;
    if !f.name.Scoped? {
      assert f.qualifiers == "" && f.ref == NoRef;
      PlainTree(TreeOf(f.name));
      HeadOf(f.name);
    }
  }

  /** Parameters, and before them the result if the name is that of a template. */
  lemma {:induction false} CalledRead(s: CString, st: State, f: Fn)
    requires WellFormedFn(f) && WellFormed(f.ret) && forall p | p in f.params :: WellFormed(p)
    requires Reads(s, st.n, (if HasResult(f) then Mangle(f.ret) else "") + MangleAll(f.params))
    requires
      var end := st.n + |if HasResult(f) then Mangle(f.ret) else ""| + |MangleAll(f.params)|;
      end == |s|
    ensures st.n <= |s| && Head(Peek(s, st.n))
    ensures Parsed(st, BareFunction(s, st, HasResult(f)), |s| - st.n, CalledTree(f),
                   (if HasResult(f) then Candidates(f.ret) else []) + CandidatesAll(f.params))
  {
    hide *;
    CalledForms(f);
    AtTheEnd(s);
    var ps, d, ds := MangleAll(f.params), Finished(TreesOf(f.params)), CandidatesAll(f.params);
    assert [] + TreesOf(f.params) == TreesOf(f.params);
    if HasResult(f) {
      var m, c, cs := Mangle(f.ret), TreeOf(f.ret), Candidates(f.ret);
      ReadsSplit(s, st.n, m, ps);
      HeadOf(f.ret);
      ReadsAt(s, st.n, m, 0);
      HeadOfAll(s, st.n + |m|, f.params);
      ReadsInside(s, st.n, m);
      TypeRead(s, st, f.ret);
      var ret := Type(s, st);
      ParsedEnd(st, ret, |m|, c, cs);
      NoneOpen(ArgumentList, ret.st.comps, |ret.st.comps|);
      ParametersRead(s, ret.st, f.params, NULL, NULL, [], |ret.st.comps|);
      var args := Parameters(s, ret.st, NULL, NULL);
      ListParsed(ret.st, args, |ps|, d, ds);
      BareStep(s, st);
      NoAdvance(st);
      BareParsed(st, 0, ret, |m|, c, cs, args, |ps|, d, ds);
    } else {
      assert "" + ps == ps;
      HeadOfAll(s, st.n, f.params);
      ReadsInside(s, st.n, ps);
      NoneOpen(ArgumentList, st.comps, |st.comps|);
      ParametersRead(s, st, f.params, NULL, NULL, [], |st.comps|);
      var args := Parameters(s, st, NULL, NULL);
      ListParsed(st, args, |ps|, d, ds);
      CallStep(s, st);
      CallParsed(st, args, |ps|, d, ds);
      assert [] + ds == ds;
    }
  }

  lemma NoAdvance(st: State)
    ensures Advance(st, 0) == st
  {
  }

  lemma AtTheEnd(s: CString)
    ensures EndOfParameters(s, |s|)
  {
  }

  lemma {:induction false} CalledForms(f: Fn)
    requires WellFormedFn(f)
    ensures f.params != [] && TreesOf(f.params) != []
    ensures CalledTree(f) == Function(if HasResult(f) then Some(TreeOf(f.ret)) else None,
                                      Some(Finished(TreesOf(f.params))))
  {
    hide *;
    TypeForms(f);
    FunctionTrees(TypeOf(f));
    CalledTreeForms(f);
  }

  lemma TypeForms(f: Fn)
    requires WellFormedFn(f)
    ensures var t := TypeOf(f); t.Func? && WellFormed(t) && t.ret == f.ret && t.params == f.params
    ensures WellFormed(f.ret) && f.params != [] && forall p | p in f.params :: WellFormed(p)
  {
  }

  lemma CalledTreeForms(f: Fn)
    requires WellFormedFn(f)
    ensures WellFormed(TypeOf(f)) && TypeOf(f).Func?
    ensures
      var c := FunctionTree(TypeOf(f));
      CalledTree(f) == Function(if HasResult(f) then c.ret else None, c.args)
  {
    hide FunctionTree, WellFormed;
  }

  /** A whole function, encoded at the end of a string, is parsed to the tree of the function. */
  lemma {:induction false} EncodingRead(s: CString, st: State, f: Fn)
    requires WellFormedFn(f) && WellFormed(f.ret) && forall p | p in f.params :: WellFormed(p)
    requires
      var called := (if HasResult(f) then Mangle(f.ret) else "") + MangleAll(f.params);
      Reads(s, st.n, MangleName(f) + called) && st.n + |MangleName(f)| + |called| == |s|
    ensures st.n <= |s| && Parsed(st, Encoding(s, st), |s| - st.n, FnTree(f), FnCandidates(f))
  {
    hide *;
    FnNameText(f);
    var called := (if HasResult(f) then Mangle(f.ret) else "") + MangleAll(f.params);
    var m, c, cs := |MangleName(f)|, NameTree(f), NameCandidates(f.name);
    var d, ds := CalledTree(f), (if HasResult(f) then Candidates(f.ret) else []) + CandidatesAll(f.params);
    ReadsSplit(s, st.n, MangleName(f), called);
    CalledBegins(s, st.n + m, f);
    HeadIsNoOther(Peek(s, st.n + m));
    FnNameRead(s, st, f);
    var name := NameOf(s, st);
    ParsedEnd(st, name, m, c, cs);
    CalledRead(s, name.st, f);
    NameDepth(f);
    ParsedDenotes(st, name, m, c, cs);
    TemplateSeen(name.st.comps, |st.comps|, name.dc, c, 2 * |s|);
    var fn := BareFunction(s, name.st, HasResult(f));
    ParsedEnd(name.st, fn, |s| - name.st.n, d, ds);
    EncodingStep(s, st);
    TypedParsed(st, name, m, c, cs, fn, |s| - name.st.n, d, ds);
    FnForms(f);
  }

  lemma ParsedDenotes(st: State, r: Result, m: nat, c: Component, cs: seq<Component>)
    requires Parsed(st, r, m, c, cs)
    ensures Denotes(r.st.comps, |st.comps|, r.dc, c)
  {
    hide Denotes;
  }

  lemma FnForms(f: Fn)
    requires WellFormedFn(f) && WellFormed(f.ret) && forall p | p in f.params :: WellFormed(p)
    ensures FnTree(f) == Typed(NameTree(f), CalledTree(f))
    ensures FnCandidates(f) ==
      NameCandidates(f.name) + ((if HasResult(f) then Candidates(f.ret) else []) + CandidatesAll(f.params))
  {
    hide NameTree, CalledTree, NameCandidates, Candidates, CandidatesAll, HasResult;
  }

  lemma {:induction false} CalledBegins(s: CString, n: nat, f: Fn)
    requires WellFormedFn(f) && WellFormed(f.ret) && forall p | p in f.params :: WellFormed(p)
    requires Reads(s, n, (if HasResult(f) then Mangle(f.ret) else "") + MangleAll(f.params))
    ensures Head(Peek(s, n))
  {
    hide *;
    TypeForms(f);
    if HasResult(f) {
      ReadsSplit(s, n, Mangle(f.ret), MangleAll(f.params));
      HeadOf(f.ret);
      ReadsAt(s, n, Mangle(f.ret), 0);
    } else {
      assert "" + MangleAll(f.params) == MangleAll(f.params);
      HeadOfAll(s, n, f.params);
    }
  }

  /** The name is a template exactly when the type says what is returned. */
  lemma {:induction false} NameDepth(f: Fn)
    requires WellFormedFn(f)
    ensures IsTemplate(NameTree(f)) <==> HasResult(f)
    ensures ThisDepth(NameTree(f)) < 2 * |MangleName(f)|
  {
    hide *;
    FnNameText(f);
    RefDepth(f.ref, QualifiedTree(f.qualifiers, true, TreeOf(f.name)));
    QualifiersDepth(f.qualifiers, TreeOf(f.name));
    NameIsTemplate(f.name);
    NameTreeForms(f);
  }

  lemma NameTreeForms(f: Fn)
    requires WellFormedFn(f)
    ensures NameTree(f) == RefTree(f.ref, QualifiedTree(f.qualifiers, true, TreeOf(f.name)))
    ensures !f.name.Scoped? ==> f.qualifiers == "" && f.ref.NoRef? && RefLetter(f.ref) == ""
    ensures HasResult(f) <==>
      f.name.TemplateOf? || (f.name.Scoped? && f.name.parts != [] && f.name.parts[|f.name.parts| - 1].Args?)
    ensures forall i | 0 <= i < |f.qualifiers| :: IsQualifier(f.qualifiers[i])
  {
    hide RefTree, QualifiedTree, TreeOf;
  }

  lemma RefDepth(ref: Ref, c: Component)
    ensures ThisDepth(RefTree(ref, c)) == ThisDepth(c) + |RefLetter(ref)|
    ensures IsTemplate(RefTree(ref, c)) <==> IsTemplate(c)
  {
  }

  lemma {:induction false} QualifiersDepth(q: string, c: Component)
    ensures ThisDepth(QualifiedTree(q, true, c)) == ThisDepth(c) + |q|
    ensures IsTemplate(QualifiedTree(q, true, c)) <==> IsTemplate(c)
    decreases |q|
  {
    if q != "" {
      QualifiersDepth(q[1..], c);
    }
  }

  lemma {:induction false} NameIsTemplate(t: Ty)
    requires WellFormed(t) && (t.Named? || t.TemplateOf? || t.Scoped?)
    ensures ThisDepth(TreeOf(t)) == 0
    ensures IsTemplate(TreeOf(t)) <==>
      t.TemplateOf? || (t.Scoped? && t.parts != [] && t.parts[|t.parts| - 1].Args?)
  {
    hide NestedTree, PartTree;
    if t.Scoped? {
      var c := PartTree(t.parts[0]);
      assert !IsThis(c) && !IsTemplate(c) by {
        FirstIsName(t.parts[0]);
      }
      NestedIsTemplate(c, t.parts[1..]);
    }
  }

  lemma FirstIsName(p: Part)
    requires PartWellFormed(p) && !p.Args?
    ensures !IsThis(PartTree(p)) && !IsTemplate(PartTree(p))
  {
  }

  lemma {:induction false} NestedIsTemplate(c: Component, parts: seq<Part>)
    requires (forall p | p in parts :: PartWellFormed(p)) && !IsThis(c)
    ensures var d := NestedTree(c, parts); !IsThis(d) && ThisDepth(d) == 0
    ensures IsTemplate(NestedTree(c, parts)) <==> if parts == [] then IsTemplate(c) else parts[|parts| - 1].Args?
    decreases |parts|
  {
    hide PartTree;
    if parts != [] {
      NestedIsTemplate(Joined(c, parts[0]), parts[1..]);
    }
  }

  /** A mangled function is consumed to its end, to a component that denotes it. */
  lemma {:induction false} FunctionRoundTrip(s: CString, f: Fn)
    requires WellFormedFn(f) && s == MangleFn(f)
    ensures
      var r := MangledName(s, State(0, [], []));
      && r.st.n == |s| && Denotes(r.st.comps, 0, r.dc, FnTree(f)) && |r.st.subs| == |FnCandidates(f)|
      && forall k | 0 <= k < |r.st.subs| :: Denotes(r.st.comps, 0, r.st.subs[k], FnCandidates(f)[k])
  {
    hide *;
    TypeForms(f);
    var called := (if HasResult(f) then Mangle(f.ret) else "") + MangleAll(f.params);
    MangleFnForms(f);
    var start := State(0, [], []);
    WholeReads(s, "_Z" + (MangleName(f) + called));
    ReadsSplit(s, 0, "_Z", MangleName(f) + called);
    ReadsAt(s, 0, "_Z", 0);
    ReadsAt(s, 0, "_Z", 1);
    SecondState();
    EncodingRead(s, Advance(start, 2), f);
    MangledNameStep(s, f);
  }

  lemma MangleFnForms(f: Fn)
    requires WellFormedFn(f) && WellFormed(f.ret) && forall p | p in f.params :: WellFormed(p)
    ensures MangleFn(f) == "_Z" + (MangleName(f) + ((if HasResult(f) then Mangle(f.ret) else "") + MangleAll(f.params)))
  {
    hide MangleName, Mangle, MangleAll, HasResult;
  }

  lemma WholeReads(s: CString, m: string)
    requires s == m
    ensures Reads(s, 0, m)
  {
    assert s[0..|s|] == s;
  }

  lemma SecondState()
    ensures Advance(State(0, [], []), 2) == State(2, [], [])
  {
  }

  lemma {:induction false} MangledNameStep(s: CString, f: Fn)
    requires WellFormedFn(f) && Peek(s, 0) == '_' && Peek(s, 1) == 'Z' && |s| >= 2
    requires Parsed(State(2, [], []), Encoding(s, State(2, [], [])), |s| - 2, FnTree(f), FnCandidates(f))
    ensures
      var r := MangledName(s, State(0, [], []));
      && r.st.n == |s| && Denotes(r.st.comps, 0, r.dc, FnTree(f)) && |r.st.subs| == |FnCandidates(f)|
      && forall k | 0 <= k < |r.st.subs| :: Denotes(r.st.comps, 0, r.st.subs[k], FnCandidates(f)[k])
  {
    hide Denotes, Encoding, FnTree, FnCandidates, WellFormedFn;
  }

  // ---- Whole types ----

  /** A mangled type is parsed to its end, to a component that denotes it, and the substitution table
      then holds its candidates. */
  lemma {:induction false} RoundTrip(s: CString, t: Ty)
    requires WellFormed(t) && s == Mangle(t)
    ensures
      var r := Type(s, State(0, [], []));
      && r.st.n == |s| && Denotes(r.st.comps, 0, r.dc, TreeOf(t)) && |r.st.subs| == |Candidates(t)|
      && forall k | 0 <= k < |r.st.subs| :: Denotes(r.st.comps, 0, r.st.subs[k], Candidates(t)[k])
  {
    hide Type, Mangle, TreeOf, Denotes, Candidates;
    TypeRead(s, State(0, [], []), t);
  }

  /** What an abbreviation stands for: number k behind a type is the k-th candidate in it. */
  lemma {:induction false} AbbreviationRead(pre: CString, t: Ty, k: nat, rest: CString)
    requires WellFormed(t) && pre == Mangle(t) && k < |Candidates(t)| && k < WORD32
    ensures
      var s: CString := pre + Encode(k) + rest;
      var st := Type(s, State(0, [], [])).st;
      var r := Substitution(s, st, false);
      st.n == |pre| && r.st.n == |pre| + |Encode(k)| && Denotes(r.st.comps, 0, r.dc, Candidates(t)[k])
  {
    hide *;
    var s: CString := pre + Encode(k) + rest;
    BehindPrefix(pre, k, rest);
    var start := State(0, [], []);
    TypeRead(s, start, t);
    var r := Type(s, start);
    ParsedEntry(start, r, |pre|, TreeOf(t), Candidates(t), k);
    EntryRead(pre, k, rest, r.st, false);
    SmallAccepted(k);
  }

  lemma {:induction false} BehindPrefix(pre: CString, k: nat, rest: CString)
    ensures
      var s: CString := pre + Encode(k) + rest;
      Reads(s, 0, pre) && Peek(s, |pre|) == 'S'
  {
    hide Base36;
    var s: CString := pre + Encode(k) + rest;
    assert s[0..0 + |pre|] == pre && s[|pre|] == Encode(k)[0];
  }

  lemma ParsedEntry(st: State, r: Result, m: nat, c: Component, cs: seq<Component>, k: nat)
    requires st == State(0, [], []) && Parsed(st, r, m, c, cs) && k < |cs| && k < WORD32
    ensures r.st.n == m && k % WORD32 == k
    ensures IndexOf(r.st.subs, k % WORD32) >= 0 && Denotes(r.st.comps, 0, IndexOf(r.st.subs, k % WORD32), cs[k])
  {
    hide Denotes;
  }

  /** A component denotes at most one tree. */
  lemma {:induction false} DenotesOne(comps: seq<Cell>, lo: nat, dc: int, c: Component, d: Component)
    requires Denotes(comps, lo, dc, c) && Denotes(comps, lo, dc, d)
    ensures c == d
    decreases c, 0
  {
    hide BuiltinName;
    var cell := comps[dc];
    if c.Modifier? {
      DenotesOne(comps, lo, cell.left, c.sub, d.sub);
    } else if c.Function? {
      OptionOne(comps, lo, cell.left, c.ret, d.ret);
      OptionOne(comps, lo, cell.right, c.args, d.args);
    } else if c.ArgList? {
      OptionOne(comps, lo, cell.left, c.first, d.first);
      OptionOne(comps, lo, cell.right, c.rest, d.rest);
    } else if c.QualName? || c.Template? || c.Typed? {
      DenotesOne(comps, lo, cell.left, c.left, d.left);
      DenotesOne(comps, lo, cell.right, c.right, d.right);
    } else if c.PtrMem? {
      DenotesOne(comps, lo, cell.left, c.cls, d.cls);
      DenotesOne(comps, lo, cell.right, c.member, d.member);
    } else if c.ArrayType? {
      OptionOne(comps, lo, cell.left, c.dim, d.dim);
      DenotesOne(comps, lo, cell.right, c.element, d.element);
    }
  }

  lemma {:induction false} OptionOne(comps: seq<Cell>, lo: nat, dc: int, c: Option<Component>, d: Option<Component>)
    requires DenotesOption(comps, lo, dc, c) && DenotesOption(comps, lo, dc, d)
    ensures c == d
    decreases c, 1
  {
    if c.Some? && d.Some? {
      DenotesOne(comps, lo, dc, c.value, d.value);
    }
  }

  /** So the encoding is unambiguous: types with the same encoding are printed the same. */
  lemma {:induction false} Unambiguous(s: CString, t: Ty, u: Ty)
    requires WellFormed(t) && WellFormed(u) && s == Mangle(t) == Mangle(u)
    ensures TreeOf(t) == TreeOf(u)
  {
    hide Type, Mangle, TreeOf, Denotes, Candidates;
    RoundTrip(s, t);
    RoundTrip(s, u);
    var r := Type(s, State(0, [], []));
    DenotesOne(r.st.comps, 0, r.dc, TreeOf(t), TreeOf(u));
  }
}
