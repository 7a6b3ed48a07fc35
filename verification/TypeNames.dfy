/** From the encoding of a type, or of a function, to its declaration: the parser, then the printer. */
module TypeNames {
  import opened Wrappers
  import opened Components
  import opened Declarators
  import opened DeclaratorLaws
  import opened Mangling
  import opened ManglingParser
  import opened MangledTypes
  import opened MangledTypesRead
  import opened Printer
  import opened Spelling
  import opened SpellingLaws

  // ---- The tree of a type is one for the printer ----

  lemma {:induction false} QualifiersPrintable(q: string, ofThis: bool, c: Component)
    ensures
      var t := QualifiedTree(q, ofThis, c);
      && (PrintableType(t) <==> PrintableType(c)) && (Settled(t) <==> Settled(c))
      && (q != "" ==> t.Modifier?)
    decreases |q|
  {
    if q != "" {
      QualifiersPrintable(q[1..], ofThis, c);
    }
  }

  lemma {:induction false} ListPrintable(cs: seq<Component>)
    requires cs != [] && forall i | 0 <= i < |cs| :: !cs[i].ArgList?
    ensures Printable(ListTree(cs)) <==> forall i | 0 <= i < |cs| :: PrintableType(cs[i])
    decreases |cs|
  {
    var rest := cs[1..];
    assert forall i | 0 <= i < |rest| :: rest[i] == cs[i + 1];
    if |cs| > 1 {
      ListPrintable(rest);
      assert (forall i | 0 <= i < |cs| :: PrintableType(cs[i])) <==>
        PrintableType(cs[0]) && (forall i | 0 <= i < |rest| :: PrintableType(rest[i]));
    }
  }

  lemma {:induction false} PrintableParts(c: Component)
    ensures c.Function? && c.ret.Some? && c.args.Some? && c.args.value.ArgList? ==>
      (PrintableType(c) <==> PrintableType(c.ret.value) && Printable(c.args.value))
    ensures c.PtrMem? && Nominal(c.cls) ==> (PrintableType(c) <==> PrintableType(c.cls) && PrintableType(c.member))
    ensures c.PtrMem? && !Nominal(c.cls) ==> !PrintableType(c)
    ensures c.ArrayType? ==> !PrintableType(c)
    ensures c.Name? || c.SubStd? || c.Builtin? ==> PrintableType(c) && Nominal(c)
    ensures c.Modifier? ==> (PrintableType(c) <==> PrintableType(c.sub))
    ensures c.QualName? && Nominal(c.left) && (c.right.Name? || c.right.SubStd?) ==>
      Nominal(c) && (PrintableType(c) <==> PrintableType(c.left))
    ensures c.Template? && Nominal(c.left) && c.right.ArgList? ==>
      Nominal(c) && (PrintableType(c) <==> PrintableType(c.left) && Printable(c.right))
    ensures c.Modifier? || c.Function? || c.PtrMem? || c.ArrayType? || c.ArgList? ==> !Nominal(c)
  {
    if Nominal(c) {
      assert PrintableType(c) <==> PrintableMod(c);
    }
    if c.QualName? || c.Template? {
      assert Nominal(c.left) ==> (PrintableType(c.left) <==> PrintableMod(c.left));
    }
    if c.QualName? && (c.right.Name? || c.right.SubStd?) {
      assert Nominal(c.right) && PrintableMod(c.right);
    }
    if c.Name? || c.SubStd? || c.Builtin? {
      assert PrintableMod(c) && Printable(c);
    }
    if c.PtrMem? || c.ArrayType? {
      assert PrintableMod(c) ==> c.PtrMem? && Nominal(c.cls);
      assert Printable(c) ==> PrintableMod(c);
    }
    if c.PtrMem? && Nominal(c.cls) {
      assert PrintableType(c.cls) <==> PrintableMod(c.cls);
      assert PrintableMod(c) <==> PrintableMod(c.cls);
    }
    if c.Function? && c.args.Some? && c.args.value.ArgList? {
      assert PrintableMod(c) <==> Printable(c.args.value);
    }
  }

  lemma {:induction false} FunctionPrintable(t: Ty)
    requires WellFormed(t) && t.Func?
    requires forall p | p in t.params :: (PrintableType(TreeOf(p)) <==> Flat(p)) && !TreeOf(p).ArgList?
    requires PrintableType(TreeOf(t.ret)) <==> Flat(t.ret)
    ensures FunctionTree(t).Function? && (PrintableType(FunctionTree(t)) <==> Flat(t))
  {
    var args := FunctionTree(t).args.value;
    PrintableParts(FunctionTree(t));
    if t.params == [Letter('v')] {
      assert Flat(t.params[0]) && args == ArgList(None, None);
    } else {
      var cs := TreesOf(t.params);
      assert forall i | 0 <= i < |cs| :: cs[i] == TreeOf(t.params[i]) && t.params[i] in t.params;
      ListPrintable(cs);
    }
  }

  lemma {:induction false} RefPrintable(ref: Ref, c: Component)
    ensures
      var d := RefTree(ref, c);
      && (PrintableType(d) <==> PrintableType(c)) && (Settled(d) <==> Settled(c))
      && (ref.NoRef? || d.Modifier?) && (c.Modifier? || c.Function? ==> !Nominal(d) && !d.ArgList? && !Blank(d))
  {
    PrintableParts(RefTree(ref, c));
  }

  lemma {:induction false} RootPrintable(root: Root)
    requires IsRoot(root)
    ensures var c := RootTree(root); PrintableType(c) && Nominal(c) && Settled(c) && !Blank(c)
  {
    PrintableParts(RootTree(root));
    if root.InStd? {
      PrintableParts(Name("std"));
    } else if root.Standard? {
      StandardNames(root.letter);
    }
  }

  /** The printer covers the tree of a type exactly when the type is flat. */
  lemma {:induction false} FlatIsPrintable(t: Ty)
    requires WellFormed(t)
    ensures PrintableType(TreeOf(t)) <==> Flat(t)
    ensures !TreeOf(t).ArgList? && (Nominal(TreeOf(t)) <==> NamesClass(t))
    decreases t
  {
    PrintableParts(TreeOf(t));
    hide Printable, PrintableType, QualifiedTree, NestedTree, ListTree, BuiltinName, NameText, PrefixKind, IsBuiltin;
    match t
    case Letter(_) =>
    case Named(root) => RootPrintable(root);
    case Prefixed(_, sub) => FlatIsPrintable(sub);
    case Qualified(q, base) =>
      FlatIsPrintable(base);
      if base.Func? {
        var c := QualifiedTree(q, true, FunctionTree(base));
        RefPrintable(base.ref, FunctionTree(base));
        QualifiersPrintable(q, true, FunctionTree(base));
        RefPrintable(base.ref, c);
      } else {
        QualifiersPrintable(q, false, TreeOf(base));
      }
    case Func(ret, params, ref, _) =>
      FlatIsPrintable(ret);
      forall p | p in params ensures (PrintableType(TreeOf(p)) <==> Flat(p)) && !TreeOf(p).ArgList? {
        FlatIsPrintable(p);
      }
      FunctionPrintable(t);
      RefPrintable(ref, FunctionTree(t));
      PrintableParts(FunctionTree(t));
    case Member(cls, member) =>
      FlatIsPrintable(cls);
      FlatIsPrintable(member);
    case ArrayOfTy(_, _) =>
    case TemplateOf(root, args) =>
      ArgsPrintable(args);
      RootPrintable(root);
    case Scoped(parts) =>
      forall p | p in parts ensures p.Args? ==> (Printable(PartTree(p)) <==> FlatPart(p)) && PartTree(p).ArgList? {
        if p.Args? {
          ArgsPrintable(p.args);
        }
      }
      var c := PartTree(parts[0]);
      FirstTree(parts[0]);
      PrintableParts(c);
      NestedPrintable(c, parts[1..]);
      assert parts == [parts[0]] + parts[1..];
  }

  lemma {:induction false} ArgsPrintable(args: seq<Ty>)
    requires forall a | a in args :: WellFormed(a)
    ensures
      var c := ArgsTree(TreesOf(args));
      c.ArgList? && (Printable(c) <==> forall a | a in args :: Flat(a))
    decreases args
  {
    if args != [] {
      var cs := TreesOf(args);
      forall i | 0 <= i < |cs| ensures (PrintableType(cs[i]) <==> Flat(args[i])) && !cs[i].ArgList? {
        FlatIsPrintable(args[i]);
      }
      hide PrintableType, Flat;
      ListPrintable(cs);
      assert (forall a | a in args :: Flat(a)) <==> forall i | 0 <= i < |args| :: Flat(args[i]);
    }
  }

  lemma NotArgs(p: Part)
    ensures !p.Args? ==> FlatPart(p)
  {
  }

  lemma {:induction false} JoinedPrintable(c: Component, p: Part)
    requires PartWellFormed(p) && Nominal(c) && (p.Args? ==> PartTree(p).ArgList?)
    ensures
      var d := Joined(c, p);
      Nominal(d) && (PrintableType(d) <==> PrintableType(c) && (p.Args? ==> Printable(PartTree(p))))
  {
    hide Printable, PrintableType, PrintableMod, ArgsTree, NameText;
    PrintableParts(Joined(c, p));
  }

  /** A prefix with the parts behind it. */
  lemma {:induction false} NestedPrintable(c: Component, parts: seq<Part>)
    requires (forall p | p in parts :: PartWellFormed(p)) && Nominal(c)
    requires forall p | p in parts ::
      p.Args? ==> (Printable(PartTree(p)) <==> FlatPart(p)) && PartTree(p).ArgList?
    ensures
      var d := NestedTree(c, parts);
      Nominal(d) && !d.ArgList? && (PrintableType(d) <==> PrintableType(c) && forall p | p in parts :: FlatPart(p))
    decreases |parts|
  {
    hide Printable, PrintableType, PrintableMod;
    if parts != [] {
      hide PartTree, Joined, FlatPart, PartWellFormed, Nominal;
      var p, d := parts[0], Joined(c, parts[0]);
      assert p in parts;
      JoinedPrintable(c, p);
      NestedPrintable(d, parts[1..]);
      NotArgs(p);
      assert parts == [p] + parts[1..];
    }
  }

  // ---- Reading a tree off the components ----

  /** The tree that a component denotes. */
  method ReadTree(comps: seq<Cell>, dc: int, ghost c: Component) returns (tree: Component)
    requires Denotes(comps, 0, dc, c)
    ensures tree == c
    decreases c, 0
  {
    hide BuiltinName;
    match comps[dc]
    case NameCell(text) => tree := Name(text);
    case SubCell(text) => tree := SubStd(text);
    case BuiltinCell(letter) => tree := Builtin(BuiltinName(letter));
    case Link(tag, left, right) =>
      if tag.Mod? {
        var sub := ReadTree(comps, left, c.sub);
        tree := Modifier(tag.kind, sub);
      } else if tag == PtrMemType {
        var cls := ReadTree(comps, left, c.cls);
        var member := ReadTree(comps, right, c.member);
        tree := PtrMem(cls, member);
      } else if tag == Array {
        var dim := ReadOption(comps, left, c.dim);
        var element := ReadTree(comps, right, c.element);
        tree := ArrayType(dim, element);
      } else if tag == QualifiedName {
        var scope := ReadTree(comps, left, c.left);
        var name := ReadTree(comps, right, c.right);
        tree := QualName(scope, name);
      } else if tag == TypedName {
        var name := ReadTree(comps, left, c.left);
        var type_ := ReadTree(comps, right, c.right);
        tree := Typed(name, type_);
      } else if tag == TemplateId {
        var name := ReadTree(comps, left, c.left);
        var args := ReadTree(comps, right, c.right);
        tree := Template(name, args);
      } else if tag == FunctionTag {
        var ret := ReadOption(comps, left, c.ret);
        var args := ReadOption(comps, right, c.args);
        tree := Function(ret, args);
      } else {
        var first := ReadOption(comps, left, c.first);
        var rest := ReadOption(comps, right, c.rest);
        tree := ArgList(first, rest);
      }
  }

  method ReadOption(comps: seq<Cell>, dc: int, ghost c: Option<Component>) returns (tree: Option<Component>)
    requires DenotesOption(comps, 0, dc, c)
    ensures tree == c
    decreases c, 1
  {
    tree := None;
    if dc != NULL {
      var v := ReadTree(comps, dc, c.value);
      tree := Some(v);
    }
  }

  /** The name of a type from its encoding, with the arrays, the table, the stack and the buffer of
      the code: exactly the spelling of the type. */
  method TypeName(s: CString, ghost t: Ty) returns (name: string)
    requires WellFormed(t) && Flat(t) && s == Mangle(t)
    ensures name == TypeText(t)
  {
    hide *;
    RoundTrip(s, t);
    FlatIsPrintable(t);
    TypesArePrintable(TreeOf(t));
    var parser, dc := DemangleType(s);
    var comps := parser.Components();
    var tree := ReadTree(comps, dc, TreeOf(t));
    name := PrintToString(tree, 0);
    TypeWritten(t, EMPTY);
    FromNothing(TypeText(t));
  }

  /** The name of a function from its encoding, as a C++ programmer would declare it.  The list on the
      stack has room for a name and three qualifiers. */
  method FunctionName(s: CString, ghost f: Fn) returns (name: string)
    requires WellFormedFn(f) && FlatFn(f) && s == MangleFn(f) && |f.qualifiers| + |RefLetter(f.ref)| <= 3
    ensures name == FnText(f)
  {
    hide *;
    FunctionRoundTrip(s, f);
    FnPrintable(f);
    var parser, dc := DemangleName(s);
    var comps := parser.Components();
    var tree := ReadTree(comps, dc, FnTree(f));
    name := PrintToString(tree, 0);
    FunctionWritten(f, EMPTY);
    FromNothing(FnText(f));
  }

  lemma {:induction false} FnPrintable(f: Fn)
    requires WellFormedFn(f) && FlatFn(f) && |f.qualifiers| + |RefLetter(f.ref)| <= 3
    ensures Printable(FnTree(f))
  {
    hide *;
    FnParts(f);
    var c, q, g := TreeOf(f.name), f.qualifiers, FunctionTree(TypeOf(f));
    FlatIsPrintable(f.name);
    NamesPrintable(c);
    NameIsNoModifier(f.name);
    ThisIs(c);
    TypedModsAre(q, f.ref, c);
    ModsCounted(q, f.ref, c);
    NameStaysPrintable(q, f.ref, c);
    TypeParts(f);
    FunctionIsPrintable(TypeOf(f));
    CalledPrintable(g);
    TypedPrintable(RefTree(f.ref, QualifiedTree(q, true, c)), if HasResult(f) then g else g.(ret := None));
  }

  lemma TypeParts(f: Fn)
    requires WellFormedFn(f)
    ensures WellFormed(TypeOf(f)) && TypeOf(f).Func?
  {
  }

  lemma NamesPrintable(c: Component)
    requires PrintableType(c) && Nominal(c)
    ensures PrintableName(c) && !IsThis(c)
  {
  }

  lemma {:induction false} ModsCounted(q: string, ref: Ref, c: Component)
    ensures |[c] + (ThisMods(q, c) + RefMods(ref, QualifiedTree(q, true, c)))| == 1 + |q| + |RefLetter(ref)|
    decreases |q|
  {
    hide QualifiedTree;
    if q != "" {
      ModsCounted(q[1..], NoRef, c);
    }
  }

  lemma {:induction false} NameStaysPrintable(q: string, ref: Ref, c: Component)
    requires PrintableName(c) && forall i | 0 <= i < |q| :: IsQualifier(q[i])
    ensures
      var d := QualifiedTree(q, true, c);
      PrintableName(d) && PrintableName(RefTree(ref, d))
    decreases |q|
  {
    hide Nominal, PrintableMod;
    if q != "" {
      NameStaysPrintable(q[1..], NoRef, c);
    }
  }

  lemma {:induction false} FunctionIsPrintable(t: Ty)
    requires WellFormed(t) && t.Func? && Flat(t)
    ensures PrintableType(FunctionTree(t))
  {
    hide PrintableType;
    forall p | p in t.params ensures (PrintableType(TreeOf(p)) <==> Flat(p)) && !TreeOf(p).ArgList? {
      FlatIsPrintable(p);
    }
    FlatIsPrintable(t.ret);
    FunctionPrintable(t);
  }

  lemma CalledPrintable(c: Component)
    requires c.Function? && PrintableType(c)
    ensures PrintableType(c.(ret := None))
  {
    var d := c.(ret := None);
    assert PrintableMod(c) && (PrintableMod(d) <==> PrintableMod(c));
  }

  lemma TypedPrintable(l: Component, t: Component)
    requires |TypedMods(l)| <= 4 && PrintableName(l) && PrintableType(t)
    ensures Printable(Typed(l, t))
  {
    hide PrintableName, PrintableType, TypedMods;
  }

  lemma FromNothing(s: string)
    ensures EMPTY.text + s == s
  {
  }

  /** Written out for a pointer or a reference to a function of one parameter ("PFicE" is
      "int (*)(char)"), for a pointer to a member function ("M1AFivE" is "int (A::*)()"), and for a
      nested name ("N1A1BE" is "A::B"). */
  lemma {:induction false} SpelledOut(c: char, r: char, a: char, n: string, m: string)
    requires c in "PRO" && IsBuiltin(r) && IsBuiltin(a) && a != 'v' && IsName(n) && IsName(m)
    ensures
      var f, g := Func(Letter(r), [Letter(a)], NoRef, false), Func(Letter(r), [Letter('v')], NoRef, false);
      var t, u, v := Prefixed(c, f), Member(Named(Plain(n)), g), Scoped([Simple(n), Simple(m)]);
      && WellFormed(t) && Flat(t) && WellFormed(u) && Flat(u) && WellFormed(v) && Flat(v)
      && Mangle(t) == [c] + "F" + [r] + [a] + "E"
      && TypeText(t) == BuiltinName(r) + " (" + (if c == 'P' then "*" else if c == 'R' then "&" else "&&") + ")("
        + BuiltinName(a) + ")"
      && Mangle(u) == "M" + Decimal(|n|) + n + "F" + [r] + "vE"
      && TypeText(u) == BuiltinName(r) + " (" + NameText(n) + "::*)()"
      && Mangle(v) == "N" + Decimal(|n|) + n + Decimal(|m|) + m + "E"
      && TypeText(v) == NameText(n) + "::" + NameText(m)
  {
    hide *;
    OperatorSpelled(c, r, a);
    MemberSpelledOut(r, n);
    NestedSpelledOut(n, m);
  }

  /** Written out for a const member function of one parameter: "_ZNK1A1fEi" is "A::f(int) const". */
  lemma {:induction false} MemberFunctionSpelledOut(a: char, n: string, m: string)
    requires IsBuiltin(a) && a != 'v' && IsName(n) && IsName(m)
    ensures
      var f := Fn(Scoped([Simple(n), Simple(m)]), "K", NoRef, Letter('v'), [Letter(a)]);
      && WellFormedFn(f) && FlatFn(f)
      && MangleFn(f) == "_ZNK" + (Decimal(|n|) + n) + (Decimal(|m|) + m) + "E" + [a]
      && FnText(f) == NameText(n) + "::" + NameText(m) + "(" + BuiltinName(a) + ") const"
  {
    hide *;
    var f := Fn(Scoped([Simple(n), Simple(m)]), "K", NoRef, Letter('v'), [Letter(a)]);
    TwoParts(n, m);
    LastPart(NameText(n), m);
    BothParts(n, m);
    VoidIsLetter();
    FunctionOfOne('v', a);
    OneParameter(a);
    LetterSpelled(a, "", Nothing);
    TypeIs(f);
    FunctionForms(f, n, m, a);
    var x, y, name := Decimal(|n|) + n, Decimal(|m|) + m, NameText(n) + "::" + NameText(m);
    assert "_Z" + (("N" + ("K" + ("" + (x + y + "E")))) + ("" + [a])) == "_ZNK" + x + y + "E" + [a];
    assert BuiltinName(a) + "" == BuiltinName(a);
    assert name + "(" + BuiltinName(a) + ")" + (" const" + "") == name + "(" + BuiltinName(a) + ") const";
  }

  lemma {:induction false} BothParts(n: string, m: string)
    requires IsName(n) && IsName(m)
    ensures PartWellFormed(Simple(n)) && PartWellFormed(Simple(m))
    ensures MangleParts([Simple(n), Simple(m)]) == (Decimal(|n|) + n) + (Decimal(|m|) + m)
  {
    hide NameText, Decimal, IsName;
    LastPart("", m);
    assert [Simple(n), Simple(m)][1..] == [Simple(m)];
  }

  lemma TypeIs(f: Fn)
    ensures TypeOf(f) == Func(f.ret, f.params, NoRef, false)
  {
  }

  lemma {:induction false} FunctionForms(f: Fn, n: string, m: string, a: char)
    requires IsName(n) && IsName(m) && IsBuiltin(a) && a != 'v'
    requires f == Fn(Scoped([Simple(n), Simple(m)]), "K", NoRef, Letter('v'), [Letter(a)])
    requires WellFormed(f.name) && Flat(f.name) && WellFormed(TypeOf(f)) && Flat(TypeOf(f))
    ensures WellFormedFn(f) && FlatFn(f)
    ensures MangleFn(f) ==
      "_Z" + (("N" + ("K" + ("" + (MangleParts([Simple(n), Simple(m)]) + "E")))) + ("" + MangleAll([Letter(a)])))
    ensures FnText(f) == ClassText(f.name) + "(" + ListText([Letter(a)]) + ")" + (" const" + "")
    ensures MangleAll([Letter(a)]) == [a]
  {
    hide NameText, Decimal, IsName, MangleParts, ClassText, ListText, WellFormed, Flat, BuiltinName;
    assert WellFormed(Letter(a)) by {
      LetterSpelled(a, "", Nothing);
    }
    assert [Letter(a)] != [Letter('v')] by {
      assert [Letter(a)][0] == Letter(a);
    }
    assert Mangle(Letter(a)) == [a] && [a] + MangleAll([]) == [a];
    assert !HasResult(f);
    assert ThisQualifiers("K") == " const" by {
      assert "K"[1..] == "";
    }
  }

  lemma {:induction false} OperatorSpelled(c: char, r: char, a: char)
    requires c in "PRO" && IsBuiltin(r) && IsBuiltin(a) && a != 'v'
    ensures
      var t := Prefixed(c, Func(Letter(r), [Letter(a)], NoRef, false));
      && WellFormed(t) && Flat(t) && Mangle(t) == [c] + "F" + [r] + [a] + "E"
      && TypeText(t) == BuiltinName(r) + " (" + (if c == 'P' then "*" else if c == 'R' then "&" else "&&") + ")("
        + BuiltinName(a) + ")"
  {
    hide *;
    var f, sign := Func(Letter(r), [Letter(a)], NoRef, false), if c == 'P' then "*" else if c == 'R' then "&" else "&&";
    FunctionOfOne(r, a);
    FunctionOfLetter(r, a, sign, Snug);
    OperatorDown(c, f);
    assert BuiltinName(r) + " " + ("(" + sign + ")") + "(" + BuiltinName(a) + ")" ==
      BuiltinName(r) + " (" + sign + ")(" + BuiltinName(a) + ")";
    assert [c] + ("F" + [r] + [a] + "E") == [c] + "F" + [r] + [a] + "E";
  }

  lemma OperatorDown(c: char, f: Ty)
    requires c in "PRO" && WellFormed(f) && Flat(f) && f.Func?
    ensures
      var t := Prefixed(c, f);
      && WellFormed(t) && Flat(t) && Mangle(t) == [c] + Mangle(f)
      && TypeText(t) == Spell(f, if c == 'P' then "*" else if c == 'R' then "&" else "&&", Snug)
  {
    hide SpellFunction;
    assert "*" + "" == "*" && "&" + "" == "&" && "&&" + "" == "&&";
  }

  /** A function of one parameter, all builtin types. */
  lemma {:induction false} FunctionOfLetter(r: char, a: char, decl: string, need: Need)
    requires IsBuiltin(r) && IsBuiltin(a)
    ensures
      var f := Func(Letter(r), [Letter(a)], NoRef, false);
      && WellFormed(f) && Flat(f)
      && Spell(f, decl, need) == BuiltinName(r) + " " + (if need.Nothing? then decl else "(" + decl + ")") + "("
        + (if a == 'v' then "" else BuiltinName(a)) + ")"
  {
    hide *;
    var f, params := Func(Letter(r), [Letter(a)], NoRef, false), [Letter(a)];
    FunctionOfOne(r, a);
    FunctionUnfold(f, decl, need);
    SpellingLaws.FunctionParts(f, decl, need, "");
    OneParameter(a);
    LetterSpelled(a, "", Nothing);
    assert BuiltinName(a) + "" == BuiltinName(a);
    var text := if a == 'v' then "" else BuiltinName(a);
    var last := LastBefore(f.ret);
    LetterSpelled(r, Called(decl, need, last, false, text, ""), need);
    CalledResult(decl, need, last, text, "", BuiltinName(r));
  }

  lemma OneParameter(a: char)
    requires IsBuiltin(a)
    ensures WellFormed(Letter(a)) && Flat(Letter(a)) && ListText([Letter(a)]) == Spell(Letter(a), "", Nothing)
    ensures [Letter(a)] == [Letter('v')] <==> a == 'v'
    ensures RefWord(NoRef) == ""
  {
    hide Spell;
    assert [Letter(a)][0] == Letter(a);
  }

  lemma LetterSpelled(c: char, decl: string, need: Need)
    requires IsBuiltin(c)
    ensures WellFormed(Letter(c)) && Flat(Letter(c)) && Spell(Letter(c), decl, need) == BuiltinName(c) + decl
    ensures !HasFunction(Letter(c))
  {
    hide BuiltinName;
  }

  lemma {:induction false} FunctionOfOne(r: char, a: char)
    requires IsBuiltin(r) && IsBuiltin(a)
    ensures
      var f := Func(Letter(r), [Letter(a)], NoRef, false);
      WellFormed(f) && Flat(f) && Mangle(f) == "F" + [r] + [a] + "E"
  {
    hide BuiltinName;
    var params := [Letter(a)];
    assert WellFormed(Letter(r)) && WellFormed(Letter(a)) && Flat(Letter(a)) && Flat(Letter(r));
    assert Mangle(Letter(r)) == [r] && Mangle(Letter(a)) == [a];
    assert MangleAll(params) == [a] + MangleAll([]) == [a];
  }

  lemma {:induction false} MemberSpelledOut(r: char, n: string)
    requires IsBuiltin(r) && IsName(n)
    ensures
      var u := Member(Named(Plain(n)), Func(Letter(r), [Letter('v')], NoRef, false));
      && WellFormed(u) && Flat(u) && Mangle(u) == "M" + Decimal(|n|) + n + "F" + [r] + "vE"
      && TypeText(u) == BuiltinName(r) + " (" + NameText(n) + "::*)()"
  {
    hide *;
    var g, op := Func(Letter(r), [Letter('v')], NoRef, false), NameText(n) + "::*";
    VoidIsLetter();
    FunctionOfOne(r, 'v');
    NamedSpelled(n);
    MemberDown(n, g);
    FunctionOfLetter(r, 'v', op, Apart);
    assert BuiltinName(r) + " " + ("(" + op + ")") + "(" + "" + ")" == BuiltinName(r) + " (" + NameText(n) + "::*)()";
    assert "M" + (Decimal(|n|) + n) + ("F" + [r] + ['v'] + "E") == "M" + Decimal(|n|) + n + "F" + [r] + "vE";
  }

  lemma VoidIsLetter()
    ensures IsBuiltin('v')
  {
  }

  lemma {:induction false} MemberDown(n: string, f: Ty)
    requires IsName(n) && WellFormed(f) && Flat(f) && f.Func?
    ensures
      var u := Member(Named(Plain(n)), f);
      && WellFormed(u) && Flat(u) && Mangle(u) == "M" + Mangle(Named(Plain(n))) + Mangle(f)
      && TypeText(u) == Spell(f, NameText(n) + "::*", Apart)
  {
    hide SpellFunction, NameText, Decimal, IsName, ClassText, Spell;
    NamedSpelled(n);
    var u := Member(Named(Plain(n)), f);
    MemberUnfold(u, "", Nothing);
    FunctionUnfold(f, "", Nothing);
    assert "" + ClassText(Named(Plain(n))) + "::*" + "" == NameText(n) + "::*";
  }

  lemma NamedSpelled(n: string)
    requires IsName(n)
    ensures WellFormed(Named(Plain(n))) && Flat(Named(Plain(n))) && ClassText(Named(Plain(n))) == NameText(n)
    ensures Mangle(Named(Plain(n))) == Decimal(|n|) + n
  {
    hide NameText, Decimal, IsName;
  }

  lemma {:induction false} NestedSpelledOut(n: string, m: string)
    requires IsName(n) && IsName(m)
    ensures
      var v := Scoped([Simple(n), Simple(m)]);
      && WellFormed(v) && Flat(v) && Mangle(v) == "N" + Decimal(|n|) + n + Decimal(|m|) + m + "E"
      && TypeText(v) == NameText(n) + "::" + NameText(m)
  {
    hide NameText, Decimal, IsName, ClassText, Flat;
    var parts := [Simple(n), Simple(m)];
    var text := NameText(n) + "::" + NameText(m);
    assert parts[1..] == [Simple(m)];
    LastPart(NameText(n), m);
    assert MangleParts(parts) == (Decimal(|n|) + n) + (Decimal(|m|) + m);
    assert "N" + ((Decimal(|n|) + n) + (Decimal(|m|) + m) + "E") ==
      "N" + Decimal(|n|) + n + Decimal(|m|) + m + "E";
    TwoParts(n, m);
    assert text + "" == text;
  }

  lemma {:induction false} TwoParts(n: string, m: string)
    requires IsName(n) && IsName(m)
    ensures
      var v := Scoped([Simple(n), Simple(m)]);
      && WellFormed(v) && Flat(v) && ClassText(v) == ScopedText(NameText(n), [Simple(m)])
      && Mangle(v) == "N" + (MangleParts([Simple(n), Simple(m)]) + "E")
  {
    hide NameText, Decimal, IsName, ScopedText, MangleParts;
    assert [Simple(n), Simple(m)][1..] == [Simple(m)];
    assert PartWellFormed(Simple(n)) && PartWellFormed(Simple(m));
  }

  lemma {:induction false} LastPart(scope: string, m: string)
    requires IsName(m)
    ensures PartWellFormed(Simple(m)) && ScopedText(scope, [Simple(m)]) == scope + "::" + NameText(m)
    ensures MangleParts([Simple(m)]) == Decimal(|m|) + m
  {
    hide NameText, Decimal, IsName;
    var parts := [Simple(m)];
    assert parts[0] == Simple(m) && parts[1..] == [];
    assert ScopedText(scope + "::" + NameText(m), []) == scope + "::" + NameText(m);
    assert ManglePart(Simple(m)) + "" == ManglePart(Simple(m));
  }

  lemma TypesArePrintable(c: Component)
    requires PrintableType(c)
    ensures Printable(c)
  {
  }

  // ---- Names that do not depend on the buffer ----

  lemma {:induction false} ListSettled(cs: seq<Component>)
    requires cs != [] && forall i | 0 <= i < |cs| :: Settled(cs[i]) && !Blank(cs[i])
    ensures Settled(ListTree(cs)) && !Blank(ListTree(cs))
    decreases |cs|
  {
    var rest := cs[1..];
    assert forall i | 0 <= i < |rest| :: rest[i] == cs[i + 1];
    if |cs| > 1 {
      ListSettled(rest);
    }
  }

  /** What is written for a flat type does not depend on where the buffer happens to be. */
  lemma {:induction false} FlatIsSettled(t: Ty)
    requires WellFormed(t) && Flat(t)
    ensures Settled(TreeOf(t)) && !Blank(TreeOf(t))
    decreases t
  {
    hide BuiltinName, NameText, QualifiedTree, NestedTree, ListTree, Quiet, HasFunction, PrefixKind, IsBuiltin;
    match t
    case Letter(c) => BuiltinText(c);
    case Named(root) => RootPrintable(root);
    case Prefixed(_, sub) => FlatIsSettled(sub);
    case Qualified(q, base) =>
      FlatIsSettled(base);
      if base.Func? {
        RefPrintable(base.ref, FunctionTree(base));
        QualifiersPrintable(q, true, FunctionTree(base));
        RefPrintable(base.ref, QualifiedTree(q, true, FunctionTree(base)));
      } else {
        QualifiersPrintable(q, false, TreeOf(base));
      }
    case Func(ret, params, ref, _) =>
      FlatIsSettled(ret);
      forall i | 0 <= i < |params| ensures Settled(TreeOf(params[i])) && !Blank(TreeOf(params[i])) {
        FlatIsSettled(params[i]);
      }
      ListSettled(TreesOf(params));
      RefPrintable(ref, FunctionTree(t));
    case Member(cls, member) =>
      FlatIsSettled(cls);
      FlatIsSettled(member);
    case TemplateOf(root, args) =>
      ArgsSettled(args);
      RootPrintable(root);
    case Scoped(parts) =>
      forall p | p in parts ensures Settled(PartTree(p)) {
        if p.Args? {
          ArgsSettled(p.args);
        }
      }
      FirstSettled(parts[0]);
      NestedSettled(PartTree(parts[0]), parts[1..]);
  }

  lemma FirstSettled(p: Part)
    requires PartWellFormed(p) && !p.Args?
    ensures Settled(PartTree(p)) && !Blank(PartTree(p))
  {
    if p.Abbreviated? {
      StandardNames(p.letter);
    }
  }

  lemma {:induction false} ArgsSettled(args: seq<Ty>)
    requires forall a | a in args :: WellFormed(a) && Flat(a)
    ensures Settled(ArgsTree(TreesOf(args)))
    decreases args
  {
    if args != [] {
      var cs := TreesOf(args);
      forall i | 0 <= i < |cs| ensures Settled(cs[i]) && !Blank(cs[i]) {
        FlatIsSettled(args[i]);
      }
      ListSettled(cs);
    }
  }

  lemma {:induction false} NestedSettled(c: Component, parts: seq<Part>)
    requires (forall p | p in parts :: PartWellFormed(p)) && Settled(c) && !Blank(c)
    requires forall p | p in parts :: Settled(PartTree(p))
    ensures Settled(NestedTree(c, parts)) && !Blank(NestedTree(c, parts))
    decreases |parts|
  {
    hide PartTree;
    if parts != [] {
      var p := parts[0];
      assert PartWellFormed(p) && Settled(PartTree(p));
      assert Joined(c, p) == if p.Args? then Template(c, PartTree(p)) else QualName(c, PartTree(p));
      NestedSettled(Joined(c, p), parts[1..]);
    }
  }
}
