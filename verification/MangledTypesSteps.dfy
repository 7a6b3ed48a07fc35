/** One step of the parser for each way to write a type, and what a list of types looks like while it
    is read. */
module MangledTypesSteps {
  import opened Wrappers
  import opened Components
  import opened Mangling
  import opened MangledTypes

  // ---- What the parser does, seen from the characters ----

  lemma HeadIsNoOther(c: char)
    requires Head(c)
    ensures c !in "EYJIB.\0uUXL_" && c != 'I' && c != 'B'
  {
  }

  lemma {:induction false} PlainIsType(s: CString, st: State)
    requires st.n < |s| && !IsQualifier(Peek(s, st.n)) && !IsBuiltin(Peek(s, st.n)) && Peek(s, st.n) != 'S'
    ensures Type(s, st) == AddSubstitution(PlainType(s, st))
  {
    hide AddSubstitution, PlainType;
  }

  lemma {:induction false} PrefixedStep(s: CString, st: State, c: char)
    requires st.n < |s| && Peek(s, st.n) == c && IsPrefix(c)
    ensures
      var sub := Type(s, Advance(st, 1));
      Type(s, st) == AddSubstitution(MakeComp(sub.st, Mod(PrefixKind(c)), sub.dc, NULL))
  {
    hide MakeComp, AddSubstitution, Type, NameOf, ArrayOf, FunctionOf, PointerToMember, SourceName, PrefixKind;
    PlainIsType(s, st);
  }

  lemma {:induction false} MemberStep(s: CString, st: State)
    requires st.n < |s| && Peek(s, st.n) == 'M'
    ensures
      var cls := Type(s, Advance(st, 1));
      cls.dc >= 0 ==>
        var member := Type(s, cls.st);
        member.dc >= 0 ==> Type(s, st) == AddSubstitution(MakeComp(member.st, PtrMemType, cls.dc, member.dc))
  {
    hide MakeComp, AddSubstitution, Type, NameOf, ArrayOf, FunctionOf, SourceName;
    PlainIsType(s, st);
  }

  lemma {:induction false} ArrayStep(s: CString, st: State, n: nat)
    requires st.n < |s| && Peek(s, st.n) == 'A' && IsDigit(Peek(s, st.n + 1))
    requires Number(s, st.n + 1, 0).1 == n <= |s| && Peek(s, n) == '_'
    ensures
      var dim := MakeEmpty(st.(n := n), NameCell(s[st.n + 1..n]));
      var element := Type(s, Advance(dim.st, 1));
      Type(s, st) == AddSubstitution(MakeComp(element.st, Array, dim.dc, element.dc))
  {
    hide MakeComp, AddSubstitution, Number, Type;
    PlainIsType(s, st);
    var dim := MakeEmpty(st.(n := n), NameCell(s[st.n + 1..n]));
    var element := Type(s, Advance(dim.st, 1));
    assert ArrayOf(s, st) == MakeComp(element.st, Array, dim.dc, element.dc);
  }

  /** The state behind the letters of a function type. */
  function Inner(s: CString, st: State): State {
    Advance(st, if Peek(s, st.n + 1) == 'Y' then 2 else 1)
  }

  lemma {:induction false} BareStep(s: CString, st: State)
    requires st.n <= |s| && Head(Peek(s, st.n)) && Type(s, st).dc >= 0
    ensures
      var ret := Type(s, st);
      var args := Parameters(s, ret.st, NULL, NULL);
      args.dc >= 0 ==> BareFunction(s, st, true) == MakeEmpty(args.st, Link(FunctionTag, ret.dc, args.dc))
  {
    HeadIsNoOther(Peek(s, st.n));
    hide Type, Parameters;
  }

  /** The ref-qualifier of a function, over what is made of the rest. */
  function WithRef(fn: Result, ref: Ref): Result {
    match ref
    case NoRef => fn
    case LvalueRef => MakeEmpty(Advance(fn.st, 1), Link(Mod(ReferenceThis), fn.dc, NULL))
    case RvalueRef => MakeEmpty(Advance(fn.st, 1), Link(Mod(RvalueReferenceThis), fn.dc, NULL))
  }

  lemma {:induction false} FunctionStep(s: CString, st: State, ref: Ref)
    requires st.n < |s| && Peek(s, st.n) == 'F' && Inner(s, st).n <= |s|
    requires Reads(s, BareFunction(s, Inner(s, st), true).st.n, RefLetter(ref) + "E")
    ensures FunctionOf(s, st) == Advanced(WithRef(BareFunction(s, Inner(s, st), true), ref), 1)
  {
    hide BareFunction;
    var fn := BareFunction(s, Inner(s, st), true);
    ReadsSplit(s, fn.st.n, RefLetter(ref), "E");
    ReadsAt(s, fn.st.n + |RefLetter(ref)|, "E", 0);
    assert RefQualifier(s, fn.st, fn.dc) == WithRef(fn, ref);
  }

  lemma {:induction false} FunctionIsType(s: CString, st: State)
    requires st.n < |s| && Peek(s, st.n) == 'F'
    ensures Type(s, st) == AddSubstitution(FunctionOf(s, st))
  {
    hide AddSubstitution, FunctionOf, Type;
    PlainIsType(s, st);
  }

  lemma {:induction false} ParametersStep(s: CString, st: State, first: int, last: int)
    requires st.n <= |s| && NULL <= first && !EndOfParameters(s, st.n) && Type(s, st).dc >= 0
    ensures
      var type_ := Type(s, st);
      var cell := MakeEmpty(type_.st, Link(ArgumentList, type_.dc, NULL));
      Parameters(s, st, first, last) ==
        if first < 0 then Parameters(s, cell.st, cell.dc, cell.dc)
        else Parameters(s, SetRight(cell.st, last, cell.dc), first, cell.dc)
  {
    hide Type;
  }

  lemma {:induction false} ArgumentsStep(s: CString, st: State, first: int, last: int)
    requires st.n <= |s| && NULL <= first && Head(Peek(s, st.n)) && Type(s, st).dc >= 0
    ensures
      var type_ := Type(s, st);
      var cell := MakeEmpty(type_.st, Link(TemplateArgList, type_.dc, NULL));
      var st1 := if first < 0 then cell.st else SetRight(cell.st, last, cell.dc);
      var first1 := if first < 0 then cell.dc else first;
      Arguments(s, st, first, last) ==
        if Peek(s, st1.n) == 'E' then Result(Advance(st1, 1), first1) else Arguments(s, st1, first1, cell.dc)
  {
    HeadIsNoOther(Peek(s, st.n));
    hide Type, Head;
    assert TemplateArg(s, st) == Type(s, st);
  }

  lemma {:induction false} TemplateArgsStep(s: CString, st: State)
    requires st.n <= |s| && Peek(s, st.n) == 'I'
    ensures TemplateArgs(s, st) ==
      if Peek(s, st.n + 1) == 'E' then MakeEmpty(Advance(st, 2), Link(TemplateArgList, NULL, NULL))
      else Arguments(s, Advance(st, 1), NULL, NULL)
  {
    hide Arguments;
  }

  // ---- Names that are not nested ----

  /** What is made of such a name. */
  function RootMade(s: CString, st: State, root: Root): Result
    requires st.n <= |s|
  {
    match root
    case Plain(_) => UnqualifiedName(s, st)
    case InStd(_) => UnscopedName(s, st)
    case Standard(_) => Substitution(s, st, false)
  }

  /** A name on its own, and with template arguments. */
  lemma {:induction false} RootIsName(s: CString, st: State, root: Root)
    requires IsRoot(root) && Reads(s, st.n, MangleRoot(root)) && st.n <= |s|
    requires var r := RootMade(s, st, root); r.dc >= 0 && r.st.n <= |s|
    ensures
      var r := RootMade(s, st, root);
      var name := RootRegistered(root, r);
      && name.st.n == r.st.n && name.dc == r.dc
      && (Peek(s, r.st.n) != 'I' ==> NameOf(s, st) == r)
      && (Peek(s, r.st.n) == 'I' ==>
            var args := TemplateArgs(s, name.st);
            args.dc >= 0 ==> NameOf(s, st) == MakeEmpty(args.st, Link(TemplateId, name.dc, args.dc)))
  {
    hide UnqualifiedName, UnscopedName, Substitution, TemplateArgs, WithArguments, MangleRoot, IsRoot, Reads;
    RootStarts(s, st.n, root);
    if root.Plain? {
      PlainIsUnscoped(s, st);
    }
    var name := RootRegistered(root, RootMade(s, st, root));
    if Peek(s, name.st.n) == 'I' {
      InstanceMade(s, name.st, name.dc);
    }
  }

  lemma PlainIsUnscoped(s: CString, st: State)
    requires st.n <= |s| && IsDigit(Peek(s, st.n))
    ensures UnscopedName(s, st) == UnqualifiedName(s, st)
  {
    hide UnqualifiedName;
  }

  /** An abbreviation is not a candidate. */
  function RootRegistered(root: Root, r: Result): Result {
    if root.Standard? then r else AddSubstitution(r)
  }

  /** How such a name begins. */
  lemma {:induction false} RootStarts(s: CString, n: nat, root: Root)
    requires IsRoot(root) && Reads(s, n, MangleRoot(root))
    ensures n < |s| && |MangleRoot(root)| > 0 && n + |MangleRoot(root)| <= |s|
    ensures !root.Plain? ==> n + 1 < |s|
    ensures root.Standard? ==> Peek(s, n + 1) in "absiod"
    ensures root.Plain? ==> IsDigit(Peek(s, n)) && IsDigit(MangleRoot(root)[0])
    ensures !root.Plain? ==> Peek(s, n) == 'S' && MangleRoot(root)[0] == 'S'
    ensures root.InStd? ==> Peek(s, n + 1) == 't'
    ensures root.Standard? ==> Peek(s, n + 1) == root.letter
  {
    hide Decimal, Number;
    if root.Plain? {
      SourceRead(s, n, root.name);
    } else {
      ReadsAt(s, n, MangleRoot(root), 0);
      ReadsAt(s, n, MangleRoot(root), 1);
    }
  }

  /** The abbreviations, with their names. */
  lemma {:induction false} StandardRead(s: CString, st: State, c: char, prefix: bool)
    requires c in "tabsiod" && Reads(s, st.n, "S" + [c]) && (prefix ==> Peek(s, st.n + 2) !in "CD")
    ensures st.n + 2 <= |s|
    ensures Parsed(st, Substitution(s, st, prefix), 2, SubStd(StandardName(c)), [])
    ensures var r := Substitution(s, st, prefix); 0 <= r.dc < |r.st.comps| && r.st.comps[r.dc].SubCell?
  {
    hide *;
    StandardIs(c);
    ReadsAt(s, st.n, "S" + [c], 0);
    ReadsAt(s, st.n, "S" + [c], 1);
    ReadsInside(s, st.n, "S" + [c]);
    StandardStep(s, st, c, prefix);
    StandardParsed(st, StandardSub(c).value);
  }

  lemma StandardIs(c: char)
    requires c in "tabsiod"
    ensures StandardSub(c).Some? && StandardSub(c).value.simple == StandardName(c)
    ensures c != '_' && !IsDigit(c) && !IsUpper(c) && c != '\0'
  {
  }

  lemma {:induction false} StandardStep(s: CString, st: State, c: char, prefix: bool)
    requires st.n + 2 <= |s| && Peek(s, st.n) == 'S' && Peek(s, st.n + 1) == c && StandardSub(c).Some?
    requires c != '_' && !IsDigit(c) && !IsUpper(c) && c != '\0' && (prefix ==> Peek(s, st.n + 2) !in "CD")
    ensures Substitution(s, st, prefix) == MakeStandard(Advance(st, 2), StandardSub(c).value, false)
  {
    hide MakeStandard, StandardSub, SeqId;
  }

  lemma StandardParsed(st: State, sub: Standard)
    ensures
      var r := MakeStandard(Advance(st, 2), sub, false);
      && Parsed(st, r, 2, SubStd(sub.simple), [])
      && 0 <= r.dc < |r.st.comps| && r.st.comps[r.dc].SubCell?
  {
  }

  lemma {:induction false} InStdStep(s: CString, st: State)
    requires st.n + 2 <= |s| && Peek(s, st.n) == 'S' && Peek(s, st.n + 1) == 't'
    ensures
      var std := MakeEmpty(Advance(st, 2), NameCell("std"));
      var name := UnqualifiedName(s, std.st);
      name.dc >= 0 ==> UnscopedName(s, st) == MakeEmpty(name.st, Link(QualifiedName, |st.comps|, name.dc))
  {
    hide UnqualifiedName;
  }

  lemma {:induction false} InStdParsed(st: State, name: Result, m: nat, text: string)
    requires Parsed(MakeEmpty(Advance(st, 2), NameCell("std")).st, name, m, Name(text), [])
    ensures Parsed(st, MakeEmpty(name.st, Link(QualifiedName, |st.comps|, name.dc)), 2 + m,
                   QualName(Name("std"), Name(text)), [])
  {
    hide Registered;
    var lo, std := |st.comps|, MakeEmpty(Advance(st, 2), NameCell("std"));
    RegisteredNone(lo, st.subs, std.st);
    ParsedThen(lo, st, std, 2, Name("std"), [], lo + 1, name, m, Name(text), []);
    var cell, c := Link(QualifiedName, lo, name.dc), QualName(Name("std"), Name(text));
    var made := MakeEmpty(name.st, cell);
    DenotesStays(name.st.comps, made.st.comps, lo, lo, lo, Name("std"));
    DenotesStays(name.st.comps, made.st.comps, lo, lo, name.dc, Name(text));
    var none: seq<Component> := [];
    assert none + none == none;
    ParsedOver(lo, st, name, 2 + m, Name(text), [], cell, c);
  }

  lemma {:induction false} RootRead(s: CString, st: State, root: Root)
    requires IsRoot(root) && Reads(s, st.n, MangleRoot(root)) && Peek(s, st.n + |MangleRoot(root)|) != 'B'
    ensures st.n <= |s| && Parsed(st, RootMade(s, st, root), |MangleRoot(root)|, RootTree(root), [])
    ensures
      var r := RootMade(s, st, root);
      0 <= r.dc < |r.st.comps| && (r.st.comps[r.dc].SubCell? <==> root.Standard?)
  {
    hide *;
    RootStarts(s, st.n, root);
    RootCases(s, st, root);
    RootForms(root);
    if root.Plain? {
      UnqualifiedRead(s, st, root.name);
      NameParsed(st, |MangleRoot(root)|, NameText(root.name));
      NotSubCell(st, RootMade(s, st, root), |MangleRoot(root)|, RootTree(root), []);
    } else if root.InStd? {
      var std, text := MakeEmpty(Advance(st, 2), NameCell("std")).st, Decimal(|root.name|) + root.name;
      StdMoves(st);
      ReadsSplit(s, st.n, "St", text);
      UnqualifiedRead(s, std, root.name);
      NameParsed(std, |text|, NameText(root.name));
      NotSubCell(std, UnqualifiedName(s, std), |text|, Name(NameText(root.name)), []);
      InStdStep(s, st);
      InStdParsed(st, UnqualifiedName(s, std), |text|, NameText(root.name));
      NotSubCell(st, RootMade(s, st, root), |MangleRoot(root)|, RootTree(root), []);
    } else {
      StandardRead(s, st, root.letter, false);
    }
  }

  lemma RootForms(root: Root)
    requires IsRoot(root)
    ensures
      root.Plain? ==>
        && IsName(root.name) && MangleRoot(root) == Decimal(|root.name|) + root.name
        && RootTree(root) == Name(NameText(root.name))
    ensures
      root.InStd? ==>
        && IsName(root.name) && MangleRoot(root) == "St" + (Decimal(|root.name|) + root.name)
        && RootTree(root) == QualName(Name("std"), Name(NameText(root.name)))
    ensures
      root.Standard? ==>
        && root.letter in "tabsiod" && MangleRoot(root) == "S" + [root.letter]
        && RootTree(root) == SubStd(StandardName(root.letter))
  {
    hide Decimal, NameText, StandardName, IsName;
  }

  lemma StdMoves(st: State)
    ensures MakeEmpty(Advance(st, 2), NameCell("std")).st.n == st.n + 2
  {
  }

  lemma {:induction false} NotSubCell(st: State, r: Result, m: nat, c: Component, cs: seq<Component>)
    requires Parsed(st, r, m, c, cs) && (c.Name? || c.QualName?)
    ensures 0 <= r.dc < |r.st.comps| && !r.st.comps[r.dc].SubCell?
  {
    hide Registered;
  }

  /** The type that such a name is, with its template arguments if there are any. */
  lemma {:induction false} RootIsType(s: CString, st: State, root: Root)
    requires IsRoot(root) && Reads(s, st.n, MangleRoot(root)) && st.n <= |s|
    requires
      var r := RootMade(s, st, root);
      0 <= r.dc < |r.st.comps| && (r.st.comps[r.dc].SubCell? <==> root.Standard?) && r.st.n <= |s|
    ensures
      var r := RootMade(s, st, root);
      var name := RootRegistered(root, r);
      && name.st.n == r.st.n
      && (Peek(s, r.st.n) != 'I' ==> Type(s, st) == name)
      && (Peek(s, r.st.n) == 'I' ==>
            var args := TemplateArgs(s, name.st);
            args.dc >= 0 ==> Type(s, st) == AddSubstitution(MakeEmpty(args.st, Link(TemplateId, name.dc, args.dc))))
  {
    hide *;
    RootStarts(s, st.n, root);
    RootCases(s, st, root);
    match root
    case Plain(_) => PlainRootIsType(s, st);
    case InStd(_) => StdRootIsType(s, st);
    case Standard(_) => StandardRootIsType(s, st);
  }

  lemma RootCases(s: CString, st: State, root: Root)
    requires st.n <= |s| && IsRoot(root)
    ensures
      var r := RootMade(s, st, root);
      && r == (if root.Plain? then UnqualifiedName(s, st) else if root.InStd? then UnscopedName(s, st)
               else Substitution(s, st, false))
      && RootRegistered(root, r) == (if root.Standard? then r else AddSubstitution(r))
      && AddSubstitution(r).st.n == r.st.n
  {
    hide UnqualifiedName, UnscopedName, Substitution;
  }

  lemma {:induction false} PlainRootIsType(s: CString, st: State)
    requires st.n < |s| && IsDigit(Peek(s, st.n)) && UnqualifiedName(s, st).dc >= 0
    ensures
      var r := UnqualifiedName(s, st);
      var name := AddSubstitution(r);
      && (Peek(s, r.st.n) != 'I' ==> Type(s, st) == name)
      && (Peek(s, r.st.n) == 'I' ==>
            var args := TemplateArgs(s, name.st);
            args.dc >= 0 ==> Type(s, st) == AddSubstitution(MakeEmpty(args.st, Link(TemplateId, name.dc, args.dc))))
  {
    hide UnqualifiedName, TemplateArgs, WithArguments;
    assert UnscopedName(s, st) == UnqualifiedName(s, st);
    assert PlainType(s, st) == UnscopedTemplate(s, st);
    assert Type(s, st) == AddSubstitution(PlainType(s, st));
    var name := AddSubstitution(UnqualifiedName(s, st));
    if Peek(s, name.st.n) == 'I' {
      InstanceMade(s, name.st, name.dc);
    }
  }

  lemma {:induction false} InstanceMade(s: CString, st: State, dc: int)
    requires st.n <= |s| && NULL <= dc
    ensures
      var args := TemplateArgs(s, st);
      dc >= 0 && args.dc >= 0 ==> WithArguments(s, st, dc) == MakeEmpty(args.st, Link(TemplateId, dc, args.dc))
  {
    hide TemplateArgs;
  }

  lemma {:induction false} StdRootIsType(s: CString, st: State)
    requires st.n + 1 < |s| && Peek(s, st.n) == 'S' && Peek(s, st.n + 1) == 't'
    requires var r := UnscopedName(s, st); 0 <= r.dc < |r.st.comps| && !r.st.comps[r.dc].SubCell?
    ensures
      var r := UnscopedName(s, st);
      var name := AddSubstitution(r);
      && (Peek(s, r.st.n) != 'I' ==> Type(s, st) == name)
      && (Peek(s, r.st.n) == 'I' ==>
            var args := TemplateArgs(s, name.st);
            args.dc >= 0 ==> Type(s, st) == AddSubstitution(MakeEmpty(args.st, Link(TemplateId, name.dc, args.dc))))
  {
    hide UnscopedName, TemplateArgs, WithArguments;
    assert NameOf(s, st) == UnscopedTemplate(s, st);
    assert Type(s, st) == SubstitutedType(s, st);
    var name := AddSubstitution(UnscopedName(s, st));
    if Peek(s, name.st.n) == 'I' {
      InstanceMade(s, name.st, name.dc);
    }
  }

  lemma {:induction false} StandardRootIsType(s: CString, st: State)
    requires st.n + 1 < |s| && Peek(s, st.n) == 'S' && Peek(s, st.n + 1) in "absiod"
    requires var r := Substitution(s, st, false); 0 <= r.dc < |r.st.comps| && r.st.comps[r.dc].SubCell?
    ensures
      var r := Substitution(s, st, false);
      && (Peek(s, r.st.n) != 'I' ==> Type(s, st) == r)
      && (Peek(s, r.st.n) == 'I' ==>
            var args := TemplateArgs(s, r.st);
            args.dc >= 0 ==> Type(s, st) == AddSubstitution(MakeEmpty(args.st, Link(TemplateId, r.dc, args.dc))))
  {
    hide Substitution, TemplateArgs, WithArguments;
    assert NameOf(s, st) == SubstitutedName(s, st);
    assert Type(s, st) == SubstitutedType(s, st);
    var name := Substitution(s, st, false);
    if Peek(s, name.st.n) == 'I' {
      InstanceMade(s, name.st, name.dc);
    }
  }

  // ---- Nested names ----

  lemma {:induction false} NestedStep(s: CString, st: State)
    requires st.n < |s| && Peek(s, st.n) == 'N' && (IsDigit(Peek(s, st.n + 1)) || Peek(s, st.n + 1) == 'S')
    ensures
      var prefix := Prefix(s, Advance(st, 1), NULL);
      prefix.dc >= 0 && Peek(s, prefix.st.n) == 'E' ==> Type(s, st) == AddSubstitution(Advanced(prefix, 1))
  {
    hide Prefix, AddSubstitution;
    var q := CvQualifiers(s, Advance(st, 1), true);
    assert q == Advance(st, 1) by {
      assert st.comps + [] == st.comps;
    }
    assert RefQualifier(s, q, NULL) == Result(q, NULL);
    PlainIsType(s, st);
    var prefix := Prefix(s, q, NULL);
    if prefix.dc >= 0 && Peek(s, prefix.st.n) == 'E' {
      assert CloseNested(prefix, |st.comps|, |q.comps| - 1, NULL) == prefix;
      assert NestedName(s, st) == Advanced(prefix, 1);
      assert PlainType(s, st) == NameOf(s, st) == NestedName(s, st);
    }
  }

  lemma PrefixEnd(s: CString, st: State, ret: int)
    requires st.n <= |s| && NULL <= ret && Peek(s, st.n) == 'E'
    ensures Prefix(s, st, ret) == Result(st, ret)
  {
  }

  lemma {:induction false} PrefixStep(s: CString, st: State, ret: int)
    requires st.n <= |s| && NULL <= ret && (IsDigit(Peek(s, st.n)) || (Peek(s, st.n) == 'I' && ret >= 0))
    requires LongerPrefix(s, st, ret).dc >= 0
    ensures
      var longer := LongerPrefix(s, st, ret);
      Prefix(s, st, ret) == Prefix(s, if Peek(s, longer.st.n) == 'E' then longer.st else AddSubstitution(longer).st,
                                   longer.dc)
  {
    hide LongerPrefix;
  }

  lemma {:induction false} PrefixSkips(s: CString, st: State)
    requires st.n <= |s| && Peek(s, st.n) == 'S'
    ensures
      var first := Substitution(s, st, true);
      Prefix(s, st, NULL) == Prefix(s, first.st, first.dc)
  {
    hide Substitution;
    assert LongerPrefix(s, st, NULL) == PrefixPart(s, st) == Substitution(s, st, true);
  }

  /** Names are joined as qualified ones, template arguments to what they are for. */
  lemma {:induction false} LongerStep(s: CString, st: State, ret: int)
    requires st.n <= |s| && NULL <= ret && (IsDigit(Peek(s, st.n)) || Peek(s, st.n) == 'I')
    ensures
      var part := if IsDigit(Peek(s, st.n)) then UnqualifiedName(s, st) else TemplateArgs(s, st);
      var tag := if IsDigit(Peek(s, st.n)) then QualifiedName else TemplateId;
      part.dc >= 0 ==> LongerPrefix(s, st, ret) == if ret < 0 then part else MakeEmpty(part.st, Link(tag, ret, part.dc))
  {
    hide UnqualifiedName, TemplateArgs;
  }

  // ---- Lists under construction ----

  /** From `first` to `last` a list of `cs`, every element made before its place in the list, and
      the tail of the last still open. */
  predicate OpenList(tag: Tag, comps: seq<Cell>, lo: nat, first: int, last: int, cs: seq<Component>)
    decreases |cs|
  {
    && cs != [] && lo <= first < |comps|
    && var cell := comps[first];
       && cell.Link? && cell.tag == tag && Denotes(comps[..first], lo, cell.left, cs[0])
       && if |cs| == 1 then last == first && cell.right == NULL
          else first < cell.right && OpenList(tag, comps, lo, cell.right, last, cs[1..])
  }

  lemma {:induction false} LastIsLink(tag: Tag, comps: seq<Cell>, lo: nat, first: int, last: int, cs: seq<Component>)
    requires OpenList(tag, comps, lo, first, last, cs)
    ensures lo <= first <= last < |comps| && comps[last].Link?
    decreases |cs|
  {
    hide Denotes;
    if |cs| > 1 {
      LastIsLink(tag, comps, lo, comps[first].right, last, cs[1..]);
    }
  }

  /** One more element. */
  lemma {:induction false} OpenListAppend(tag: Tag, comps: seq<Cell>, comps1: seq<Cell>, lo: nat, first: int, last: int,
      cs: seq<Component>, n: nat, dc: int, c: Component)
    requires OpenList(tag, comps, lo, first, last, cs) && lo <= first <= last < |comps| <= n < |comps1|
    requires comps[last].Link? && comps1[last] == comps[last].(right := n)
    requires forall i | lo <= i < |comps| && i != last :: comps1[i] == comps[i]
    requires comps1[n] == Link(tag, dc, NULL) && Denotes(comps1[..n], lo, dc, c)
    ensures OpenList(tag, comps1, lo, first, n, cs + [c])
    decreases |cs|
  {
    hide Denotes;
    var all := cs + [c];
    DenotesStays(comps[..first], comps1[..first], lo, lo, comps[first].left, cs[0]);
    if |cs| == 1 {
      assert all[1..] == [c];
    } else {
      LastIsLink(tag, comps, lo, comps[first].right, last, cs[1..]);
      assert all[1..] == cs[1..] + [c];
      OpenListAppend(tag, comps, comps1, lo, comps[first].right, last, cs[1..], n, dc, c);
    }
  }

  lemma {:induction false} OpenListDenotes(tag: Tag, comps: seq<Cell>, lo: nat, first: int, last: int,
      cs: seq<Component>)
    requires OpenList(tag, comps, lo, first, last, cs) && tag in {ArgumentList, TemplateArgList}
    ensures Denotes(comps, lo, first, ListTree(cs))
    decreases |cs|
  {
    DenotesStays(comps[..first], comps, lo, lo, comps[first].left, cs[0]);
    if |cs| > 1 {
      OpenListDenotes(tag, comps, lo, comps[first].right, last, cs[1..]);
    }
  }

  /** What is left of a parameter list at its end. */
  function Finished(cs: seq<Component>): Component
    requires cs != []
  {
    if cs == [Builtin("void")] then ArgList(None, None) else ListTree(cs)
  }

  lemma {:induction false} FinishDenotes(st: State, lo: nat, first: int, last: int, cs: seq<Component>)
    requires OpenList(ArgumentList, st.comps, lo, first, last, cs)
    ensures
      var st1 := FinishParameters(st, first).st;
      Denotes(st1.comps, lo, first, Finished(cs)) && Kept(st.comps, st1.comps, first, last) && st1.subs == st.subs
  {
    var dc := st.comps[first].left;
    if |cs| == 1 {
      VoidIsBuiltin(st, lo, first, dc, cs[0]);
    }
    OpenListDenotes(ArgumentList, st.comps, lo, first, last, cs);
  }

  lemma {:induction false} VoidIsBuiltin(st: State, lo: nat, first: int, dc: int, c: Component)
    requires 0 <= first < |st.comps| && Denotes(st.comps[..first], lo, dc, c)
    ensures IsVoid(st, dc) <==> c == Builtin("void")
  {
    hide BuiltinName;
    if st.comps[dc].BuiltinCell? {
      OnlyVoidIsVoid(st.comps[dc].letter);
    }
  }

  /** Nothing but the first and the last place of a list has changed. */
  predicate Kept(comps: seq<Cell>, comps1: seq<Cell>, first: int, last: int) {
    |comps| <= |comps1| && forall i | 0 <= i < |comps| && i != first && i != last :: comps1[i] == comps[i]
  }

  /** A list of `cs` is open from `first` to `last`, or none is begun. */
  predicate OpenOrNone(tag: Tag, comps: seq<Cell>, lo: nat, first: int, last: int, cs: seq<Component>) {
    if cs == [] then first == last == NULL else OpenList(tag, comps, lo, first, last, cs)
  }

  lemma {:induction false} FirstOrNull(tag: Tag, comps: seq<Cell>, lo: nat, first: int, last: int,
      cs: seq<Component>)
    requires OpenOrNone(tag, comps, lo, first, last, cs)
    ensures NULL <= first && (first < 0 <==> cs == []) && first < |comps| && last < |comps|
  {
    hide Denotes;
    if cs != [] {
      LastIsLink(tag, comps, lo, first, last, cs);
    }
  }

  /** The state with a place in the list for the type just read. */
  function WithPlace(tag: Tag, type_: Result, first: int, last: int): State {
    var st1 := MakeEmpty(type_.st, Link(tag, type_.dc, NULL)).st;
    if first < 0 then st1 else SetRight(st1, last, |type_.st.comps|)
  }

  /** The list with the type just read. */
  lemma {:induction false} OneMore(tag: Tag, st: State, type_: Result, m: nat, lo: nat, first: int, last: int,
      cs: seq<Component>, c: Component, es: seq<Component>)
    requires lo <= |st.comps| && Parsed(st, type_, m, c, es) && OpenOrNone(tag, st.comps, lo, first, last, cs)
    ensures
      var n, st2 := |type_.st.comps|, WithPlace(tag, type_, first, last);
      && OpenList(tag, st2.comps, lo, if first < 0 then n else first, n, cs + [c])
      && st2.n == st.n + m && lo <= n < |st2.comps|
  {
    hide Denotes, Registered;
    var n, st2 := |type_.st.comps|, WithPlace(tag, type_, first, last);
    FirstOrNull(tag, st.comps, lo, first, last, cs);
    if cs != [] {
      LastIsLink(tag, st.comps, lo, first, last, cs);
    }
    DenotesStays(type_.st.comps, st2.comps[..n], |st.comps|, lo, type_.dc, c);
    if cs != [] {
      OpenListAppend(tag, st.comps, st2.comps, lo, first, last, cs, n, type_.dc, c);
    } else {
      assert cs + [c] == [c];
    }
  }

  /** What the rest of the list keeps and registers, with what the type just read has registered. */
  lemma {:induction false} RestRegistered(tag: Tag, st: State, type_: Result, m: nat, lo: nat, first: int, last: int,
      cs: seq<Component>, c: Component, es: seq<Component>, rest: State, ds: seq<Component>)
    requires Parsed(st, type_, m, c, es) && OpenOrNone(tag, st.comps, lo, first, last, cs)
    requires
      var n, st2 := |type_.st.comps|, WithPlace(tag, type_, first, last);
      && Kept(st2.comps, rest.comps, if first < 0 then n else first, n)
      && Registered(|st2.comps|, st2.subs, rest, ds)
    ensures Kept(st.comps, rest.comps, first, last) && Registered(|st.comps|, st.subs, rest, es + ds)
  {
    hide Denotes, Registered, OpenList;
    FirstOrNull(tag, st.comps, lo, first, last, cs);
    var st2 := WithPlace(tag, type_, first, last);
    assert st2.subs == type_.st.subs && Kept(type_.st.comps, st2.comps, last, last);
    RegisteredThen(|st.comps|, st.subs, type_.st, rest, es, |st2.comps|, ds);
  }

  // ---- What is made of the parts ----

  lemma {:induction false} ModifierParsed(st: State, sub: Result, length: nat, kind: Kind, c: Component,
      cs: seq<Component>)
    requires Parsed(Advance(st, 1), sub, length, c, cs)
    ensures Parsed(st, AddSubstitution(MakeComp(sub.st, Mod(kind), sub.dc, NULL)), length + 1, Modifier(kind, c),
                   cs + [Modifier(kind, c)])
  {
    hide Registered;
    var lo, cell := |st.comps|, Link(Mod(kind), sub.dc, NULL);
    var made := MakeEmpty(sub.st, cell);
    DenotesStays(sub.st.comps, made.st.comps, lo, lo, sub.dc, c);
    assert ParsedFrom(lo, st, sub, length + 1, c, cs);
    ParsedOver(lo, st, sub, length + 1, c, cs, cell, Modifier(kind, c));
    ParsedRegistered(lo, st, made, length + 1, Modifier(kind, c), cs);
  }

  lemma {:induction false} MemberParsed(st: State, cls: Result, m: nat, c: Component, cs: seq<Component>,
      member: Result, n: nat, d: Component, ds: seq<Component>)
    requires Parsed(Advance(st, 1), cls, m, c, cs) && Parsed(cls.st, member, n, d, ds)
    ensures Parsed(st, AddSubstitution(MakeComp(member.st, PtrMemType, cls.dc, member.dc)), 1 + m + n, PtrMem(c, d),
                   cs + ds + [PtrMem(c, d)])
  {
    hide Registered, Denotes;
    var lo, cell := |st.comps|, Link(PtrMemType, cls.dc, member.dc);
    var made := MakeEmpty(member.st, cell);
    assert ParsedFrom(lo, st, cls, 1 + m, c, cs);
    ParsedThen(lo, st, cls, 1 + m, c, cs, |cls.st.comps|, member, n, d, ds);
    DenotesStays(member.st.comps, made.st.comps, lo, lo, cls.dc, c);
    DenotesStays(member.st.comps, made.st.comps, lo, lo, member.dc, d);
    PairDenotes(made.st.comps, lo, |member.st.comps|, cls.dc, c, member.dc, d);
    ParsedOver(lo, st, member, 1 + m + n, d, cs + ds, cell, PtrMem(c, d));
    ParsedRegistered(lo, st, made, 1 + m + n, PtrMem(c, d), cs + ds);
  }

  lemma {:induction false} ArrayParsed(st: State, n: nat, text: string, element: Result, m: nat, c: Component,
      cs: seq<Component>)
    requires st.n < n && Parsed(Advance(MakeEmpty(st.(n := n), NameCell(text)).st, 1), element, m, c, cs)
    ensures
      var d := ArrayType(Some(Name(text)), c);
      Parsed(st, AddSubstitution(MakeComp(element.st, Array, |st.comps|, element.dc)), n + 1 - st.n + m, d, cs + [d])
  {
    hide Registered;
    var lo, cell, d := |st.comps|, Link(Array, |st.comps|, element.dc), ArrayType(Some(Name(text)), c);
    var dim, length := Advance(MakeEmpty(st.(n := n), NameCell(text)).st, 1), n + 1 - st.n + m;
    var made := MakeEmpty(element.st, cell);
    assert ParsedFrom(lo, st, Result(dim, lo), n + 1 - st.n, Name(text), []) by {
      RegisteredNone(lo, st.subs, dim);
    }
    ParsedThen(lo, st, Result(dim, lo), n + 1 - st.n, Name(text), [], lo + 1, element, m, c, cs);
    assert [] + cs == cs;
    DenotesStays(element.st.comps, made.st.comps, lo, lo, lo, Name(text));
    DenotesStays(element.st.comps, made.st.comps, lo, lo, element.dc, c);
    ParsedOver(lo, st, element, length, c, cs, cell, d);
    ParsedRegistered(lo, st, made, length, d, cs);
  }

  lemma RegisteredNone(lo: nat, subs: seq<nat>, st: State)
    requires st.subs == subs
    ensures Registered(lo, subs, st, [])
  {
  }

  lemma {:induction false} BareParsed(st: State, k: nat, ret: Result, m: nat, c: Component, cs: seq<Component>,
      args: Result, n: nat, d: Component, ds: seq<Component>)
    requires Parsed(Advance(st, k), ret, m, c, cs) && Parsed(ret.st, args, n, d, ds)
    ensures Parsed(st, MakeEmpty(args.st, Link(FunctionTag, ret.dc, args.dc)), k + m + n,
                   Function(Some(c), Some(d)), cs + ds)
  {
    hide Registered;
    var lo, cell, f := |st.comps|, Link(FunctionTag, ret.dc, args.dc), Function(Some(c), Some(d));
    var made := MakeEmpty(args.st, cell);
    assert ParsedFrom(lo, st, ret, k + m, c, cs);
    ParsedThen(lo, st, ret, k + m, c, cs, |ret.st.comps|, args, n, d, ds);
    DenotesStays(args.st.comps, made.st.comps, lo, lo, ret.dc, c);
    DenotesStays(args.st.comps, made.st.comps, lo, lo, args.dc, d);
    ParsedOver(lo, st, args, k + m + n, d, cs + ds, cell, f);
  }

  /** The function with its ref-qualifier. */
  lemma {:induction false} RefParsed(st: State, fn: Result, m: nat, c: Component, cs: seq<Component>, ref: Ref)
    requires Parsed(st, fn, m, c, cs)
    ensures Parsed(st, WithRef(fn, ref), m + |RefLetter(ref)|, RefTree(ref, c), cs)
  {
    hide Registered;
    if !ref.NoRef? {
      var kind := if ref.LvalueRef? then ReferenceThis else RvalueReferenceThis;
      var lo, cell, next := |st.comps|, Link(Mod(kind), fn.dc, NULL), Advanced(fn, 1);
      ParsedAdvanced(lo, st, fn, m, c, cs, 1);
      var made := MakeEmpty(next.st, cell);
      DenotesStays(fn.st.comps, made.st.comps, lo, lo, fn.dc, c);
      ModifierDenotes(made.st.comps, lo, |fn.st.comps|, kind, fn.dc, c);
      ParsedOver(lo, st, next, m + 1, c, cs, cell, Modifier(kind, c));
    }
  }

  lemma ParsedAdvanced(lo: nat, st: State, r: Result, m: nat, c: Component, cs: seq<Component>, k: nat)
    requires ParsedFrom(lo, st, r, m, c, cs)
    ensures ParsedFrom(lo, st, Advanced(r, k), m + k, c, cs)
  {
    hide Denotes;
  }

  /** A prefix with one more part. */
  lemma {:induction false} JoinParsed(lo: nat, st: State, prefix: Result, m: nat, c: Component, cs: seq<Component>,
      p: Part, part: Result, n: nat, ds: seq<Component>)
    requires PartWellFormed(p) && lo <= |st.comps| && ParsedFrom(lo, st, prefix, m, c, cs)
    requires Parsed(prefix.st, part, n, PartTree(p), ds)
    ensures
      var tag := if p.Args? then TemplateId else QualifiedName;
      ParsedFrom(lo, st, MakeEmpty(part.st, Link(tag, prefix.dc, part.dc)), m + n, Joined(c, p), cs + ds)
  {
    hide Registered, PartTree, PartWellFormed;
    var cell, d := Link(if p.Args? then TemplateId else QualifiedName, prefix.dc, part.dc), PartTree(p);
    var made := MakeEmpty(part.st, cell);
    ParsedThen(lo, st, prefix, m, c, cs, |prefix.st.comps|, part, n, d, ds);
    DenotesStays(part.st.comps, made.st.comps, lo, lo, prefix.dc, c);
    DenotesStays(part.st.comps, made.st.comps, lo, lo, part.dc, d);
    ParsedOver(lo, st, part, m + n, d, cs + ds, cell, Joined(c, p));
  }

  // ---- Qualifiers ----

  predicate AllQualifiers(q: string) {
    forall i | 0 <= i < |q| :: IsQualifier(q[i])
  }

  lemma {:induction false} QualifiersCounted(s: CString, n: nat, q: string)
    requires AllQualifiers(q) && Reads(s, n, q) && !IsQualifier(Peek(s, n + |q|))
    ensures QualifierCount(s, n) == |q|
    decreases |q|
  {
    if q != "" {
      assert q == [q[0]] + q[1..];
      ReadsSplit(s, n, [q[0]], q[1..]);
      QualifiersCounted(s, n + 1, q[1..]);
    }
  }

  /** A closed chain, from its `i`-th qualifier on. */
  lemma {:induction false} ChainDenotes(comps: seq<Cell>, lo: nat, q: string, ofThis: bool, i: nat, dc: int,
      c: Component)
    requires i < |q| && lo + |q| <= |comps| && Denotes(comps, lo, dc, c)
    requires forall j | 0 <= j < |q| ::
      comps[lo + j] == Link(Mod(QualifierKind(q[j], ofThis)), if j + 1 < |q| then lo + j + 1 else dc, NULL)
    ensures Denotes(comps, lo, lo + i, QualifiedTree(q[i..], ofThis, c))
    decreases |q| - i
  {
    hide *;
    assert q[i..][0] == q[i] && q[i..][1..] == q[i + 1..];
    var kind, next := QualifierKind(q[i], ofThis), if i + 1 < |q| then lo + i + 1 else dc;
    TreeStep(q[i..], ofThis, c);
    if i + 1 < |q| {
      ChainDenotes(comps, lo, q, ofThis, i + 1, dc, c);
    }
    ModifierDenotes(comps, lo, lo + i, kind, next, QualifiedTree(q[i + 1..], ofThis, c));
  }

  lemma TreeStep(q: string, ofThis: bool, c: Component)
    requires q != ""
    ensures QualifiedTree(q, ofThis, c) == Modifier(QualifierKind(q[0], ofThis), QualifiedTree(q[1..], ofThis, c))
    ensures |q| == 1 ==> QualifiedTree(q[1..], ofThis, c) == c
  {
    hide QualifierKind;
  }

  lemma {:induction false} ModifierDenotes(comps: seq<Cell>, lo: nat, dc: nat, kind: Kind, sub: int, c: Component)
    requires lo <= dc < |comps| && comps[dc] == Link(Mod(kind), sub, NULL) && Denotes(comps, lo, sub, c)
    ensures Denotes(comps, lo, dc, Modifier(kind, c))
  {
    hide BuiltinName;
  }

  lemma {:induction false} PairDenotes(comps: seq<Cell>, lo: nat, dc: nat, left: int, c: Component, right: int,
      d: Component)
    requires lo <= dc < |comps| && comps[dc] == Link(PtrMemType, left, right)
    requires Denotes(comps, lo, left, c) && Denotes(comps, lo, right, d)
    ensures Denotes(comps, lo, dc, PtrMem(c, d))
  {
    hide BuiltinName;
  }

  lemma {:induction false} QualifiedStep(s: CString, st: State)
    requires st.n < |s| && IsQualifier(Peek(s, st.n))
    ensures
      var q := CvQualifiers(s, st, false);
      var r := if Peek(s, q.n) == 'F' then FunctionOf(s, q) else Type(s, q);
      Type(s, st) == CloseQualifiers(r, |st.comps|, |q.comps| - 1)
  {
    hide FunctionOf, CloseQualifiers, CvQualifiers, QualifierCount, QualifierChain;
  }

  /** The chain that the qualifiers make, the last one still open. */
  lemma {:induction false} ChainMade(s: CString, st: State, q: string, memberFn: bool, ofThis: bool,
      start: State)
    requires q != "" && AllQualifiers(q) && Reads(s, st.n, q) && !IsQualifier(Peek(s, st.n + |q|))
    requires ofThis == (memberFn || Peek(s, st.n + |q|) == 'F') && start == CvQualifiers(s, st, memberFn)
    ensures start.n == st.n + |q| && start.subs == st.subs && st.comps <= start.comps
    ensures |start.comps| == |st.comps| + |q|
    ensures forall j | 0 <= j < |q| ::
      start.comps[|st.comps| + j] ==
        Link(Mod(QualifierKind(q[j], ofThis)), if j + 1 < |q| then |st.comps| + j + 1 else NULL, NULL)
  {
    hide QualifierChain, QualifierKind, IsQualifier, AllQualifiers;
    QualifiersCounted(s, st.n, q);
    var lo := |st.comps|;
    forall j | 0 <= j < |q|
      ensures start.comps[lo + j] ==
        Link(Mod(QualifierKind(q[j], ofThis)), if j + 1 < |q| then lo + j + 1 else NULL, NULL) {
      ChainAt(s, st.n, lo, ofThis, j);
      ReadsAt(s, st.n, q, j);
    }
  }

  /** The qualifiers, the last one still open, then what they qualify. */
  lemma {:induction false} QualifiersParsed(s: CString, st: State, q: string, ofThis: bool, r: Result, m: nat,
      c: Component, cs: seq<Component>)
    requires q != "" && AllQualifiers(q) && Reads(s, st.n, q) && !IsQualifier(Peek(s, st.n + |q|))
    requires ofThis == (Peek(s, st.n + |q|) == 'F')
    requires Parsed(CvQualifiers(s, st, false), r, m, c, cs) && !IsRefThis(r.st, r.dc)
    ensures
      var last, d := |CvQualifiers(s, st, false).comps| - 1, QualifiedTree(q, ofThis, c);
      Parsed(st, CloseQualifiers(r, |st.comps|, last), |q| + m, d, cs + [d])
  {
    hide *;
    var start := CvQualifiers(s, st, false);
    var lo, k := |st.comps|, |q| - 1;
    ChainMade(s, st, q, false, ofThis, start);
    ParsedGrows(start, r, m, c, cs);
    assert start.comps[lo + k] == Link(Mod(QualifierKind(q[k], ofThis)), NULL, NULL);
    OperandSet(r.st, lo + k, r.dc);
    var st1 := SetLeft(r.st, lo + k, r.dc);
    ParsedStays(start, r, m, c, cs, st1, lo);
    ChainDenotes(st1.comps, lo, q, ofThis, 0, r.dc, c);
    assert q[0..] == q;
    ClosePlain(r, lo, lo + k);
    QualifiersRegistered(st, start, r, m, c, cs, |q|, QualifiedTree(q, ofThis, c));
  }

  lemma ParsedGrows(st: State, r: Result, m: nat, c: Component, cs: seq<Component>)
    requires Parsed(st, r, m, c, cs)
    ensures st.comps <= r.st.comps && |st.comps| <= r.dc < |r.st.comps| && r.st.n == st.n + m
  {
    hide Registered;
  }

  lemma OperandSet(st: State, i: nat, x: int)
    requires i < |st.comps| && st.comps[i].Link?
    ensures
      var st1 := SetLeft(st, i, x);
      st1.comps == st.comps[i := st.comps[i].(left := x)] && st1.n == st.n && st1.subs == st.subs
  {
  }

  /** What is parsed stays when only components before it change. */
  lemma {:induction false} ParsedStays(st: State, r: Result, m: nat, c: Component, cs: seq<Component>, st1: State,
      lo: nat)
    requires Parsed(st, r, m, c, cs) && lo <= |st.comps| && |st1.comps| == |r.st.comps|
    requires forall i | |st.comps| <= i < |r.st.comps| :: st1.comps[i] == r.st.comps[i]
    ensures Denotes(st1.comps, lo, r.dc, c)
  {
    hide Denotes, Registered;
    DenotesStays(r.st.comps, st1.comps, |st.comps|, lo, r.dc, c);
  }

  lemma {:induction false} QualifiersRegistered(st: State, start: State, r: Result, m: nat, c: Component,
      cs: seq<Component>, k: nat, d: Component)
    requires st.comps <= start.comps && |start.comps| == |st.comps| + k && k > 0 && start.subs == st.subs
    requires start.n == st.n + k && Parsed(start, r, m, c, cs)
    requires Denotes(SetLeft(r.st, |start.comps| - 1, r.dc).comps, |st.comps|, |st.comps|, d)
    ensures
      var st1 := SetLeft(r.st, |start.comps| - 1, r.dc);
      Parsed(st, AddSubstitution(Result(st1, |st.comps|)), k + m, d, cs + [d])
  {
    hide Denotes, Registered;
    var lo, st1 := |st.comps|, SetLeft(r.st, |start.comps| - 1, r.dc);
    RegisteredStays(|start.comps|, lo, st.subs, r.st, st1, cs);
    ParsedRegistered(lo, st, Result(st1, lo), k + m, d, cs);
  }

  /** What is registered stays when only components before it change. */
  lemma {:induction false} RegisteredStays(lo: nat, lo1: nat, subs: seq<nat>, st: State, st1: State,
      cs: seq<Component>)
    requires Registered(lo, subs, st, cs) && lo1 <= lo && st1.subs == st.subs && Extends(st.comps, st1.comps, lo)
    ensures Registered(lo1, subs, st1, cs)
  {
    forall k | 0 <= k < |cs| ensures Denotes(st1.comps, lo1, st1.subs[|subs| + k], cs[k]) {
      DenotesStays(st.comps, st1.comps, lo, lo1, st.subs[|subs| + k], cs[k]);
    }
  }

  lemma ClosePlain(r: Result, first: nat, last: nat)
    requires 0 <= r.dc < |r.st.comps| && !IsRefThis(r.st, r.dc) && last < r.dc
    ensures
      var st := SetLeft(r.st, last, r.dc);
      CloseQualifiers(r, first, last) == AddSubstitution(Result(st, first))
  {
  }

  /** Qualifiers before a function with a ref-qualifier, which moves outside of them. */
  lemma {:induction false} RefQualifiersParsed(s: CString, st: State, q: string, fn: Result, m: nat, c: Component,
      cs: seq<Component>, ref: Ref)
    requires q != "" && AllQualifiers(q) && Reads(s, st.n, q) && !IsQualifier(Peek(s, st.n + |q|))
    requires Peek(s, st.n + |q|) == 'F' && c.Function? && Parsed(CvQualifiers(s, st, false), fn, m, c, cs)
    ensures
      var last, d := |CvQualifiers(s, st, false).comps| - 1, RefTree(ref, QualifiedTree(q, true, c));
      Parsed(st, CloseQualifiers(Advanced(WithRef(fn, ref), 1), |st.comps|, last), |q| + m + |RefLetter(ref)| + 1, d,
             cs + [d])
  {
    hide *;
    var start := CvQualifiers(s, st, false);
    if ref.NoRef? {
      RefNone(fn, c, QualifiedTree(q, true, c));
      ParsedAdvance(start, fn, m, c, cs);
      FunctionIsNoRef(start, fn, m, c, cs);
      QualifiersParsed(s, st, q, true, Advanced(fn, 1), m + 1, c, cs);
    } else {
      var lo, k, kind := |st.comps|, |q| - 1, if ref.LvalueRef? then ReferenceThis else RvalueReferenceThis;
      ChainMade(s, st, q, false, true, start);
      ParsedGrows(start, fn, m, c, cs);
      assert start.comps[lo + k] == Link(Mod(QualifierKind(q[k], true)), NULL, NULL);
      var r := Advanced(WithRef(fn, ref), 1);
      var st2 := Swapped(fn, ref, lo + k, lo);
      CloseRef(fn, ref, lo, lo + k);
      SwappedCells(fn, ref, lo + k, lo);
      DenotesAfter(start, fn, m, c, cs, st2, lo);
      ChainDenotes(st2.comps, lo, q, true, 0, fn.dc, c);
      assert q[0..] == q;
      ModifierDenotes(st2.comps, lo, |fn.st.comps|, kind, lo, QualifiedTree(q, true, c));
      RefTrees(ref, QualifiedTree(q, true, c));
      SwappedRegistered(st, start, fn, m, c, cs, ref, |q|, RefTree(ref, QualifiedTree(q, true, c)));
    }
  }

  lemma RefNone(fn: Result, c: Component, d: Component)
    ensures WithRef(fn, NoRef) == fn && RefLetter(NoRef) == "" && RefTree(NoRef, d) == d
  {
  }

  lemma RefTrees(ref: Ref, d: Component)
    requires !ref.NoRef?
    ensures RefTree(ref, d) == Modifier(if ref.LvalueRef? then ReferenceThis else RvalueReferenceThis, d)
  {
  }

  lemma ParsedAdvance(st: State, r: Result, m: nat, c: Component, cs: seq<Component>)
    requires Parsed(st, r, m, c, cs)
    ensures Parsed(st, Advanced(r, 1), m + 1, c, cs)
  {
    hide Denotes;
  }

  lemma {:induction false} FunctionIsNoRef(st: State, r: Result, m: nat, c: Component, cs: seq<Component>)
    requires c.Function? && Parsed(st, r, m, c, cs)
    ensures var r1 := Advanced(r, 1); !IsRefThis(r1.st, r1.dc)
  {
    hide Registered;
  }

  /** What closing leaves: the last qualifier is over the function, the ref-qualifier over the first. */
  function Swapped(fn: Result, ref: Ref, last: nat, first: nat): State {
    SetLeft(SetLeft(Advanced(WithRef(fn, ref), 1).st, |fn.st.comps|, first), last, fn.dc)
  }

  lemma {:induction false} CloseRef(fn: Result, ref: Ref, first: nat, last: nat)
    requires !ref.NoRef? && last < |fn.st.comps| && fn.st.comps[last].Link?
    ensures
      var r := Advanced(WithRef(fn, ref), 1);
      CloseQualifiers(r, first, last) == AddSubstitution(Result(Swapped(fn, ref, last, first), |fn.st.comps|))
  {
    hide AddSubstitution;
    var r := Advanced(WithRef(fn, ref), 1);
    var st := SetLeft(r.st, last, r.dc);
    assert r.dc == |fn.st.comps| && IsRefThis(st, r.dc) && LeftOf(st, r.dc) == fn.dc;
    var st2 := SetLeft(SetLeft(st, r.dc, first), last, fn.dc);
    assert st2.comps == Swapped(fn, ref, last, first).comps;
    assert st2 == Swapped(fn, ref, last, first);
  }

  lemma SwappedCells(fn: Result, ref: Ref, last: nat, first: nat)
    requires !ref.NoRef? && last < |fn.st.comps| && fn.st.comps[last].Link?
    ensures
      var st, n := Swapped(fn, ref, last, first), |fn.st.comps|;
      var kind := if ref.LvalueRef? then ReferenceThis else RvalueReferenceThis;
      && |st.comps| == n + 1 && st.comps[n] == Link(Mod(kind), first, NULL)
      && st.comps[last] == fn.st.comps[last].(left := fn.dc) && st.n == fn.st.n + 2 && st.subs == fn.st.subs
      && forall i | 0 <= i < n && i != last :: st.comps[i] == fn.st.comps[i]
  {
  }

  /** What is parsed stays when only components before it change, and others are added. */
  lemma {:induction false} DenotesAfter(st: State, r: Result, m: nat, c: Component, cs: seq<Component>, st1: State,
      lo: nat)
    requires Parsed(st, r, m, c, cs) && lo <= |st.comps| && |st1.comps| >= |r.st.comps|
    requires forall i | |st.comps| <= i < |r.st.comps| :: st1.comps[i] == r.st.comps[i]
    ensures Denotes(st1.comps, lo, r.dc, c)
  {
    hide Denotes, Registered;
    DenotesStays(r.st.comps, st1.comps, |st.comps|, lo, r.dc, c);
  }

  lemma {:induction false} SwappedRegistered(st: State, start: State, fn: Result, m: nat, c: Component,
      cs: seq<Component>, ref: Ref, k: nat, d: Component)
    requires st.comps <= start.comps && |start.comps| == |st.comps| + k && k > 0 && start.subs == st.subs
    requires start.n == st.n + k && Parsed(start, fn, m, c, cs) && !ref.NoRef? && start.comps[|start.comps| - 1].Link?
    requires Denotes(Swapped(fn, ref, |start.comps| - 1, |st.comps|).comps, |st.comps|, |fn.st.comps|, d)
    ensures
      var st2 := Swapped(fn, ref, |start.comps| - 1, |st.comps|);
      Parsed(st, AddSubstitution(Result(st2, |fn.st.comps|)), k + m + |RefLetter(ref)| + 1, d, cs + [d])
  {
    hide Denotes, Registered, Swapped;
    var lo, st2 := |st.comps|, Swapped(fn, ref, |start.comps| - 1, |st.comps|);
    assert fn.st.comps[|start.comps| - 1] == start.comps[|start.comps| - 1];
    SwappedCells(fn, ref, |start.comps| - 1, lo);
    RegisteredStays(|start.comps|, lo, st.subs, fn.st, st2, cs);
    ParsedRegistered(lo, st, Result(st2, |fn.st.comps|), k + m + |RefLetter(ref)| + 1, d, cs);
  }

  /** A type that is not a function is never a ref-qualified one. */
  lemma {:induction false} NoRefThis(t: Ty, st: State, lo: nat, dc: int)
    requires WellFormed(t) && !t.Qualified? && !t.Func? && Denotes(st.comps, lo, dc, TreeOf(t))
    ensures !IsRefThis(st, dc)
  {
    if t.Scoped? {
      ScopedIsName(t.parts);
    }
  }

  lemma {:induction false} ScopedIsName(parts: seq<Part>)
    requires WellScoped(parts) && forall p | p in parts :: PartWellFormed(p)
    ensures var d := NestedTree(PartTree(parts[0]), parts[1..]); d.Name? || d.SubStd? || d.QualName? || d.Template?
  {
    hide NestedTree;
    NestedIsName(PartTree(parts[0]), parts[1..]);
  }

  lemma {:induction false} FirstIsF(t: Ty)
    requires WellFormed(t) && !t.Qualified?
    ensures Mangle(t) != "" && (Mangle(t)[0] == 'F' <==> t.Func?) && !IsQualifier(Mangle(t)[0])
  {
  }

  // ---- Names of member functions ----

  /** The component of a ref-qualifier that is read before what it qualifies. */
  function OpenRef(start: State, ref: Ref): Result {
    match ref
    case NoRef => Result(start, NULL)
    case LvalueRef => MakeEmpty(Advance(start, 1), Link(Mod(ReferenceThis), NULL, NULL))
    case RvalueRef => MakeEmpty(Advance(start, 1), Link(Mod(RvalueReferenceThis), NULL, NULL))
  }

  lemma {:induction false} NestedNameStep(s: CString, st: State, ref: Ref)
    requires st.n < |s| && Peek(s, st.n) == 'N'
    requires
      var q := CvQualifiers(s, Advance(st, 1), true);
      Reads(s, q.n, RefLetter(ref)) && q.n + |RefLetter(ref)| <= |s| && Peek(s, q.n + |RefLetter(ref)|) !in "RO"
    ensures
      var q := CvQualifiers(s, Advance(st, 1), true);
      var open := OpenRef(q, ref);
      var prefix := Prefix(s, open.st, NULL);
      prefix.dc >= 0 && Peek(s, prefix.st.n) == 'E' ==>
        NameOf(s, st) == Advanced(CloseNested(prefix, |st.comps|, |q.comps| - 1, open.dc), 1)
  {
    hide CvQualifiers, QualifierCount, QualifierChain, Prefix, CloseNested;
    var q := CvQualifiers(s, Advance(st, 1), true);
    if !ref.NoRef? {
      ReadsAt(s, q.n, RefLetter(ref), 0);
    }
    assert RefQualifier(s, q, NULL) == OpenRef(q, ref);
  }

  lemma {:induction false} NoQualifiers(s: CString, st: State, memberFn: bool)
    requires !IsQualifier(Peek(s, st.n))
    ensures CvQualifiers(s, st, memberFn) == st
  {
    assert st.comps + [] == st.comps;
  }

  /** What closing a nested name changes. */
  lemma {:induction false} ClosedCells(prefix: Result, first: nat, next: nat, ref: Ref)
    requires prefix.dc >= 0 && first <= next && |prefix.st.comps| >= next + |RefLetter(ref)|
    requires first < next ==> prefix.st.comps[next - 1].Link?
    requires !ref.NoRef? ==> prefix.st.comps[next].Link?
    ensures
      var r := CloseNested(prefix, first, next - 1, if ref.NoRef? then NULL else next);
      var below := if first < next then first else prefix.dc;
      && r.dc == (if ref.NoRef? then below else next) && r.st.n == prefix.st.n && r.st.subs == prefix.st.subs
      && |r.st.comps| == |prefix.st.comps|
      && (first < next ==> r.st.comps[next - 1] == prefix.st.comps[next - 1].(left := prefix.dc))
      && (!ref.NoRef? ==> r.st.comps[next] == prefix.st.comps[next].(left := below))
      && forall i | 0 <= i < |prefix.st.comps| && (first < next ==> i != next - 1) && (!ref.NoRef? ==> i != next) ::
           r.st.comps[i] == prefix.st.comps[i]
  {
  }

  /** Qualifiers and a ref-qualifier, still open, then what they qualify. */
  lemma {:induction false} ClosedParsed(st: State, start: State, q: string, ref: Ref, prefix: Result, m: nat,
      c: Component, cs: seq<Component>)
    requires st.comps <= start.comps && |start.comps| == |st.comps| + |q| && start.subs == st.subs
    requires start.n == st.n + |q| && Parsed(OpenRef(start, ref).st, prefix, m, c, cs)
    requires forall j | 0 <= j < |q| ::
      start.comps[|st.comps| + j] ==
        Link(Mod(QualifierKind(q[j], true)), if j + 1 < |q| then |st.comps| + j + 1 else NULL, NULL)
    ensures
      var r := CloseNested(prefix, |st.comps|, |start.comps| - 1, OpenRef(start, ref).dc);
      Parsed(st, r, |q| + |RefLetter(ref)| + m, RefTree(ref, QualifiedTree(q, true, c)), cs)
  {
    hide *;
    var lo, next, open := |st.comps|, |start.comps|, OpenRef(start, ref);
    OpenMade(start, ref);
    ParsedGrows(open.st, prefix, m, c, cs);
    forall i | 0 <= i < next ensures prefix.st.comps[i] == start.comps[i] {
      assert prefix.st.comps[i] == open.st.comps[i];
    }
    assert |open.st.comps| <= |prefix.st.comps|;
    if q != "" {
      var k := |q| - 1;
      assert start.comps[|st.comps| + k] == Link(Mod(QualifierKind(q[k], true)), NULL, NULL);
    }
    if !ref.NoRef? {
      assert prefix.st.comps[next] == open.st.comps[next];
    }
    ClosedCells(prefix, lo, next, ref);
    var r := CloseNested(prefix, lo, next - 1, open.dc);
    DenotesAfter(open.st, prefix, m, c, cs, r.st, lo);
    var below, d := if q == "" then prefix.dc else lo, QualifiedTree(q, true, c);
    TreeNone(q, c);
    if q != "" {
      ChainDenotes(r.st.comps, lo, q, true, 0, prefix.dc, c);
      assert q[0..] == q;
    }
    if !ref.NoRef? {
      RefTrees(ref, d);
      ModifierDenotes(r.st.comps, lo, next, if ref.LvalueRef? then ReferenceThis else RvalueReferenceThis, below, d);
    } else {
      RefNone(prefix, c, d);
    }
    forall i | 0 <= i < lo || |open.st.comps| <= i < |prefix.st.comps|
      ensures r.st.comps[i] == prefix.st.comps[i] {
    }
    ClosedRegistered(st, open.st, prefix, m, c, cs, r, |q| + |RefLetter(ref)| + m, RefTree(ref, d));
  }

  lemma TreeNone(q: string, c: Component)
    ensures q == "" ==> QualifiedTree(q, true, c) == c
  {
  }

  lemma OpenMade(start: State, ref: Ref)
    ensures
      var open := OpenRef(start, ref);
      && open.st.n == start.n + |RefLetter(ref)| && open.st.subs == start.subs && start.comps <= open.st.comps
      && |open.st.comps| == |start.comps| + |RefLetter(ref)|
      && (ref.NoRef? ==> open.dc == NULL && |RefLetter(ref)| == 0)
      && (!ref.NoRef? ==>
            && open.dc == |start.comps| && |RefLetter(ref)| == 1
            && open.st.comps[|start.comps|] ==
              Link(Mod(if ref.LvalueRef? then ReferenceThis else RvalueReferenceThis), NULL, NULL))
  {
  }

  lemma {:induction false} ClosedRegistered(st: State, open: State, prefix: Result, m: nat, c: Component,
      cs: seq<Component>, r: Result, length: nat, d: Component)
    requires st.comps <= open.comps && open.subs == st.subs && Parsed(open, prefix, m, c, cs)
    requires r.st.n == st.n + length && r.st.subs == prefix.st.subs && |r.st.comps| == |prefix.st.comps| && r.dc >= 0
    requires forall i | 0 <= i < |st.comps| || |open.comps| <= i < |prefix.st.comps| ::
      r.st.comps[i] == prefix.st.comps[i]
    requires Denotes(r.st.comps, |st.comps|, r.dc, d)
    ensures Parsed(st, r, length, d, cs)
  {
    hide Denotes, Registered;
    RegisteredStays(|open.comps|, |st.comps|, st.subs, prefix.st, r.st, cs);
    assert st.comps <= r.st.comps by {
      forall i | 0 <= i < |st.comps| ensures r.st.comps[i] == st.comps[i] {
        assert st.comps[i] == open.comps[i] == prefix.st.comps[i];
      }
    }
  }

  // ---- Types of a vendor ----

  lemma {:induction false} VendorStep(s: CString, st: State)
    requires st.n < |s| && Peek(s, st.n) == 'u' && SourceName(s, Advance(st, 1)).dc >= 0
    ensures
      var name := SourceName(s, Advance(st, 1));
      Type(s, st) == AddSubstitution(MakeEmpty(name.st, Link(VendorType, name.dc, NULL)))
  {
    hide SourceName, AddSubstitution;
    PlainIsType(s, st);
  }

  lemma {:induction false} VendorQualifierStep(s: CString, st: State)
    requires st.n < |s| && Peek(s, st.n) == 'U' && SourceName(s, Advance(st, 1)).dc >= 0
    requires Type(s, SourceName(s, Advance(st, 1)).st).dc >= 0
    ensures
      var name := SourceName(s, Advance(st, 1));
      var sub := Type(s, name.st);
      Type(s, st) == AddSubstitution(MakeEmpty(sub.st, Link(VendorTypeQual, sub.dc, name.dc)))
  {
    hide SourceName, AddSubstitution;
    PlainIsType(s, st);
  }

  // ---- Whole functions ----

  lemma {:induction false} CallStep(s: CString, st: State)
    requires st.n <= |s| && Head(Peek(s, st.n))
    ensures
      var args := Parameters(s, st, NULL, NULL);
      args.dc >= 0 ==> BareFunction(s, st, false) == MakeEmpty(args.st, Link(FunctionTag, NULL, args.dc))
  {
    HeadIsNoOther(Peek(s, st.n));
    hide Type, Parameters;
  }

  lemma {:induction false} CallParsed(st: State, args: Result, n: nat, d: Component, ds: seq<Component>)
    requires Parsed(st, args, n, d, ds)
    ensures Parsed(st, MakeEmpty(args.st, Link(FunctionTag, NULL, args.dc)), n, Function(None, Some(d)), ds)
  {
    hide Registered;
    var lo, cell, f := |st.comps|, Link(FunctionTag, NULL, args.dc), Function(None, Some(d));
    var made := MakeEmpty(args.st, cell);
    DenotesStays(args.st.comps, made.st.comps, lo, lo, args.dc, d);
    assert DenotesOption(made.st.comps, lo, NULL, None);
    ParsedOver(lo, st, args, n, d, ds, cell, f);
  }

  lemma {:induction false} EncodingStep(s: CString, st: State)
    requires st.n <= |s| && Peek(s, st.n) !in "GT" && NameOf(s, st).dc >= 0
    requires Head(Peek(s, NameOf(s, st).st.n))
    ensures
      var name := NameOf(s, st);
      var fn := BareFunction(s, name.st, HasReturnType(name.st.comps, name.dc, 2 * |s|));
      fn.dc >= 0 ==> Encoding(s, st) == MakeEmpty(fn.st, Link(TypedName, name.dc, fn.dc))
  {
    HeadIsNoOther(Peek(s, NameOf(s, st).st.n));
    hide NameOf, BareFunction, HasReturnType, Head;
  }

  lemma {:induction false} TypedParsed(st: State, name: Result, m: nat, c: Component, cs: seq<Component>, fn: Result,
      n: nat, d: Component, ds: seq<Component>)
    requires Parsed(st, name, m, c, cs) && Parsed(name.st, fn, n, d, ds)
    ensures Parsed(st, MakeEmpty(fn.st, Link(TypedName, name.dc, fn.dc)), m + n, Typed(c, d), cs + ds)
  {
    hide Registered;
    var lo, cell := |st.comps|, Link(TypedName, name.dc, fn.dc);
    var made := MakeEmpty(fn.st, cell);
    ParsedThen(lo, st, name, m, c, cs, |name.st.comps|, fn, n, d, ds);
    DenotesStays(fn.st.comps, made.st.comps, lo, lo, name.dc, c);
    DenotesStays(fn.st.comps, made.st.comps, lo, lo, fn.dc, d);
    ParsedOver(lo, st, fn, m + n, d, cs + ds, cell, Typed(c, d));
  }

  /** A template, perhaps under qualifiers of `this`. */
  predicate IsTemplate(c: Component) {
    c.Template? || (IsThis(c) && IsTemplate(c.sub))
  }

  function ThisDepth(c: Component): nat {
    if IsThis(c) then 1 + ThisDepth(c.sub) else 0
  }

  /** The code sees from the components whether the name is a template. */
  lemma {:induction false} TemplateSeen(comps: seq<Cell>, lo: nat, dc: int, c: Component, fuel: nat)
    requires Denotes(comps, lo, dc, c) && ThisDepth(c) < fuel
    ensures HasReturnType(comps, dc, fuel) <==> IsTemplate(c)
    decreases c
  {
    hide BuiltinName;
    if IsThis(c) {
      TemplateSeen(comps, lo, comps[dc].left, c.sub, fuel - 1);
    }
  }
}
