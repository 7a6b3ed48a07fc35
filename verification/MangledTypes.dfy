/** Types as the ABI writes them, and that the parser reads them back: the components it makes
    denote the tree that the printer prints.  Nested names and templates are among them; what the ABI
    would abbreviate by a substitution is written out. */
module MangledTypes {
  import opened Wrappers
  import opened Components
  import opened Mangling

  // ---- What a component of the arena denotes ----

  function BuiltinName(c: char): string {
    match c
    case 'a' => "signed char"
    case 'b' => "bool"
    case 'c' => "char"
    case 'd' => "double"
    case 'e' => "long double"
    case 'f' => "float"
    case 'g' => "__float128"
    case 'h' => "unsigned char"
    case 'i' => "int"
    case 'j' => "unsigned int"
    case 'l' => "long"
    case 'm' => "unsigned long"
    case 'n' => "__int128"
    case 'o' => "unsigned __int128"
    case 's' => "short"
    case 't' => "unsigned short"
    case 'v' => "void"
    case 'w' => "wchar_t"
    case 'x' => "long long"
    case 'y' => "unsigned long long"
    case 'z' => "..."
    case _ => ""
  }

  lemma {:induction false} OnlyVoidIsVoid(c: char)
    ensures BuiltinName(c) == "void" <==> c == 'v'
  {
    var name := BuiltinName(c);
    if c == 'b' || c == 'c' || c == 'l' {
      assert name[0] != 'v';
    }
  }

  /** No two letters have the same name. */
  lemma {:induction false} NamesDiffer(c: char, d: char)
    requires IsBuiltin(c) && IsBuiltin(d) && BuiltinName(c) == BuiltinName(d)
    ensures c == d
  {
  }

  /** The tree below `dc`, made of components from `lo` on. */
  predicate Denotes(comps: seq<Cell>, lo: nat, dc: int, c: Component)
    decreases c
  {
    && lo <= dc < |comps|
    && var cell := comps[dc];
       match c
       case Name(text) => cell == NameCell(text)
       case SubStd(text) => cell == SubCell(text)
       case Builtin(text) => cell.BuiltinCell? && BuiltinName(cell.letter) == text
       case Modifier(kind, sub) => cell.Link? && cell.tag == Mod(kind) && Denotes(comps, lo, cell.left, sub)
       case Function(ret, args) =>
         && cell.Link? && cell.tag == FunctionTag && DenotesOption(comps, lo, cell.left, ret)
         && DenotesOption(comps, lo, cell.right, args)
       case QualName(left, right) =>
         && cell.Link? && cell.tag == QualifiedName && Denotes(comps, lo, cell.left, left)
         && Denotes(comps, lo, cell.right, right)
       case Template(left, right) =>
         && cell.Link? && cell.tag == TemplateId && Denotes(comps, lo, cell.left, left)
         && Denotes(comps, lo, cell.right, right)
       case ArgList(first, rest) =>
         && cell.Link? && cell.tag in {ArgumentList, TemplateArgList} && DenotesOption(comps, lo, cell.left, first)
         && DenotesOption(comps, lo, cell.right, rest)
       case Typed(left, right) =>
         && cell.Link? && cell.tag == TypedName && Denotes(comps, lo, cell.left, left)
         && Denotes(comps, lo, cell.right, right)
       case PtrMem(cls, member) =>
         cell.Link? && cell.tag == PtrMemType && Denotes(comps, lo, cell.left, cls)
           && Denotes(comps, lo, cell.right, member)
       case ArrayType(dim, element) =>
         && cell.Link? && cell.tag == Array && DenotesOption(comps, lo, cell.left, dim)
         && Denotes(comps, lo, cell.right, element)
  }

  predicate DenotesOption(comps: seq<Cell>, lo: nat, dc: int, c: Option<Component>)
    decreases c
  {
    match c
    case None => dc == NULL
    case Some(v) => Denotes(comps, lo, dc, v)
  }

  /** More components, and the same ones from `lo` on. */
  predicate Extends(comps: seq<Cell>, comps1: seq<Cell>, lo: nat) {
    |comps| <= |comps1| && forall i | lo <= i < |comps| :: comps1[i] == comps[i]
  }

  lemma {:induction false} DenotesStays(comps: seq<Cell>, comps1: seq<Cell>, lo: nat, lo1: nat, dc: int, c: Component)
    requires Denotes(comps, lo, dc, c) && Extends(comps, comps1, lo) && lo1 <= lo
    ensures Denotes(comps1, lo1, dc, c)
    decreases c
  {
    var cell := comps[dc];
    if c.Modifier? {
      DenotesStays(comps, comps1, lo, lo1, cell.left, c.sub);
    } else if c.Function? {
      OptionStays(comps, comps1, lo, lo1, cell.left, c.ret);
      OptionStays(comps, comps1, lo, lo1, cell.right, c.args);
    } else if c.ArgList? {
      OptionStays(comps, comps1, lo, lo1, cell.left, c.first);
      OptionStays(comps, comps1, lo, lo1, cell.right, c.rest);
    } else if c.QualName? || c.Template? || c.Typed? {
      DenotesStays(comps, comps1, lo, lo1, cell.left, c.left);
      DenotesStays(comps, comps1, lo, lo1, cell.right, c.right);
    } else if c.PtrMem? {
      DenotesStays(comps, comps1, lo, lo1, cell.left, c.cls);
      DenotesStays(comps, comps1, lo, lo1, cell.right, c.member);
    } else if c.ArrayType? {
      OptionStays(comps, comps1, lo, lo1, cell.left, c.dim);
      DenotesStays(comps, comps1, lo, lo1, cell.right, c.element);
    }
  }

  lemma {:induction false} OptionStays(comps: seq<Cell>, comps1: seq<Cell>, lo: nat, lo1: nat, dc: int,
      c: Option<Component>)
    requires DenotesOption(comps, lo, dc, c) && Extends(comps, comps1, lo) && lo1 <= lo
    ensures DenotesOption(comps1, lo1, dc, c)
    decreases c
  {
    if c.Some? {
      DenotesStays(comps, comps1, lo, lo1, dc, c.value);
    }
  }

  // ---- Types and their encodings ----

  datatype Ty =
    | Letter(letter: char)
    | Prefixed(prefix: char, sub: Ty)
    | Qualified(qualifiers: string, base: Ty)
    | Func(ret: Ty, params: seq<Ty>, ref: Ref, externC: bool)
    | Member(cls: Ty, member: Ty)
    | ArrayOfTy(dim: nat, element: Ty)
    | Named(root: Root)
    | TemplateOf(root: Root, args: seq<Ty>)
    | Scoped(parts: seq<Part>)

  /** A name that is not nested: on its own, in namespace std, or one of the abbreviations of the
      standard library. */
  datatype Root = Plain(name: string) | InStd(name: string) | Standard(letter: char)

  /** A part of a nested name: one more name inside, template arguments for all before, or, first, an
      abbreviation of the standard library. */
  datatype Part = Simple(name: string) | Args(args: seq<Ty>) | Abbreviated(letter: char)

  /** The ref-qualifier of a function type. */
  datatype Ref = NoRef | LvalueRef | RvalueRef

  predicate IsName(name: string) {
    name != "" && !IsDigit(name[0]) && '\0' !in name
  }

  predicate WellFormed(t: Ty) {
    match t
    case Letter(c) => IsBuiltin(c)
    case Prefixed(c, sub) => IsPrefix(c) && WellFormed(sub)
    case Qualified(q, base) => q != "" && (forall c | c in q :: IsQualifier(c)) && !base.Qualified? && WellFormed(base)
    case Func(ret, params, _, _) => WellFormed(ret) && params != [] && forall p | p in params :: WellFormed(p)
    case Member(cls, member) => WellFormed(cls) && WellFormed(member)
    case ArrayOfTy(_, element) => WellFormed(element)
    case Named(root) => IsRoot(root)
    case TemplateOf(root, args) => IsRoot(root) && forall a | a in args :: WellFormed(a)
    case Scoped(parts) => WellScoped(parts) && forall p | p in parts :: PartWellFormed(p)
  }

  predicate IsRoot(root: Root) {
    match root
    case Plain(name) => IsName(name)
    case InStd(name) => IsName(name)
    case Standard(c) => c in "absiod"
  }

  /** Arguments need something before them, and an abbreviation can only be the first part. */
  predicate WellScoped(parts: seq<Part>) {
    parts != [] && !parts[0].Args? && forall i | 1 <= i < |parts| :: !parts[i].Abbreviated?
  }

  predicate PartWellFormed(p: Part) {
    match p
    case Simple(name) => IsName(name)
    case Args(args) => forall a | a in args :: WellFormed(a)
    case Abbreviated(c) => c in "tabsiod"
  }

  predicate AllDigits(s: string) {
    forall i | 0 <= i < |s| :: IsDigit(s[i])
  }

  function Decimal(v: nat): (s: string)
    ensures s != "" && AllDigits(s)
  {
    var last := ('0' as nat + v % 10) as char;
    if v < 10 then [last] else Decimal(v / 10) + [last]
  }

  function Mangle(t: Ty): (s: string)
    requires WellFormed(t)
  {
    match t
    case Letter(c) => [c]
    case Prefixed(c, sub) => [c] + Mangle(sub)
    case Qualified(q, base) => q + Mangle(base)
    case Func(ret, params, ref, _) => FunctionLetters(t) + Mangle(ret) + MangleAll(params) + (RefLetter(ref) + "E")
    case Member(cls, member) => "M" + Mangle(cls) + Mangle(member)
    case ArrayOfTy(dim, element) => "A" + Decimal(dim) + "_" + Mangle(element)
    case Named(root) => MangleRoot(root)
    case TemplateOf(root, args) => MangleRoot(root) + ("I" + (MangleAll(args) + "E"))
    case Scoped(parts) => "N" + (MangleParts(parts) + "E")
  }

  function FunctionLetters(t: Ty): string
    requires t.Func?
  {
    if t.externC then "FY" else "F"
  }

  function RefLetter(ref: Ref): string {
    match ref
    case NoRef => ""
    case LvalueRef => "R"
    case RvalueRef => "O"
  }

  function MangleRoot(root: Root): string {
    match root
    case Plain(name) => Decimal(|name|) + name
    case InStd(name) => "St" + (Decimal(|name|) + name)
    case Standard(c) => "S" + [c]
  }

  function MangleParts(parts: seq<Part>): string
    requires forall p | p in parts :: PartWellFormed(p)
  {
    if parts == [] then "" else ManglePart(parts[0]) + MangleParts(parts[1..])
  }

  function ManglePart(p: Part): string
    requires PartWellFormed(p)
  {
    match p
    case Simple(name) => Decimal(|name|) + name
    case Args(args) => "I" + (MangleAll(args) + "E")
    case Abbreviated(c) => "S" + [c]
  }

  function MangleAll(ts: seq<Ty>): (s: string)
    requires forall t | t in ts :: WellFormed(t)
  {
    if ts == [] then "" else Mangle(ts[0]) + MangleAll(ts[1..])
  }

  /** The tree of a type. */
  function TreeOf(t: Ty): (c: Component)
    requires WellFormed(t)
    decreases t, 1
  {
    match t
    case Letter(c) => Builtin(BuiltinName(c))
    case Prefixed(c, sub) => Modifier(PrefixKind(c), TreeOf(sub))
    case Qualified(q, base) =>
      if base.Func? then RefTree(base.ref, QualifiedTree(q, true, FunctionTree(base)))
      else QualifiedTree(q, false, TreeOf(base))
    case Func(_, _, ref, _) => RefTree(ref, FunctionTree(t))
    case Member(cls, member) => PtrMem(TreeOf(cls), TreeOf(member))
    case ArrayOfTy(dim, element) => ArrayType(Some(Name(Decimal(dim))), TreeOf(element))
    case Named(root) => RootTree(root)
    case TemplateOf(root, args) => Template(RootTree(root), ArgsTree(TreesOf(args)))
    case Scoped(parts) => NestedTree(PartTree(parts[0]), parts[1..])
  }

  /** A function type without its ref-qualifier; a single void stands for no parameter. */
  function FunctionTree(t: Ty): (c: Component)
    requires WellFormed(t) && t.Func?
    ensures c.Function? && c.ret.Some? && c.args.Some?
    decreases t, 0
  {
    var args := if t.params == [Letter('v')] then ArgList(None, None) else ListTree(TreesOf(t.params));
    Function(Some(TreeOf(t.ret)), Some(args))
  }

  /** The ref-qualifier goes outside of the others. */
  function RefTree(ref: Ref, c: Component): Component {
    match ref
    case NoRef => c
    case LvalueRef => Modifier(ReferenceThis, c)
    case RvalueRef => Modifier(RvalueReferenceThis, c)
  }

  function RootTree(root: Root): Component {
    match root
    case Plain(name) => Name(NameText(name))
    case InStd(name) => QualName(Name("std"), Name(NameText(name)))
    case Standard(c) => SubStd(StandardName(c))
  }

  function StandardName(c: char): string {
    match c
    case 't' => "std"
    case 'a' => "std::allocator"
    case 'b' => "std::basic_string"
    case 's' => "std::string"
    case 'i' => "std::istream"
    case 'o' => "std::ostream"
    case _ => "std::iostream"
  }

  function ArgsTree(cs: seq<Component>): Component {
    if cs == [] then ArgList(None, None) else ListTree(cs)
  }

  /** The parts are joined from left to right. */
  function NestedTree(c: Component, parts: seq<Part>): Component
    requires forall p | p in parts :: PartWellFormed(p)
    decreases parts
  {
    if parts == [] then c else NestedTree(Joined(c, parts[0]), parts[1..])
  }

  function Joined(c: Component, p: Part): Component
    requires PartWellFormed(p)
    decreases p, 1
  {
    if p.Args? then Template(c, PartTree(p)) else QualName(c, PartTree(p))
  }

  function PartTree(p: Part): Component
    requires PartWellFormed(p)
    decreases p, 0
  {
    match p
    case Simple(name) => Name(NameText(name))
    case Args(args) => ArgsTree(TreesOf(args))
    case Abbreviated(c) => SubStd(StandardName(c))
  }

  // ---- Functions and their names ----

  /** A function: its name, nested or not, the qualifiers of its `this`, and its type. */
  datatype Fn = Fn(name: Ty, qualifiers: string, ref: Ref, ret: Ty, params: seq<Ty>)

  predicate WellFormedFn(f: Fn) {
    && WellFormed(f.name) && (f.name.Named? || f.name.TemplateOf? || f.name.Scoped?)
    && (forall i | 0 <= i < |f.qualifiers| :: IsQualifier(f.qualifiers[i]))
    && (f.qualifiers != "" || !f.ref.NoRef? ==> f.name.Scoped?)
    && WellFormed(TypeOf(f))
  }

  function TypeOf(f: Fn): Ty {
    Func(f.ret, f.params, NoRef, false)
  }

  /** Only the type of a template says what it returns. */
  predicate HasResult(f: Fn) {
    f.name.TemplateOf? || (f.name.Scoped? && f.name.parts != [] && f.name.parts[|f.name.parts| - 1].Args?)
  }

  function MangleFn(f: Fn): string
    requires WellFormedFn(f)
  {
    assert WellFormed(f.ret) && forall p | p in f.params :: WellFormed(p);
    "_Z" + (MangleName(f) + ((if HasResult(f) then Mangle(f.ret) else "") + MangleAll(f.params)))
  }

  function MangleName(f: Fn): string
    requires WellFormedFn(f)
  {
    if f.name.Scoped? then "N" + (f.qualifiers + (RefLetter(f.ref) + (MangleParts(f.name.parts) + "E")))
    else Mangle(f.name)
  }

  function FnTree(f: Fn): Component
    requires WellFormedFn(f)
  {
    Typed(NameTree(f), CalledTree(f))
  }

  function NameTree(f: Fn): Component
    requires WellFormedFn(f)
  {
    RefTree(f.ref, QualifiedTree(f.qualifiers, true, TreeOf(f.name)))
  }

  function CalledTree(f: Fn): (c: Component)
    requires WellFormedFn(f)
    ensures c.Function?
  {
    var c := FunctionTree(TypeOf(f));
    Function(if HasResult(f) then c.ret else None, c.args)
  }

  // ---- What is registered ----

  /** The candidates for substitution in a type, in the order of section 5.1.8 of the ABI: every part
      before the whole, but not builtin types, nor abbreviations, nor a function type directly under
      qualifiers, nor a nested name before its last part again. */
  function Candidates(t: Ty): seq<Component>
    requires WellFormed(t)
    decreases t, 1
  {
    match t
    case Letter(_) => []
    case Prefixed(_, sub) => Candidates(sub) + [TreeOf(t)]
    case Qualified(_, base) => (if base.Func? then InsideFunction(base) else Candidates(base)) + [TreeOf(t)]
    case Func(_, _, _, _) => InsideFunction(t) + [TreeOf(t)]
    case Member(cls, member) => Candidates(cls) + Candidates(member) + [TreeOf(t)]
    case ArrayOfTy(_, element) => Candidates(element) + [TreeOf(t)]
    case Named(root) => RootCandidates(root)
    case TemplateOf(root, args) => RootCandidates(root) + CandidatesAll(args) + [TreeOf(t)]
    case Scoped(parts) => ScopeCandidates(parts) + [TreeOf(t)]
  }

  function RootCandidates(root: Root): seq<Component> {
    if root.Standard? then [] else [RootTree(root)]
  }

  /** What a function registers: its name is no candidate, but what is in it. */
  function FnCandidates(f: Fn): seq<Component>
    requires WellFormedFn(f)
  {
    assert WellFormed(f.ret) && forall p | p in f.params :: WellFormed(p);
    NameCandidates(f.name) + ((if HasResult(f) then Candidates(f.ret) else []) + CandidatesAll(f.params))
  }

  function NameCandidates(t: Ty): seq<Component>
    requires WellFormed(t)
  {
    match t
    case TemplateOf(root, args) => RootCandidates(root) + CandidatesAll(args)
    case Scoped(parts) => ScopeCandidates(parts)
    case _ => []
  }

  /** What a nested name registers but for itself. */
  function ScopeCandidates(parts: seq<Part>): seq<Component>
    requires WellScoped(parts) && forall p | p in parts :: PartWellFormed(p)
    decreases parts
  {
    var first := PartTree(parts[0]);
    if |parts| == 1 then []
    else (if parts[0].Abbreviated? then [] else [first]) + NestedCandidates(first, parts[1..])
  }

  function InsideFunction(t: Ty): seq<Component>
    requires WellFormed(t) && t.Func?
    decreases t, 0
  {
    Candidates(t.ret) + CandidatesAll(t.params)
  }

  function CandidatesAll(ts: seq<Ty>): seq<Component>
    requires forall t | t in ts :: WellFormed(t)
  {
    if ts == [] then [] else Candidates(ts[0]) + CandidatesAll(ts[1..])
  }

  /** What the parts behind a prefix register: of each its arguments, and then, but for the last, the
      prefix up to it. */
  function NestedCandidates(c: Component, parts: seq<Part>): seq<Component>
    requires forall p | p in parts :: PartWellFormed(p)
    decreases parts
  {
    if parts == [] then []
    else
      PartCandidates(parts[0])
      + if |parts| == 1 then [] else [Joined(c, parts[0])] + NestedCandidates(Joined(c, parts[0]), parts[1..])
  }

  function PartCandidates(p: Part): seq<Component>
    requires PartWellFormed(p)
    decreases p
  {
    if p.Args? then CandidatesAll(p.args) else []
  }

  function TreesOf(ts: seq<Ty>): (cs: seq<Component>)
    requires forall t | t in ts :: WellFormed(t)
    ensures |cs| == |ts| && forall i | 0 <= i < |cs| :: cs[i] == TreeOf(ts[i])
  {
    if ts == [] then [] else [TreeOf(ts[0])] + TreesOf(ts[1..])
  }

  function ListTree(cs: seq<Component>): Component
    requires cs != []
  {
    ArgList(Some(cs[0]), if |cs| == 1 then None else Some(ListTree(cs[1..])))
  }

  function QualifiedTree(q: string, ofThis: bool, c: Component): Component {
    if q == "" then c else Modifier(QualifierKind(q[0], ofThis), QualifiedTree(q[1..], ofThis, c))
  }

  /** Joining parts to a name makes a name. */
  lemma {:induction false} NestedIsName(c: Component, parts: seq<Part>)
    requires (forall p | p in parts :: PartWellFormed(p)) && (c.Name? || c.SubStd? || c.QualName? || c.Template?)
    ensures var d := NestedTree(c, parts); d.Name? || d.SubStd? || d.QualName? || d.Template?
    decreases |parts|
  {
    hide PartTree;
    if parts != [] {
      NestedIsName(Joined(c, parts[0]), parts[1..]);
    }
  }

  // ---- Reading ----

  /** `m` stands at `n`. */
  predicate Reads(s: CString, n: nat, m: string) {
    n + |m| <= |s| && s[n..n + |m|] == m
  }

  lemma {:induction false} ReadsAt(s: CString, n: nat, m: string, i: nat)
    requires Reads(s, n, m) && i < |m|
    ensures Peek(s, n + i) == m[i]
  {
    assert s[n..n + |m|][i] == m[i];
  }

  lemma {:induction false} ReadsSplit(s: CString, n: nat, a: string, b: string)
    requires Reads(s, n, a + b)
    ensures Reads(s, n, a) && Reads(s, n + |a|, b)
    ensures a != "" ==> Peek(s, n) == a[0]
  {
    var m := a + b;
    forall i | 0 <= i < |m| ensures s[n + i] == m[i] {
      ReadsAt(s, n, m, i);
    }
    forall i | 0 <= i < |a| ensures s[n + i] == a[i] {
      assert m[i] == a[i];
    }
    assert s[n..n + |a|] == a;
    forall i | 0 <= i < |b| ensures s[n + |a| + i] == b[i] {
      assert m[|a| + i] == b[i];
      ReadsAt(s, n, m, |a| + i);
    }
    assert s[n + |a|..n + |a| + |b|] == b;
    if a != "" {
      ReadsAt(s, n, m, 0);
    }
  }

  function Fold(v: nat, digits: string): nat
    requires AllDigits(digits)
    decreases |digits|
  {
    if digits == "" then v else Fold(v * 10 + (digits[0] as nat - '0' as nat), digits[1..])
  }

  lemma {:induction false} FoldAppend(v: nat, a: string, b: string)
    requires AllDigits(a) && AllDigits(b)
    ensures Fold(v, a + b) == Fold(Fold(v, a), b)
    decreases |a|
  {
    if a == "" {
      assert a + b == b;
    } else {
      assert (a + b)[1..] == a[1..] + b;
      FoldAppend(v * 10 + (a[0] as nat - '0' as nat), a[1..], b);
    }
  }

  lemma {:induction false} FoldDecimal(v: nat)
    ensures Fold(0, Decimal(v)) == v
  {
    if v >= 10 {
      FoldDecimal(v / 10);
      FoldAppend(0, Decimal(v / 10), [('0' as nat + v % 10) as char]);
    }
  }

  lemma {:induction false} NumberReads(s: CString, n: nat, v: nat, digits: string)
    requires AllDigits(digits) && Reads(s, n, digits) && !IsDigit(Peek(s, n + |digits|))
    ensures Number(s, n, v) == (Fold(v, digits), n + |digits|)
    decreases |digits|
  {
    if digits != "" {
      assert digits == [digits[0]] + digits[1..];
      ReadsSplit(s, n, [digits[0]], digits[1..]);
      NumberReads(s, n + 1, v * 10 + (digits[0] as nat - '0' as nat), digits[1..]);
    }
  }

  predicate Head(c: char) {
    IsBuiltin(c) || IsPrefix(c) || c == 'F' || c == 'M' || c == 'A' || c == 'N' || IsQualifier(c) || IsDigit(c)
    || c == 'S'
  }

  /** How an encoding begins. */
  lemma {:induction false} HeadOf(t: Ty)
    requires WellFormed(t)
    ensures
      var m := Mangle(t);
      m != "" && Head(m[0]) && (m[0] in "RO" ==> |m| > 1 && Head(m[1]))
  {
    if t.Prefixed? {
      HeadOf(t.sub);
    } else if t.Qualified? {
      assert t.qualifiers[0] in t.qualifiers;
    }
  }

  /** Since `subs` the table got entries for `cs`, in this order, made of components from `lo` on. */
  predicate Registered(lo: nat, subs: seq<nat>, st: State, cs: seq<Component>) {
    && subs <= st.subs && |st.subs| == |subs| + |cs|
    && forall k | 0 <= k < |cs| :: Denotes(st.comps, lo, st.subs[|subs| + k], cs[k])
  }

  /** First some candidates, then others. */
  lemma {:induction false} RegisteredThen(lo: nat, subs: seq<nat>, b: State, c: State, cs: seq<Component>, lo1: nat,
      ds: seq<Component>)
    requires Registered(lo, subs, b, cs) && Registered(lo1, b.subs, c, ds) && lo <= lo1
    requires Extends(b.comps, c.comps, lo)
    ensures Registered(lo, subs, c, cs + ds)
  {
    var all := cs + ds;
    forall k | 0 <= k < |all| ensures Denotes(c.comps, lo, c.subs[|subs| + k], all[k]) {
      if k < |cs| {
        DenotesStays(b.comps, c.comps, lo, lo, b.subs[|subs| + k], cs[k]);
      } else {
        var j := k - |cs|;
        assert |subs| + k == |b.subs| + j;
        DenotesStays(c.comps, c.comps, lo1, lo, c.subs[|b.subs| + j], ds[j]);
      }
    }
  }

  /** The parse came to the end of what was encoded, only added components, of which those from `lo`
      on denote it, and registered the candidates in it. */
  predicate ParsedFrom(lo: nat, st: State, r: Result, length: nat, c: Component, cs: seq<Component>) {
    && r.dc >= 0 && r.st.n == st.n + length && st.comps <= r.st.comps
    && Denotes(r.st.comps, lo, r.dc, c) && Registered(lo, st.subs, r.st, cs)
  }

  /** The same with all of it made of new components. */
  predicate Parsed(st: State, r: Result, length: nat, c: Component, cs: seq<Component>) {
    ParsedFrom(|st.comps|, st, r, length, c, cs)
  }

  /** One parse after another. */
  lemma {:induction false} ParsedThen(lo: nat, st: State, a: Result, m: nat, c: Component, cs: seq<Component>,
      lo1: nat, b: Result, n: nat, d: Component, ds: seq<Component>)
    requires ParsedFrom(lo, st, a, m, c, cs) && ParsedFrom(lo1, a.st, b, n, d, ds) && lo <= lo1
    ensures ParsedFrom(lo, st, b, m + n, d, cs + ds) && Denotes(b.st.comps, lo, a.dc, c)
  {
    hide Denotes, Registered;
    DenotesStays(a.st.comps, b.st.comps, lo, lo, a.dc, c);
    DenotesStays(b.st.comps, b.st.comps, lo1, lo, b.dc, d);
    RegisteredThen(lo, st.subs, a.st, b.st, cs, lo1, ds);
  }

  /** A component made last, over what was parsed. */
  lemma {:induction false} ParsedOver(lo: nat, st: State, a: Result, m: nat, c: Component, cs: seq<Component>,
      cell: Cell, d: Component)
    requires ParsedFrom(lo, st, a, m, c, cs) && lo <= |st.comps|
    requires Denotes(MakeEmpty(a.st, cell).st.comps, lo, |a.st.comps|, d)
    ensures ParsedFrom(lo, st, MakeEmpty(a.st, cell), m, d, cs)
  {
    hide Denotes;
    var made := MakeEmpty(a.st, cell).st;
    RegisteredThen(lo, st.subs, a.st, made, cs, lo, []);
    assert cs + [] == cs;
  }

  /** What is registered is the component itself. */
  lemma {:induction false} ParsedRegistered(lo: nat, st: State, r: Result, length: nat, c: Component,
      cs: seq<Component>)
    requires ParsedFrom(lo, st, r, length, c, cs)
    ensures ParsedFrom(lo, st, AddSubstitution(r), length, c, cs + [c])
  {
    hide Denotes;
    var st1, all := AddSubstitution(r).st, cs + [c];
    forall k | 0 <= k < |all| ensures Denotes(st1.comps, lo, st1.subs[|st.subs| + k], all[k]) {
      if k < |cs| {
        assert st1.subs[|st.subs| + k] == r.st.subs[|st.subs| + k];
      }
    }
  }

  /** A source name: its length and its characters. */
  lemma {:induction false} SourceRead(s: CString, n: nat, name: string)
    requires IsName(name) && Reads(s, n, Decimal(|name|) + name)
    ensures
      var digits, end := Decimal(|name|), n + |Decimal(|name|) + name|;
      && IsDigit(Peek(s, n)) && Number(s, n, 0) == (|name|, n + |digits|) && end <= |s|
      && s[n + |digits|..end] == name && n < end
  {
    hide Decimal, Number;
    var digits := Decimal(|name|);
    ReadsSplit(s, n, digits, name);
    ReadsAt(s, n + |digits|, name, 0);
    NumberReads(s, n, 0, digits);
    FoldDecimal(|name|);
  }

  /** The component of a source name, where no tag follows. */
  lemma {:induction false} UnqualifiedRead(s: CString, st: State, name: string)
    requires st.n <= |s| && IsName(name) && Reads(s, st.n, Decimal(|name|) + name)
    requires Peek(s, st.n + |Decimal(|name|) + name|) != 'B'
    ensures UnqualifiedName(s, st) == MakeEmpty(st.(n := st.n + |Decimal(|name|) + name|), NameCell(NameText(name)))
    ensures IsDigit(Peek(s, st.n))
  {
    hide NameText, Number, Decimal;
    SourceRead(s, st.n, name);
  }

  lemma {:induction false} NameParsed(st: State, length: nat, text: string)
    ensures Parsed(st, MakeEmpty(st.(n := st.n + length), NameCell(text)), length, Name(text), [])
  {
  }

  lemma ReadsInside(s: CString, n: nat, m: string)
    requires Reads(s, n, m)
    ensures n + |m| <= |s|
  {
  }
}
