/** How a type is spelled, from the outside in: what is declared so far is text, and every step down
    into the type puts one operator before it or one parameter list behind it.  There are no components,
    no modifiers that wait and no output here; module SpellingLaws proves that the printer writes
    exactly this. */
module Spelling {
  import opened Mangling
  import opened MangledTypes

  /** The types that are covered: no arrays, and the class of a pointer to member is a name. */
  predicate Flat(t: Ty) {
    match t
    case Letter(_) | Named(_) => true
    case TemplateOf(_, args) => forall a | a in args :: Flat(a)
    case Scoped(parts) => forall p | p in parts :: FlatPart(p)
    case Prefixed(_, sub) => Flat(sub)
    case Qualified(_, base) => Flat(base)
    case Func(ret, params, _, _) => Flat(ret) && forall p | p in params :: Flat(p)
    case Member(cls, member) => NamesClass(cls) && Flat(cls) && Flat(member)
    case ArrayOfTy(_, _) => false
  }

  predicate FlatPart(p: Part) {
    p.Args? ==> forall a | a in p.args :: Flat(a)
  }

  predicate NamesClass(t: Ty) {
    t.Letter? || t.Named? || t.TemplateOf? || t.Scoped?
  }

  // ---- The spelling ----

  /** Whether what is declared must be bracketed before parameters: it begins with nothing, with an
      operator of one or two signs, or with words. */
  datatype Need = Nothing | Snug | Apart

  function OperatorText(c: char): string {
    match c
    case 'P' => "*"
    case 'R' => "&"
    case 'O' => "&&"
    case 'C' => "complex "
    case _ => "imaginary "
  }

  function NeedOf(c: char): Need {
    if c == 'P' || c == 'R' || c == 'O' then Snug else Apart
  }

  function QualifierWord(c: char): string {
    match c
    case 'r' => " restrict"
    case 'V' => " volatile"
    case _ => " const"
  }

  /** Qualifiers are spelled from the innermost, each once: the outermost of the same ones counts. */
  function QualifierText(q: string, around: string): string {
    if q == "" then ""
    else if q[0] in around then QualifierText(q[1..], around)
    else QualifierText(q[1..], around + [q[0]]) + QualifierWord(q[0])
  }

  /** Those of `this` are all spelled. */
  function ThisQualifiers(q: string): string {
    if q == "" then "" else ThisQualifiers(q[1..]) + QualifierWord(q[0])
  }

  function RefWord(ref: Ref): string {
    match ref
    case NoRef => ""
    case LvalueRef => " &"
    case RvalueRef => " &&"
  }

  /** There is a function to be called on the way down. */
  predicate HasFunction(t: Ty) {
    match t
    case Prefixed(_, sub) => HasFunction(sub)
    case Qualified(_, base) => HasFunction(base)
    case Member(_, member) => HasFunction(member)
    case Func(_, _, _, _) => true
    case _ => false
  }

  predicate IsReference(c: char) {
    c == 'R' || c == 'O'
  }

  function LastOf(s: string): char {
    if s == "" then '\0' else s[|s| - 1]
  }

  /** What is declared, in brackets if need be, behind a character. */
  function Bracketed(decl: string, need: Need, last: char): string {
    match need
    case Nothing => decl
    case Snug => (if last == '(' || last == '*' || last == ' ' then "(" else " (") + decl + ")"
    case Apart => (if last == ' ' then "(" else " (") + decl + ")"
  }

  /** What is declared, called with parameters; behind the result, unless it declares a function itself,
      comes a space. */
  function Called(decl: string, need: Need, last: char, inside: bool, params: string, quals: string): string {
    var called := Bracketed(decl, need, if inside then last else ' ') + "(" + params + ")" + quals;
    if inside then called else " " + called
  }

  /** Angle brackets that would make one sign are kept apart. */
  function Instance(name: string, args: string): string {
    name + (if LastOf(name) == '<' then " <" else "<") + args + (if LastOf(args) == '>' then " >" else ">")
  }

  /** The name of a class. */
  function ClassText(t: Ty): string
    requires WellFormed(t) && Flat(t) && NamesClass(t)
    decreases t, 1
  {
    match t
    case Letter(c) => BuiltinName(c)
    case Named(root) => RootText(root)
    case TemplateOf(root, args) => Instance(RootText(root), ListText(args))
    case Scoped(parts) => ScopedText(FirstText(parts[0]), parts[1..])
  }

  function RootText(root: Root): string {
    match root
    case Plain(name) => NameText(name)
    case InStd(name) => "std::" + NameText(name)
    case Standard(c) => StandardName(c)
  }

  function FirstText(p: Part): string {
    match p
    case Simple(name) => NameText(name)
    case Abbreviated(c) => StandardName(c)
    case Args(_) => ""
  }

  function ScopedText(scope: string, parts: seq<Part>): string
    requires forall p | p in parts :: PartWellFormed(p) && FlatPart(p)
    decreases parts
  {
    if parts == [] then scope
    else
      assert PartWellFormed(parts[0]) && FlatPart(parts[0]);
      var longer := match parts[0]
                    case Simple(_) | Abbreviated(_) => scope + "::" + FirstText(parts[0])
                    case Args(args) => Instance(scope, ListText(args));
      ScopedText(longer, parts[1..])
  }

  function ListText(ts: seq<Ty>): string
    requires forall t | t in ts :: WellFormed(t) && Flat(t)
    decreases ts
  {
    if ts == [] then ""
    else if |ts| == 1 then Spell(ts[0], "", Nothing)
    else Spell(ts[0], "", Nothing) + ", " + ListText(ts[1..])
  }

  /** The last character before what is declared as `t`. */
  function LastBefore(t: Ty): char
    requires WellFormed(t) && Flat(t)
    decreases t, 2
  {
    match t
    case Prefixed(c, _) => LastOf(OperatorText(c))
    case Qualified(q, base) => if base.Func? then '(' else LastOf(QualifierWord(q[0]))
    case Func(_, _, _, _) => '('
    case Member(_, _) => '*'
    case _ => LastOf(ClassText(t))
  }

  /** `decl` declared as `t`. */
  function Spell(t: Ty, decl: string, need: Need): string
    requires WellFormed(t) && Flat(t)
    decreases t, 3
  {
    match t
    case Prefixed(c, sub) =>
      assert WellFormed(sub) && Flat(sub);
      if IsReference(c) && sub.Prefixed? && IsReference(sub.prefix) then
        Spell(sub.sub, (if c == 'O' && sub.prefix == 'O' then "&&" else "&") + decl, Snug)
      else Spell(sub, OperatorText(c) + decl, NeedOf(c))
    case Qualified(q, base) =>
      if base.Func? then SpellFunction(base, decl, need, ThisQualifiers(q) + RefWord(base.ref))
      else Spell(base, QualifierText(q, "") + decl, Apart)
    case Func(_, _, ref, _) => SpellFunction(t, decl, need, RefWord(ref))
    case Member(cls, member) =>
      Spell(member, (if LastBefore(member) == '(' then "" else " ") + ClassText(cls) + "::*" + decl, Apart)
    case _ => ClassText(t) + decl
  }

  /** A single void stands for no parameter. */
  function ParameterList(t: Ty): string
    requires WellFormed(t) && Flat(t) && t.Func?
    decreases t, 1
  {
    if t.params == [Letter('v')] then "" else ListText(t.params)
  }

  /** `decl`, called with the parameters, declared as the result. */
  function SpellFunction(t: Ty, decl: string, need: Need, quals: string): string
    requires WellFormed(t) && Flat(t) && t.Func?
    decreases t, 2
  {
    Spell(t.ret, Called(decl, need, LastBefore(t.ret), HasFunction(t.ret), ParameterList(t), quals), need)
  }

  /** The whole type. */
  function TypeText(t: Ty): string
    requires WellFormed(t) && Flat(t)
  {
    Spell(t, "", Nothing)
  }

  predicate FlatFn(f: Fn)
    requires WellFormedFn(f)
  {
    Flat(f.name) && Flat(TypeOf(f))
  }

  /** A function with its name, as in "int (*A::f<char>(long))(short) const": the name, called with the
      parameters, is declared as the result; what qualifies `this` comes behind the parameters. */
  function FnText(f: Fn): string
    requires WellFormedFn(f) && FlatFn(f)
  {
    var name, quals := ClassText(f.name), ThisQualifiers(f.qualifiers) + RefWord(f.ref);
    if HasResult(f) then SpellFunction(TypeOf(f), name, Nothing, quals)
    else name + "(" + ParameterList(TypeOf(f)) + ")" + quals
  }
}
