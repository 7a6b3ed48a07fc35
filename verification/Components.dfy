/** The demangler's components as trees: what a component of the arena denotes
    once its links are followed. */
module Components {
  import opened Wrappers

  /** The one-operand components that become printing modifiers. */
  datatype Kind =
    | Restrict | Volatile | Const
    | RestrictThis | VolatileThis | ConstThis | ReferenceThis | RvalueReferenceThis
    | Pointer | Reference | RvalueReference | Complex | Imaginary

  datatype Component =
    | Name(s: string)
    | SubStd(s: string)
    | Builtin(s: string)
    | QualName(left: Component, right: Component)
    | Template(left: Component, right: Component)
    | ArgList(first: Option<Component>, rest: Option<Component>)
    | Modifier(kind: Kind, sub: Component)
    | Function(ret: Option<Component>, args: Option<Component>)
    | PtrMem(cls: Component, member: Component)
    | ArrayType(dim: Option<Component>, element: Component)
    | Typed(left: Component, right: Component)

  predicate IsCv(k: Kind) {
    k == Restrict || k == Volatile || k == Const
  }

  /** A qualifier of the implicit `this` parameter. */
  predicate IsThisKind(k: Kind) {
    k == RestrictThis || k == VolatileThis || k == ConstThis || k == ReferenceThis || k == RvalueReferenceThis
  }

  predicate IsThis(c: Component) {
    c.Modifier? && IsThisKind(c.kind)
  }

  ghost function Size(c: Component): (n: nat)
    ensures n > 0
  {
    match c
    case Name(_) | SubStd(_) | Builtin(_) => 1
    case QualName(l, r) => 1 + Size(l) + Size(r)
    case Template(l, r) => 1 + Size(l) + Size(r)
    case ArgList(f, r) => 1 + SizeOpt(f) + SizeOpt(r)
    case Modifier(_, s) => 1 + Size(s)
    case Function(r, a) => 2 + SizeOpt(r) + SizeOpt(a)
    case PtrMem(l, r) => 1 + Size(l) + Size(r)
    case ArrayType(d, e) => 1 + SizeOpt(d) + Size(e)
    case Typed(l, r) => 1 + Size(l) + Size(r)
  }

  ghost function SizeOpt(c: Option<Component>): nat {
    match c
    case None => 0
    case Some(v) => Size(v)
  }
}
