/** What the printer of cp-demangle.c writes, as a function: C declarators written
    inside out.  There is no modifier stack here and nothing is marked as printed:
    `mods` is simply the list of enclosing modifiers, innermost first. */
module Declarators {
  import opened Wrappers
  import opened Components

  const BUFFER_LENGTH := 256

  /** What has been written so far.  `text` is everything, `len` counts how many of its
      characters are still in the fixed buffer, `flushes` counts the flushes, and `last` is
      the character written last (which a retraction does not restore). */
  datatype RawOutput = Output(text: string, last: char, len: nat, flushes: nat)

  type Output = o: RawOutput | o.len <= BUFFER_LENGTH - 1 && o.len <= |o.text| witness RawOutput.Output("", '\0', 0, 0)

  const EMPTY: Output := RawOutput.Output("", '\0', 0, 0)

  function Flush(o: Output): Output {
    o.(len := 0, flushes := o.flushes + 1)
  }

  function PutChar(o: Output, c: char): Output {
    var o1 := if o.len == BUFFER_LENGTH - 1 then Flush(o) else o;
    RawOutput.Output(o1.text + [c], c, o1.len + 1, o1.flushes)
  }

  function Put(o: Output, s: string): Output
    decreases |s|
  {
    if s == "" then o else Put(PutChar(o, s[0]), s[1..])
  }

  function KindText(k: Kind): string {
    match k
    case Restrict | RestrictThis => " restrict"
    case Volatile | VolatileThis => " volatile"
    case Const | ConstThis => " const"
    case Pointer => "*"
    case ReferenceThis => " &"
    case Reference => "&"
    case RvalueReferenceThis => " &&"
    case RvalueReference => "&&"
    case Complex => "complex "
    case Imaginary => "imaginary "
  }

  /** A qualifier is not repeated when the run of qualifiers around it already has it. */
  predicate CvRepeated(k: Kind, mods: seq<Component>) {
    mods != [] && mods[0].Modifier? && IsCv(mods[0].kind) && (mods[0].kind == k || CvRepeated(k, mods[1..]))
  }

  /** Reference collapsing, one level deep: which component goes on the list, and what is under it. */
  function Collapse(t: Component): (r: (Component, Component))
    requires t.Modifier?
    ensures r.0.Modifier? && Size(r.1) < Size(t) && r.1 < t
  {
    if (t.kind == Reference || t.kind == RvalueReference) && t.sub.Modifier? then
      if t.sub.kind == Reference || t.sub.kind == t.kind then (t.sub, t.sub.sub)
      else if t.sub.kind == RvalueReference then (t, t.sub.sub)
      else (t, t.sub)
    else (t, t.sub)
  }

  /** The name under a run of `this` qualifiers, then the qualifiers, innermost first. */
  function TypedMods(l: Component): (r: seq<Component>)
    ensures r != [] && !IsThis(r[0]) && forall i | 1 <= i < |r| :: IsThis(r[i])
    ensures WeightSum(r) <= Size(l)
  {
    if IsThis(l) then
      var r := TypedMods(l.sub);
      WeightSumAppend(r, l);
      r + [l]
    else [l]
  }

  /** The part of a component that is still to be printed while it waits on the list. */
  ghost function Weight(m: Component): (n: nat)
    ensures 0 < n <= Size(m)
  {
    match m
    case Modifier(_, _) => 1
    case Function(_, a) => 1 + SizeOpt(a)
    case PtrMem(c, _) => 1 + Size(c)
    case _ => Size(m)
  }

  ghost function WeightSum(mods: seq<Component>): nat {
    if mods == [] then 0 else Weight(mods[0]) + WeightSum(mods[1..])
  }

  lemma WeightSumAppend(mods: seq<Component>, m: Component)
    ensures WeightSum(mods + [m]) == WeightSum(mods) + Weight(m)
  {
    if mods != [] {
      assert (mods + [m])[1..] == mods[1..] + [m];
    }
  }

  lemma {:induction false} WeightSumCons(m: Component, mods: seq<Component>)
    ensures WeightSum([m] + mods) == Weight(m) + WeightSum(mods)
  {
    assert ([m] + mods)[1..] == mods;
  }

  datatype Bracket = Bare | Tight | Spaced

  /** Whether the modifiers around a function type make it `(...)`, and with a space before. */
  function Brackets(mods: seq<Component>): Bracket {
    if mods == [] then Bare
    else
      match mods[0]
      case Modifier(k, _) =>
        if k == Pointer || k == Reference || k == RvalueReference then Tight
        else if IsThisKind(k) then Brackets(mods[1..])
        else Spaced
      case PtrMem(_, _) => Spaced
      case _ => Brackets(mods[1..])
  }

  function Open(b: Bracket, o: Output): Output {
    if b.Bare? then o
    else
      var space := b.Spaced? || (o.last != '(' && o.last != '*');
      PutChar(if space && o.last != ' ' then PutChar(o, ' ') else o, '(')
  }

  /** The separator is taken back when nothing seems to have followed it. */
  function Separate(o: Output): Output {
    Put(if o.len >= BUFFER_LENGTH - 2 then Flush(o) else o, ", ")
  }

  function Retract(before: Output, after: Output): Output {
    if after.flushes == before.flushes && after.len == before.len && after.len >= 2
    then after.(text := after.text[..|after.text| - 2], len := after.len - 2)
    else after
  }

  /** Everything a component writes that does not depend on the modifiers around it. */
  function Base(t: Component, o: Output): Output
    decreases Size(t), 0, 0
  {
    match t
    case Name(s) => Put(o, s)
    case SubStd(s) => Put(o, s)
    case Builtin(s) => Put(o, s)
    case QualName(l, r) => Base(r, Put(Base(l, o), "::"))
    case Template(l, args) =>
      var o1 := Base(l, o);
      var o2 := PutChar(if o1.last == '<' then PutChar(o1, ' ') else o1, '<');
      var o3 := Base(args, o2);
      PutChar(if o3.last == '>' then PutChar(o3, ' ') else o3, '>')
    case ArgList(f, r) =>
      assert Size(t) == 1 + SizeOpt(f) + SizeOpt(r);
      var o1 := if f.Some? then Declare(f.value, [], o).0 else o;
      if r.None? then o1
      else
        var o2 := Separate(o1);
        Retract(o2, Base(r.value, o2))
    case Typed(l, r) =>
      var mods := TypedMods(l);
      var (o1, placed) := Declare(r, mods, o);
      if placed then o1 else Trailing(mods, o1)
    case _ => o
  }

  function Trailing(mods: seq<Component>, o: Output): Output
    decreases WeightSum(mods), 2, 0
  {
    if mods == [] then o else Trailing(mods[1..], ModText(mods[0], PutChar(o, ' ')))
  }

  /** One modifier on its own. */
  function ModText(m: Component, o: Output): Output
    decreases Weight(m), 1, 0
  {
    match m
    case Modifier(k, _) => Put(o, KindText(k))
    case PtrMem(c, _) => Put(Base(c, if o.last != '(' then PutChar(o, ' ') else o), "::*")
    case Function(_, _) => o
    case _ => Base(m, o)
  }

  /** A type inside the modifiers `mods`.  The flag says whether a function declarator
      inside the type has already written all of `mods`. */
  function Declare(t: Component, mods: seq<Component>, o: Output): (Output, bool)
    decreases Size(t) + WeightSum(mods), 1, Size(t)
  {
    match t
    case Modifier(k, s) =>
      if IsCv(k) && CvRepeated(k, mods) then Declare(s, mods, o)
      else
        var (m, inner) := Collapse(t);
        WeightSumCons(m, mods);
        var (o1, placed) := Declare(inner, [m] + mods, o);
        (if placed then o1 else ModText(m, o1), placed)
    case PtrMem(_, s) =>
      WeightSumCons(t, mods);
      var (o1, placed) := Declare(s, [t] + mods, o);
      (if placed then o1 else ModText(t, o1), placed)
    case Function(Some(r), a) =>
      WeightSumCons(t, mods);
      assert Size(t) == 2 + SizeOpt(t.ret) + SizeOpt(a);
      var (o1, placed) := Declare(r, [t] + mods, o);
      (if placed then o1 else FunctionText(t, mods, PutChar(o1, ' ')), true)
    case Function(None, _) => (FunctionText(t, mods, o), true)
    case _ => (Base(t, o), false)
  }

  /** A function declarator: the modifiers go between the brackets, before the parameters. */
  function FunctionText(f: Component, mods: seq<Component>, o: Output): Output
    requires f.Function?
    decreases Weight(f) + WeightSum(mods), 1, 0
  {
    var b := Brackets(mods);
    var o1 := Inside(mods, Open(b, o));
    ThisText(mods, ParametersText(f, if b.Bare? then o1 else PutChar(o1, ')')))
  }

  function ParametersText(f: Component, o: Output): Output
    requires f.Function?
    decreases Weight(f), 0, 0
  {
    var o1 := PutChar(o, '(');
    PutChar(if f.args.Some? then Base(f.args.value, o1) else o1, ')')
  }

  /** The modifiers between the brackets; those of `this` wait until after the parameters. */
  function Inside(mods: seq<Component>, o: Output): Output
    decreases WeightSum(mods), 2, 0
  {
    if mods == [] then o
    else if IsThis(mods[0]) then Inside(mods[1..], o)
    else if mods[0].Function? then FunctionText(mods[0], mods[1..], o)
    else Inside(mods[1..], ModText(mods[0], o))
  }

  /** The qualifiers of `this` up to the next function declarator, which takes its own. */
  function ThisText(mods: seq<Component>, o: Output): Output
    decreases |mods|
  {
    if mods == [] || mods[0].Function? then o
    else ThisText(mods[1..], if IsThis(mods[0]) then Put(o, KindText(mods[0].kind)) else o)
  }
}
