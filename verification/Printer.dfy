/** The printer of cp-demangle.c: a stack of modifiers with `printed` marks that is shared
    between the calls in progress, over the flushed buffer. */
module Printer {
  import opened Wrappers
  import opened Components
  import opened Declarators
  import opened PrintBuffer

  lemma PendingNil(frames: seq<Frame>)
    requires frames == []
    ensures ThisPending(frames) && AllMarked(frames, true)
  {
  }

  lemma {:induction false} MarksHead(frames: seq<Frame>, w: seq<bool>)
    requires frames != [] && |w| == |frames|
    ensures Marks(frames, w) <==> frames[0].printed == !w[0] && Marks(frames[1..], w[1..])
    ensures (forall i | 0 <= i < |w| :: !w[i]) ==> (Marks(frames, w) <==> AllMarked(frames, true))
  {
    var rest, w1 := frames[1..], w[1..];
    assert forall i | 0 <= i < |w1| :: w1[i] == w[i + 1] && rest[i] == frames[i + 1];
    if frames[0].printed == !w[0] && Marks(rest, w1) {
      forall i | 0 <= i < |frames| ensures frames[i].printed == !w[i] {
        if i > 0 {
          assert rest[i - 1].printed == !w1[i - 1];
        }
      }
    }
  }

  lemma {:induction false} PendingHead(frames: seq<Frame>)
    requires frames != []
    ensures frames[0].mod.Function? ==> (ThisPending(frames) <==> AllMarked(frames, true))
    ensures !frames[0].mod.Function? ==>
      (ThisPending(frames) <==> frames[0].printed == !IsThis(frames[0].mod) && ThisPending(frames[1..]))
  {
    hide Marks, Waiting, AllMarked, IsThis;
    var mods := Mods(frames);
    assert mods[1..] == Mods(frames[1..]);
    WaitingHead(mods);
    MarksHead(frames, Waiting(mods));
  }

  lemma WaitingHead(mods: seq<Component>)
    requires mods != []
    ensures Waiting(mods) ==
      if mods[0].Function? then seq(|mods|, _ => false) else [IsThis(mods[0])] + Waiting(mods[1..])
    ensures !mods[0].Function? ==> Waiting(mods)[1..] == Waiting(mods[1..])
  {
  }

  /** The head of a list of entries, and the rest. */
  lemma {:induction false} FramesHead(frames: seq<Frame>)
    requires frames != []
    ensures Distinct(frames) ==> Distinct(frames[1..]) && frames[0] !in frames[1..]
    ensures AllMarked(frames, false) <==> !frames[0].printed && AllMarked(frames[1..], false)
    ensures AllMarked(frames, true) <==> frames[0].printed && AllMarked(frames[1..], true)
    ensures Distinct(frames) && AllMarked(frames[1..], false) ==> Ready(frames[1..])
    ensures Mods(frames) == [frames[0].mod] + Mods(frames[1..])
  {
    var rest := frames[1..];
    assert forall i | 0 <= i < |rest| :: rest[i] == frames[i + 1];
    forall mark: bool, i | frames[0].printed == mark && AllMarked(rest, mark) && 0 <= i < |frames|
      ensures frames[i].printed == mark
    {
      if i > 0 {
        assert rest[i - 1].printed == mark;
      }
    }
  }

  /** One step of the two passes over a list of modifiers. */
  lemma {:induction false} PassStep(m: Component, rest: seq<Component>, o: Output)
    ensures
      Inside([m] + rest, o) ==
      (if IsThis(m) then Inside(rest, o)
       else if m.Function? then FunctionText(m, rest, o)
       else Inside(rest, ModText(m, o)))
    ensures
      ThisText([m] + rest, o) ==
      (if m.Function? then o else ThisText(rest, if IsThis(m) then ModText(m, o) else o))
    ensures WeightSum([m] + rest) == Weight(m) + WeightSum(rest)
    ensures IsThis(m) ==> m.Modifier?
  {
    hide Base, Declare, FunctionText;
    assert ([m] + rest)[1..] == rest;
  }

  lemma PassEnd(mods: seq<Component>, o: Output)
    requires mods == []
    ensures Inside(mods, o) == ThisText(mods, o) == o
  {
  }

  /** Names: what is printed without looking at the modifiers. */
  predicate Nominal(c: Component) {
    match c
    case Name(_) | SubStd(_) | Builtin(_) => true
    case QualName(l, r) => Nominal(l) && Nominal(r)
    case Template(l, _) => Nominal(l)
    case _ => false
  }

  /** The components of the model: names, modifiers, function and member-pointer types,
      argument lists, and typed names with at most three qualifiers of `this`. */
  predicate Printable(c: Component)
    decreases c, 1
  {
    match c
    case Modifier(_, s) => PrintableType(s)
    case Function(r, a) => PrintableMod(c) && (r.Some? ==> PrintableType(r.value))
    case PtrMem(cls, m) => PrintableMod(c) && PrintableType(m)
    case ArgList(f, r) => (f.Some? ==> Printable(f.value)) && (r.Some? ==> r.value.ArgList? && Printable(r.value))
    case Typed(l, r) => |TypedMods(l)| <= 4 && PrintableName(l) && PrintableType(r)
    case _ => PrintableMod(c)
  }

  predicate PrintableType(c: Component)
    decreases c, 2
  {
    Printable(c) && !c.ArgList?
  }

  predicate PrintableName(l: Component)
    decreases l, 1
  {
    if IsThis(l) then PrintableName(l.sub) else Nominal(l) && PrintableMod(l)
  }

  /** What may stand on the modifier list: here only what it writes itself matters. */
  predicate PrintableMod(m: Component)
    decreases m, 0
  {
    match m
    case Name(_) | SubStd(_) | Builtin(_) => true
    case QualName(l, r) => Nominal(m) && PrintableMod(l) && PrintableMod(r)
    case Template(l, args) => Nominal(m) && PrintableMod(l) && args.ArgList? && Printable(args)
    case Modifier(_, _) => true
    case PtrMem(cls, _) => Nominal(cls) && PrintableMod(cls)
    case Function(_, a) => a.Some? ==> a.value.ArgList? && Printable(a.value)
    case _ => false
  }

  type ListMod = m: Component | PrintableMod(m) witness Name("")

  /** One entry of the modifier list.  An entry lives in the call that pushed it; the calls
      below see the same entry and may mark it. */
  class Frame {
    const mod: ListMod
    var printed: bool

    constructor (mod: ListMod)
      ensures this.mod == mod && !printed
    {
      this.mod := mod;
      printed := false;
    }
  }

  /** The modifiers of a list of entries, head first. */
  ghost function Mods(frames: seq<Frame>): (r: seq<Component>)
    ensures |r| == |frames|
    ensures forall i | 0 <= i < |r| :: r[i] == frames[i].mod
  {
    if frames == [] then [] else [frames[0].mod] + Mods(frames[1..])
  }

  ghost predicate Distinct(frames: seq<Frame>) {
    forall i, j | 0 <= i < j < |frames| :: frames[i] != frames[j]
  }

  ghost predicate AllMarked(frames: seq<Frame>, mark: bool)
    reads frames
  {
    forall i | 0 <= i < |frames| :: frames[i].printed == mark
  }

  /** After the first of the two passes over a list, what waits is the qualifiers of `this`
      up to the next function declarator. */
  function Waiting(mods: seq<Component>): (r: seq<bool>)
    ensures |r| == |mods|
  {
    if mods == [] then []
    else if mods[0].Function? then seq(|mods|, _ => false)
    else [IsThis(mods[0])] + Waiting(mods[1..])
  }

  /** The entries that wait are the unmarked ones. */
  ghost predicate Marks(frames: seq<Frame>, waiting: seq<bool>)
    requires |waiting| == |frames|
    reads frames
  {
    forall i | 0 <= i < |frames| :: frames[i].printed == !waiting[i]
  }

  ghost predicate ThisPending(frames: seq<Frame>)
    reads frames
  {
    Marks(frames, Waiting(Mods(frames)))
  }

  ghost predicate Ready(frames: seq<Frame>)
    reads frames
  {
    Distinct(frames) && AllMarked(frames, false)
  }

  ghost function Room(c: Component, mods: seq<Component>): nat {
    Size(c) + if Nominal(c) then 0 else WeightSum(mods)
  }

  /** The name below a qualifier of `this`. */
  lemma {:induction false} NextName(l: Component, mods: seq<Component>)
    requires PrintableName(l) && IsThis(l)
    ensures l.Modifier? && PrintableMod(l) && PrintableName(l.sub) && Size(l.sub) < Size(l)
    ensures TypedMods(l) + mods == TypedMods(l.sub) + ([l] + mods)
  {
    hide PrintableMod;
    ThisIsPrintable(l);
    assert TypedMods(l) + mods == TypedMods(l.sub) + [l] + mods;
  }

  lemma ThisIsPrintable(l: Component)
    requires IsThis(l)
    ensures PrintableMod(l)
  {
  }

  lemma {:induction false} LastName(l: Component, mods: seq<Component>)
    requires PrintableName(l) && !IsThis(l)
    ensures PrintableMod(l) && TypedMods(l) + mods == [l] + mods
  {
    hide PrintableMod;
  }

  lemma NoFrames(frames: seq<Frame>)
    requires frames == []
    ensures Ready(frames) && Mods(frames) == []
    ensures forall mods: seq<Component> :: mods + Mods(frames) == mods
  {
  }

  lemma {:induction false} NameIsNoFunction(l: Component)
    requires PrintableName(l)
    ensures forall i | 0 <= i < |TypedMods(l)| :: !TypedMods(l)[i].Function?
  {
    if IsThis(l) {
      NameIsNoFunction(l.sub);
    }
  }

  lemma {:induction false} WeightAt(mods: seq<Component>, i: nat)
    requires i < |mods|
    ensures Weight(mods[i]) <= WeightSum(mods)
  {
    if i > 0 {
      WeightAt(mods[1..], i - 1);
    }
  }

  lemma ReadyParts(frames: seq<Frame>)
    ensures Ready(frames) <==> Distinct(frames) && AllMarked(frames, false)
  {
  }

  lemma NominalPrints(c: Component)
    requires Nominal(c) && PrintableMod(c)
    ensures Printable(c) && (c.Name? || c.SubStd? || c.Builtin? || c.QualName? || c.Template?)
  {
  }

  /** What a component is made of, where its text does not depend on the modifiers around it. */
  lemma {:induction false} CompCases(c: Component, mods: seq<Component>, o: Output)
    requires Printable(c)
    ensures !(c.Modifier? || c.PtrMem? || c.Function?) ==> Declare(c, mods, o) == (Base(c, o), false)
    ensures c.Name? || c.SubStd? || c.Builtin? ==> Base(c, o) == Put(o, c.s)
    ensures c.QualName? ==>
      && Printable(c.left) && Printable(c.right) && !c.left.ArgList? && !c.right.ArgList?
      && Declare(c.left, mods, o) == (Base(c.left, o), false)
      && Base(c, o) == Base(c.right, Put(Base(c.left, o), "::"))
      && Room(c.left, mods) < Room(c, mods) && Room(c.right, mods) < Room(c, mods)
      && !(c.right.Modifier? || c.right.PtrMem? || c.right.Function?)
    ensures c.PtrMem? ==>
      && PrintableMod(c) && PrintableType(c.member) && Size(c.member) + Weight(c) <= Size(c)
      && var (o1, placed) := Declare(c.member, [c] + mods, o);
         Declare(c, mods, o) == (if placed then o1 else ModText(c, o1), placed)
    ensures c.Function? ==> Declare(c, mods, o).1
    ensures Size(c) <= Room(c, mods)
    ensures c.Modifier? || c.PtrMem? || c.Function? ==> Room(c, mods) == Size(c) + WeightSum(mods)
    ensures !c.ArrayType?
  {
    hide Put, PutChar, FunctionText, ModText, Collapse, CvRepeated, TypedMods, Trailing, Separate, Retract;
    if c.QualName? {
      NominalPrints(c.left);
      NominalPrints(c.right);
    }
  }

  /** What a modifier other than a function writes on its own. */
  lemma {:induction false} ModCases(m: Component, mods: seq<Component>, o: Output)
    requires PrintableMod(m) && !m.Function?
    ensures m.Modifier? ==> ModText(m, o) == Put(o, KindText(m.kind))
    ensures m.PtrMem? ==>
      && Printable(m.cls) && !m.cls.ArgList? && Room(m.cls, mods) < Weight(m)
      && Declare(m.cls, mods, if o.last != '(' then PutChar(o, ' ') else o).1 == false
      && ModText(m, o) == Put(Declare(m.cls, mods, if o.last != '(' then PutChar(o, ' ') else o).0, "::*")
    ensures !m.Modifier? && !m.PtrMem? ==>
      Printable(m) && !m.ArgList? && Room(m, mods) == Weight(m) && Declare(m, mods, o) == (ModText(m, o), false)
  {
    hide Put, PutChar, FunctionText, Collapse, CvRepeated, TypedMods, Trailing, Separate, Retract;
    if m.PtrMem? {
      NominalPrints(m.cls);
    } else if !m.Modifier? {
      NominalPrints(m);
    }
  }

  /** A type under one more modifier. */
  lemma {:induction false} UnderCases(m: Component, inner: Component, mods: seq<Component>)
    requires PrintableType(inner)
    ensures Printable(inner) && !inner.ArgList?
    ensures Room(inner, [m] + mods) <= Size(inner) + Weight(m) + WeightSum(mods)
  {
    hide Printable;
    WeightSumCons(m, mods);
  }

  /** The parts of a function type. */
  lemma FunctionCases(f: Component)
    requires f.Function? && Printable(f)
    ensures PrintableMod(f) && (f.ret.Some? ==> PrintableType(f.ret.value))
    ensures f.ret.Some? ==> Size(f.ret.value) + Weight(f) < Size(f)
    ensures Weight(f) < Size(f)
  {
    hide PrintableType, PrintableMod;
  }

  /** The parts of an argument list. */
  lemma {:induction false} ListCases(c: Component, o: Output)
    requires c.ArgList? && Printable(c)
    ensures c.first.Some? ==> Printable(c.first.value) && Room(c.first.value, []) < Size(c)
    ensures c.rest.Some? ==> Printable(c.rest.value) && c.rest.value.ArgList? && Room(c.rest.value, []) < Size(c)
    ensures
      var o1 := if c.first.Some? then Declare(c.first.value, [], o).0 else o;
      Base(c, o) ==
      if c.rest.None? then o1 else Retract(Separate(o1), Declare(c.rest.value, [], Separate(o1)).0)
  {
    hide Put, PutChar, FunctionText, Collapse, CvRepeated, TypedMods, Trailing, Separate, Retract;
    assert Size(c) == 1 + SizeOpt(c.first) + SizeOpt(c.rest);
  }

  lemma BufferShown(out: PrintBuffer)
    requires out.Valid()
    ensures out.Shown.last == out.lastChar && out.Shown.len == out.len && out.Shown.flushes == out.flushCount
  {
  }

  lemma SeparateStep(o: Output)
    ensures Separate(o) == Put(if o.len >= BUFFER_LENGTH - 2 then Declarators.Flush(o) else o, ", ")
    ensures Separate(o).len >= 2
  {
    var o1 := if o.len >= BUFFER_LENGTH - 2 then Declarators.Flush(o) else o;
    assert Put(o1, ", ") == Put(PutChar(o1, ','), " ") == PutChar(PutChar(o1, ','), ' ');
  }

  class Printer {
    const out: PrintBuffer
    var modifiers: seq<Frame>

    constructor (out: PrintBuffer)
      ensures this.out == out && modifiers == []
    {
      this.out := out;
      modifiers := [];
    }

    method PrintComp(dc: Component)
      requires out.Valid() && Printable(dc) && Ready(modifiers)
      requires dc.ArgList? ==> modifiers == []
      modifies this, out, out.buf, out.sink, modifiers
      ensures out.Valid()
      ensures modifiers == old(modifiers)
      ensures out.Shown == Declare(dc, Mods(modifiers), old(out.Shown)).0
      ensures AllMarked(modifiers, Declare(dc, Mods(modifiers), old(out.Shown)).1)
      decreases Room(dc, Mods(modifiers)), 1, Size(dc), 3
    {
      hide *;
      CompCases(dc, Mods(modifiers), out.Shown);
      ReadyParts(modifiers);
      match dc
      case Name(s) => out.AppendString(s);
      case SubStd(s) => out.AppendString(s);
      case Builtin(s) => out.AppendString(s);
      case QualName(l, r) =>
        PrintComp(l);
        out.AppendString("::");
        CompCases(r, Mods(modifiers), out.Shown);
        ReadyParts(modifiers);
        PrintComp(r);
      case Template(_, _) => PrintTemplate(dc);
      case ArgList(_, _) => PrintArgList(dc);
      case Modifier(_, _) => PrintModifier(dc);
      case PtrMem(_, m) => PrintModified(dc, m);
      case Function(_, _) => PrintFunction(dc);
      case Typed(_, _) => PrintTyped(dc);
    }

    method PrintModifier(dc: Component)
      requires out.Valid() && dc.Modifier? && Printable(dc) && Ready(modifiers)
      modifies this, out, out.buf, out.sink, modifiers
      ensures out.Valid()
      ensures modifiers == old(modifiers)
      ensures out.Shown == Declare(dc, Mods(modifiers), old(out.Shown)).0
      ensures AllMarked(modifiers, Declare(dc, Mods(modifiers), old(out.Shown)).1)
      decreases Size(dc) + WeightSum(Mods(modifiers)), 1, Size(dc), 2
    {
      if IsCv(dc.kind) {
        var repeated := FindCv(dc.kind);
        if repeated {
          PrintComp(dc.sub);
          return;
        }
      }
      var (m, inner) := Collapse(dc);
      assert Printable(dc) && Printable(dc.sub);
      assert dc.sub.Modifier? ==> PrintableType(dc.sub.sub);
      PrintModified(m, inner);
    }

    /** A function type is itself a modifier of its return type. */
    method PrintFunction(dc: Component)
      requires out.Valid() && dc.Function? && Printable(dc) && Ready(modifiers)
      modifies this, out, out.buf, out.sink, modifiers
      ensures out.Valid()
      ensures modifiers == old(modifiers)
      ensures out.Shown == Declare(dc, Mods(modifiers), old(out.Shown)).0
      ensures AllMarked(modifiers, true)
      decreases Size(dc) + WeightSum(Mods(modifiers)), 0, Size(dc), 2
    {
      assert Size(dc) == 2 + SizeOpt(dc.ret) + SizeOpt(dc.args);
      if dc.ret.Some? {
        var placed := PrintReturnType(dc);
        if placed {
          return;
        }
        out.AppendChar(' ');
      }
      PrintFunctionType(dc, modifiers);
    }

    method PrintReturnType(dc: Component) returns (placed: bool)
      requires out.Valid() && dc.Function? && dc.ret.Some? && Printable(dc) && Ready(modifiers)
      modifies this, out, out.buf, out.sink, modifiers
      ensures out.Valid()
      ensures modifiers == old(modifiers) && AllMarked(modifiers, placed)
      ensures (out.Shown, placed) == Declare(dc.ret.value, [dc] + Mods(modifiers), old(out.Shown))
      decreases Size(dc) + WeightSum(Mods(modifiers)), 0, Size(dc), 1
    {
      hide *;
      FunctionCases(dc);
      UnderCases(dc, dc.ret.value, Mods(modifiers));
      Push(dc);
      PrintComp(dc.ret.value);
      FramesHead(modifiers);
      placed := modifiers[0].printed;
      modifiers := modifiers[1..];
    }

    /** Whether an unprinted qualifier of the same kind is already at the head of the list. */
    method FindCv(k: Kind) returns (found: bool)
      requires IsCv(k) && AllMarked(modifiers, false)
      ensures found == CvRepeated(k, Mods(modifiers))
    {
      var pdpm := modifiers;
      while pdpm != []
        invariant AllMarked(pdpm, false)
        invariant CvRepeated(k, Mods(modifiers)) == CvRepeated(k, Mods(pdpm))
        decreases |pdpm|
      {
        if !pdpm[0].printed {
          var m := pdpm[0].mod;
          if !(m.Modifier? && IsCv(m.kind)) {
            return false;
          }
          if m.kind == k {
            return true;
          }
        }
        pdpm := pdpm[1..];
      }
      return false;
    }

    /** Pushes the entry of one modifier, prints what is under it, and prints the modifier here
        unless a function declarator below has done so. */
    method PrintModified(m: ListMod, inner: Component)
      requires out.Valid() && !m.Function? && PrintableType(inner) && Ready(modifiers)
      modifies this, out, out.buf, out.sink, modifiers
      ensures out.Valid()
      ensures modifiers == old(modifiers)
      ensures
        var (o, placed) := Declare(inner, [m] + Mods(modifiers), old(out.Shown));
        out.Shown == (if placed then o else ModText(m, o)) && AllMarked(modifiers, placed)
      decreases Size(inner) + Weight(m) + WeightSum(Mods(modifiers)), 1, Size(inner), 4
    {
      hide *;
      UnderCases(m, inner, Mods(modifiers));
      Push(m);
      PrintComp(inner);
      FramesHead(modifiers);
      if !modifiers[0].printed {
        ReadyParts(modifiers);
        PrintMod(m);
        FramesHead(modifiers);
      }
      modifiers := modifiers[1..];
    }

    method PrintMod(m: ListMod)
      requires out.Valid() && !m.Function? && Ready(modifiers)
      modifies this, out, out.buf, out.sink, modifiers
      ensures out.Valid()
      ensures modifiers == old(modifiers) && AllMarked(modifiers, false)
      ensures out.Shown == ModText(m, old(out.Shown))
      decreases Weight(m), 2, 0, 0
    {
      hide *;
      ReadyParts(modifiers);
      BufferShown(out);
      ModCases(m, Mods(modifiers), out.Shown);
      if m.Modifier? {
        out.AppendString(KindText(m.kind));
      } else if m.PtrMem? {
        if out.lastChar != '(' {
          out.AppendChar(' ');
        }
        PrintComp(m.cls);
        out.AppendString("::*");
      } else {
        PrintComp(m);
      }
    }

    method PrintTemplate(dc: Component)
      requires out.Valid() && dc.Template? && Printable(dc) && Ready(modifiers)
      modifies this, out, out.buf, out.sink
      ensures out.Valid()
      ensures modifiers == old(modifiers) && AllMarked(modifiers, false)
      ensures out.Shown == Base(dc, old(out.Shown))
      decreases Size(dc), 0, 0, 0
    {
      hide FunctionText, ModText, Inside, Trailing;
      var hold := modifiers;
      modifiers := [];
      PrintComp(dc.left);
      AppendAngle('<');
      PrintComp(dc.right);
      AppendAngle('>');
      modifiers := hold;
    }

    /** Keeps two angle brackets apart. */
    method AppendAngle(c: char)
      requires out.Valid()
      modifies out, out.buf, out.sink
      ensures out.Valid()
      ensures out.Shown == PutChar(if old(out.Shown).last == c then PutChar(old(out.Shown), ' ') else old(out.Shown), c)
    {
      if out.lastChar == c {
        out.AppendChar(' ');
      }
      out.AppendChar(c);
    }

    method PrintArgList(dc: Component)
      requires out.Valid() && dc.ArgList? && Printable(dc) && modifiers == []
      modifies this, out, out.buf, out.sink
      ensures out.Valid()
      ensures modifiers == []
      ensures out.Shown == Base(dc, old(out.Shown))
      decreases Size(dc), 0, 0, 0
    {
      hide *;
      NoFrames(modifiers);
      ListCases(dc, out.Shown);
      if dc.first.Some? {
        PrintComp(dc.first.value);
      }
      if dc.rest.Some? {
        BufferShown(out);
        SeparateStep(out.Shown);
        if out.len >= BUFFER_LENGTH - 2 {
          out.Flush();
        }
        out.AppendString(", ");
        BufferShown(out);
        var len, flushCount := out.len, out.flushCount;
        ghost var before := out.Shown;
        PrintComp(dc.rest.value);
        out.TakeBack(len, flushCount, before);
      }
    }

    method PrintTyped(dc: Component)
      requires out.Valid() && dc.Typed? && Printable(dc) && Ready(modifiers)
      modifies this, out, out.buf, out.sink
      ensures out.Valid()
      ensures modifiers == old(modifiers) && AllMarked(modifiers, false)
      ensures out.Shown == Base(dc, old(out.Shown))
      decreases Size(dc), 0, 0, 0
    {
      hide FunctionText, ModText, Trailing;
      var hold := modifiers;
      PushName(dc.left);
      ghost var mods := TypedMods(dc.left);
      PrintComp(dc.right);
      NameIsNoFunction(dc.left);
      PrintTrailing(Declare(dc.right, mods, old(out.Shown)).1);
      modifiers := hold;
    }

    /** Makes a list of its own for a name and the qualifiers of `this` around it. */
    method PushName(left: Component)
      requires PrintableName(left)
      modifies this
      ensures forall j | 0 <= j < |modifiers| :: fresh(modifiers[j])
      ensures Ready(modifiers) && Mods(modifiers) == TypedMods(left)
    {
      hide *;
      modifiers := [];
      var name := left;
      NoFrames(modifiers);
      while IsThis(name)
        invariant forall j | 0 <= j < |modifiers| :: fresh(modifiers[j])
        invariant Ready(modifiers)
        invariant PrintableName(name) && TypedMods(left) == TypedMods(name) + Mods(modifiers)
        decreases Size(name)
      {
        NextName(name, Mods(modifiers));
        Push(name);
        name := name.sub;
      }
      LastName(name, Mods(modifiers));
      Push(name);
    }

    /** A new unmarked entry at the head of the list. */
    method Push(m: ListMod)
      requires Ready(modifiers)
      modifies this
      ensures Ready(modifiers) && modifiers != [] && fresh(modifiers[0])
      ensures modifiers == [modifiers[0]] + old(modifiers) && modifiers[1..] == old(modifiers) && modifiers[0].mod == m
      ensures Mods(modifiers) == [m] + old(Mods(modifiers))
    {
      var f := new Frame(m);
      modifiers := [f] + modifiers;
      assert modifiers[1..] == old(modifiers);
    }

    /** If the modifiers did not get printed by the type, prints them now. */
    method PrintTrailing(ghost placed: bool)
      requires out.Valid() && Distinct(modifiers) && AllMarked(modifiers, placed)
      requires forall i | 0 <= i < |modifiers| :: !modifiers[i].mod.Function?
      modifies this, out, out.buf, out.sink, modifiers
      ensures out.Valid()
      ensures out.Shown == if placed then old(out.Shown) else Trailing(Mods(modifiers), old(out.Shown))
      ensures modifiers == old(modifiers)
      decreases WeightSum(Mods(modifiers)), 4, 0, 0
    {
      var i := 0;
      while i < |modifiers|
        invariant i <= |modifiers| && modifiers == old(modifiers)
        invariant out.Valid()
        invariant AllMarked(modifiers, placed)
        invariant if placed then out.Shown == old(out.Shown)
                  else Trailing(Mods(modifiers)[i..], out.Shown) == Trailing(Mods(modifiers), old(out.Shown))
      {
        if !modifiers[i].printed {
          WeightAt(Mods(modifiers), i);
          out.AppendChar(' ');
          PrintMod(modifiers[i].mod);
        }
        i := i + 1;
      }
    }

    /** The name, the modifiers in their brackets, and the parameters of a function type. */
    method PrintFunctionType(dc: ListMod, mods: seq<Frame>)
      requires out.Valid() && dc.Function? && Ready(mods)
      modifies this, out, out.buf, out.sink, mods
      ensures out.Valid()
      ensures modifiers == old(modifiers) && AllMarked(mods, true)
      ensures out.Shown == FunctionText(dc, Mods(mods), old(out.Shown))
      decreases Weight(dc) + WeightSum(Mods(mods)), 2, 0, 0
    {
      hide Base, Declare, ModText, Inside, ThisText, ParametersText, ThisPending;
      var needParen := OpenBracket(mods);
      var hold := modifiers;
      modifiers := [];
      PrintModList(mods, false, false);
      if needParen {
        out.AppendChar(')');
      }
      PrintParameters(dc);
      PrintModList(mods, true, false);
      modifiers := hold;
    }

    method PrintParameters(dc: ListMod)
      requires out.Valid() && dc.Function? && modifiers == []
      modifies this, out, out.buf, out.sink
      ensures out.Valid() && modifiers == []
      ensures out.Shown == ParametersText(dc, old(out.Shown))
      decreases Weight(dc), 1, 0, 0
    {
      hide ModText, Inside, FunctionText;
      out.AppendChar('(');
      if dc.args.Some? {
        PrintComp(dc.args.value);
      }
      out.AppendChar(')');
    }

    method OpenBracket(mods: seq<Frame>) returns (needParen: bool)
      requires out.Valid() && Ready(mods)
      modifies out, out.buf, out.sink
      ensures out.Valid()
      ensures needParen == !Declarators.Brackets(Mods(mods)).Bare?
      ensures out.Shown == Open(Declarators.Brackets(Mods(mods)), old(out.Shown))
    {
      var needSpace;
      needParen, needSpace := Brackets(mods);
      if needParen {
        if !needSpace {
          needSpace := out.lastChar != '(' && out.lastChar != '*';
        }
        if needSpace && out.lastChar != ' ' {
          out.AppendChar(' ');
        }
        out.AppendChar('(');
      }
    }

    method Brackets(mods: seq<Frame>) returns (needParen: bool, needSpace: bool)
      requires Ready(mods)
      ensures
        var b := Declarators.Brackets(Mods(mods));
        needParen == !b.Bare? && needSpace == b.Spaced?
    {
      needParen, needSpace := false, false;
      var p := mods;
      while p != [] && !p[0].printed && !needParen
        invariant AllMarked(p, false)
        invariant if needParen then Declarators.Brackets(Mods(mods)) == (if needSpace then Spaced else Tight)
                  else !needSpace && Declarators.Brackets(Mods(mods)) == Declarators.Brackets(Mods(p))
        decreases |p|
      {
        match p[0].mod {
          case Modifier(k, _) =>
            if k == Pointer || k == Reference || k == RvalueReference {
              needParen := true;
            } else if !IsThisKind(k) {
              needParen, needSpace := true, true;
            }
          case PtrMem(_, _) => needParen, needSpace := true, true;
          case _ =>
        }
        p := p[1..];
      }
    }

    /** Prints the unmarked modifiers of a list and marks them.  The first pass (no `suffix`)
        passes over the qualifiers of `this`, the second prints them; past a function
        declarator nothing is left (`done`). */
    method PrintModList(mods: seq<Frame>, suffix: bool, ghost done: bool)
      requires out.Valid() && modifiers == []
      requires Distinct(mods)
      requires if !suffix then AllMarked(mods, false) else if done then AllMarked(mods, true) else ThisPending(mods)
      modifies this, out, out.buf, out.sink, mods
      ensures out.Valid()
      ensures modifiers == []
      ensures !suffix ==> out.Shown == Inside(Mods(mods), old(out.Shown)) && ThisPending(mods)
      ensures suffix ==> out.Shown == if done then old(out.Shown) else ThisText(Mods(mods), old(out.Shown))
      ensures suffix ==> AllMarked(mods, true)
      decreases WeightSum(Mods(mods)), 3, |mods|, 1
    {
      hide *;
      if mods == [] {
        NoFrames(mods);
        PendingNil(mods);
        PassEnd(Mods(mods), out.Shown);
        return;
      }
      FramesHead(mods);
      PendingHead(mods);
      PassStep(mods[0].mod, Mods(mods[1..]), out.Shown);
      if mods[0].printed || (!suffix && IsThis(mods[0].mod)) {
        PrintModList(mods[1..], suffix, done || mods[0].mod.Function?);
        FramesHead(mods);
        PendingHead(mods);
        return;
      }
      PrintUnmarked(mods, suffix, done);
    }

    method PrintUnmarked(mods: seq<Frame>, suffix: bool, ghost done: bool)
      requires out.Valid() && modifiers == []
      requires Distinct(mods)
      requires if !suffix then AllMarked(mods, false) else !done && ThisPending(mods)
      requires mods != [] && !mods[0].printed && (suffix || !IsThis(mods[0].mod))
      modifies this, out, out.buf, out.sink, mods
      ensures out.Valid()
      ensures modifiers == []
      ensures !suffix ==> out.Shown == Inside(Mods(mods), old(out.Shown)) && ThisPending(mods)
      ensures suffix ==> out.Shown == ThisText(Mods(mods), old(out.Shown)) && AllMarked(mods, true)
      decreases WeightSum(Mods(mods)), 3, |mods|, 0
    {
      hide *;
      FramesHead(mods);
      PendingHead(mods);
      PassStep(mods[0].mod, Mods(mods[1..]), out.Shown);
      mods[0].printed := true;
      var m, next := mods[0].mod, mods[1..];
      if m.Function? {
        PrintFunctionType(m, next);
      } else {
        NoFrames(modifiers);
        PrintMod(m);
        PrintModList(next, suffix, done);
      }
      FramesHead(mods);
      PendingHead(mods);
    }
  }

  /** The whole of a component as a string, through the buffer and the doubling string. */
  method PrintToString(dc: Component, estimate: nat) returns (s: string)
    requires Printable(dc)
    ensures s == Declare(dc, [], EMPTY).0.text
  {
    var sink := new GrowableString(estimate);
    var out := new PrintBuffer(sink);
    var printer := new Printer(out);
    printer.PrintComp(dc);
    out.Flush();
    s := sink.buf;
  }
}
