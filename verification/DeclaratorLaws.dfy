/** What holds of everything the printer writes. */
module DeclaratorLaws {
  import opened Wrappers
  import opened Components
  import opened Declarators

  // ---- Printing only extends the output, and a retraction is exact ----

  /** `o1` is `o` with text added at the end; as long as there is no flush the buffer
      length says how much was added. */
  ghost predicate Grows(o: Output, o1: Output) {
    && |o.text| <= |o1.text| && o1.text[..|o.text|] == o.text
    && o.flushes <= o1.flushes
    && (o.flushes == o1.flushes ==> o1.len - o.len == |o1.text| - |o.text|)
  }

  lemma {:induction false} GrowsTrans(a: Output, b: Output, c: Output)
    requires Grows(a, b) && Grows(b, c)
    ensures Grows(a, c)
  {
    assert c.text[..|a.text|] == c.text[..|b.text|][..|a.text|];
  }

  /** At most one space, then a character. */
  lemma CharGrows(o: Output, space: bool, c: char)
    ensures Grows(o, PutChar(if space then PutChar(o, ' ') else o, c))
    ensures Grows(o, if space then PutChar(o, c) else o)
  {
  }

  lemma PutStep(o: Output, s: string)
    ensures Put(o, s) == (if s == "" then o else Put(PutChar(o, s[0]), s[1..]))
    ensures s == "" ==> Grows(o, o) && o.text + s == o.text
    ensures s != "" ==>
      var o1 := PutChar(o, s[0]);
      Grows(o, o1) && o1.text == o.text + [s[0]] && o1.last == s[0]
  {
  }

  lemma {:induction false} PutGrows(o: Output, s: string)
    ensures Grows(o, Put(o, s)) && Put(o, s).text == o.text + s
    ensures Put(o, s).last == if s == "" then o.last else s[|s| - 1]
    decreases |s|
  {
    hide *;
    PutStep(o, s);
    if s != "" {
      PutGrows(PutChar(o, s[0]), s[1..]);
      assert o.text + [s[0]] + s[1..] == o.text + s;
      GrowsTrans(o, PutChar(o, s[0]), Put(o, s));
    }
  }

  /** The separator is never split by a flush: it sits in one buffer epoch. */
  lemma {:induction false} SeparateUnsplit(o: Output)
    ensures var o1 := Separate(o);
      Grows(o, o1) && o1.text == o.text + ", " && o1.len >= 2 && o1.last == ' '
    ensures o.len < BUFFER_LENGTH - 2 ==> Separate(o).flushes == o.flushes && Separate(o).len == o.len + 2
    ensures o.len >= BUFFER_LENGTH - 2 ==> Separate(o).flushes == o.flushes + 1 && Separate(o).len == 2
  {
    var o0 := if o.len >= BUFFER_LENGTH - 2 then Flush(o) else o;
    PutGrows(o0, ", ");
    assert Put(o0, ", ") == Put(PutChar(o0, ','), " ") == PutChar(PutChar(o0, ','), ' ');
  }

  /** Whatever follows the separator, taking it back restores exactly the text before it. */
  lemma {:induction false} RetractExact(o: Output, after: Output)
    requires Grows(Separate(o), after)
    ensures
      var before := Separate(o);
      var r := Retract(before, after);
      && Grows(o, r)
      && (r == after || r.text == o.text)
      && (after.text == before.text && after.flushes == before.flushes ==> r.text == o.text)
      && (after.text != before.text ==> r == after)
  {
    SeparateUnsplit(o);
    var before := Separate(o);
    GrowsTrans(o, before, after);
    if after.flushes == before.flushes && after.len == before.len {
      assert after.text == before.text;
    }
  }

  /** Keeps two angle brackets apart. */
  function Angle(o: Output, c: char): Output {
    PutChar(if o.last == c then PutChar(o, ' ') else o, c)
  }

  /** What a component writes of its own, in terms of its parts, which are smaller. */
  lemma {:induction false} BaseUnfold(t: Component, o: Output)
    ensures t.Name? || t.SubStd? || t.Builtin? ==> Base(t, o) == Put(o, t.s)
    ensures t.QualName? ==>
      Base(t, o) == Base(t.right, Put(Base(t.left, o), "::")) && Size(t.left) < Size(t) && Size(t.right) < Size(t)
    ensures t.Template? ==>
      && Base(t, o) == Angle(Base(t.right, Angle(Base(t.left, o), '<')), '>')
      && Size(t.left) < Size(t) && Size(t.right) < Size(t)
    ensures t.ArgList? ==>
      var o1 := if t.first.Some? then Declare(t.first.value, [], o).0 else o;
      && Base(t, o) == (if t.rest.None? then o1 else Retract(Separate(o1), Base(t.rest.value, Separate(o1))))
      && (t.first.Some? ==> Size(t.first.value) + WeightSum([]) < Size(t))
      && (t.rest.Some? ==> Size(t.rest.value) < Size(t))
    ensures t.Typed? ==>
      var mods := TypedMods(t.left);
      var (o1, placed) := Declare(t.right, mods, o);
      && Base(t, o) == (if placed then o1 else Trailing(mods, o1))
      && Size(t.right) < Size(t) && Size(t.right) + WeightSum(mods) < Size(t) && WeightSum(mods) < Size(t)
    ensures t.Modifier? || t.Function? || t.PtrMem? || t.ArrayType? ==> Base(t, o) == o
  {
    hide Declare, Put, PutChar, TypedMods, Trailing, Separate, Retract;
    if t.ArgList? {
      assert Size(t) == 1 + SizeOpt(t.first) + SizeOpt(t.rest);
    }
  }

  /** What a type writes in terms of what is below it; the parts are smaller. */
  lemma {:induction false} DeclareUnfold(t: Component, mods: seq<Component>, o: Output)
    ensures t.Modifier? && IsCv(t.kind) && CvRepeated(t.kind, mods) ==>
      Declare(t, mods, o) == Declare(t.sub, mods, o) && Size(t.sub) < Size(t)
    ensures t.Modifier? && !(IsCv(t.kind) && CvRepeated(t.kind, mods)) ==>
      var (m, inner) := Collapse(t);
      var (o1, placed) := Declare(inner, [m] + mods, o);
      && Declare(t, mods, o) == (if placed then o1 else ModText(m, o1), placed)
      && Size(inner) < Size(t) && Size(inner) + WeightSum([m] + mods) <= Size(t) + WeightSum(mods)
      && Weight(m) < Size(t)
    ensures t.PtrMem? ==>
      var (o1, placed) := Declare(t.member, [t] + mods, o);
      && Declare(t, mods, o) == (if placed then o1 else ModText(t, o1), placed)
      && Size(t.member) < Size(t) && Size(t.member) + WeightSum([t] + mods) <= Size(t) + WeightSum(mods)
    ensures t.Function? && t.ret.Some? ==>
      var (o1, placed) := Declare(t.ret.value, [t] + mods, o);
      && Declare(t, mods, o) == (if placed then o1 else FunctionText(t, mods, PutChar(o1, ' ')), true)
      && Size(t.ret.value) < Size(t) && Size(t.ret.value) + WeightSum([t] + mods) <= Size(t) + WeightSum(mods)
    ensures t.Function? && t.ret.None? ==> Declare(t, mods, o) == (FunctionText(t, mods, o), true)
    ensures !t.Modifier? && !t.PtrMem? && !t.Function? ==> Declare(t, mods, o) == (Base(t, o), false)
    ensures Weight(t) <= Size(t) && Size(t) > 0 && (t.Function? ==> Weight(t) < Size(t))
  {
    hide FunctionText, ModText, Base, PutChar, CvRepeated;
    if t.Modifier? {
      WeightSumCons(Collapse(t).0, mods);
    } else {
      WeightSumCons(t, mods);
    }
  }

  lemma {:induction false} BaseGrows(t: Component, o: Output)
    ensures Grows(o, Base(t, o))
    decreases Size(t), 0, 0
  {
    hide Grows, FunctionText, ModText, Inside;
    CharGrows(o, false, ' ');
    match t
    case Name(s) => PutGrows(o, s);
    case SubStd(s) => PutGrows(o, s);
    case Builtin(s) => PutGrows(o, s);
    case QualName(l, r) =>
      BaseGrows(l, o);
      PutGrows(Base(l, o), "::");
      BaseGrows(r, Put(Base(l, o), "::"));
      GrowsTrans(o, Base(l, o), Put(Base(l, o), "::"));
      GrowsTrans(o, Put(Base(l, o), "::"), Base(t, o));
    case Template(l, args) =>
      BaseGrows(l, o);
      var o1 := Base(l, o);
      CharGrows(o1, o1.last == '<', '<');
      var o2 := PutChar(if o1.last == '<' then PutChar(o1, ' ') else o1, '<');
      BaseGrows(args, o2);
      var o3 := Base(args, o2);
      CharGrows(o3, o3.last == '>', '>');
      GrowsTrans(o, o1, o2);
      GrowsTrans(o, o2, o3);
      GrowsTrans(o, o3, Base(t, o));
    case ArgList(f, r) =>
      assert Size(t) == 1 + SizeOpt(f) + SizeOpt(r);
      var o1 := if f.Some? then Declare(f.value, [], o).0 else o;
      if f.Some? {
        DeclareGrows(f.value, [], o);
      }
      if r.Some? {
        BaseGrows(r.value, Separate(o1));
        RetractExact(o1, Base(r.value, Separate(o1)));
        GrowsTrans(o, o1, Base(t, o));
      }
    case Typed(l, r) =>
      var mods := TypedMods(l);
      var (o1, placed) := Declare(r, mods, o);
      DeclareGrows(r, mods, o);
      if !placed {
        TrailingGrows(mods, o1);
        GrowsTrans(o, o1, Trailing(mods, o1));
      }
    case _ =>
  }

  lemma {:induction false} TrailingGrows(mods: seq<Component>, o: Output)
    ensures Grows(o, Trailing(mods, o))
    decreases WeightSum(mods), 2, 0
  {
    if mods != [] {
      var o1 := ModText(mods[0], PutChar(o, ' '));
      ModGrows(mods[0], PutChar(o, ' '));
      GrowsTrans(o, PutChar(o, ' '), o1);
      TrailingGrows(mods[1..], o1);
      GrowsTrans(o, o1, Trailing(mods, o));
    }
  }

  lemma {:induction false} ModGrows(m: Component, o: Output)
    ensures Grows(o, ModText(m, o))
    decreases Weight(m), 1, 0
  {
    match m
    case Modifier(k, _) => PutGrows(o, KindText(k));
    case PtrMem(c, _) =>
      var o1 := if o.last != '(' then PutChar(o, ' ') else o;
      BaseGrows(c, o1);
      PutGrows(Base(c, o1), "::*");
      GrowsTrans(o, o1, Base(c, o1));
      GrowsTrans(o, Base(c, o1), ModText(m, o));
    case Function(_, _) =>
    case _ => BaseGrows(m, o);
  }

  lemma {:induction false} DeclareGrows(t: Component, mods: seq<Component>, o: Output)
    ensures Grows(o, Declare(t, mods, o).0)
    decreases Size(t) + WeightSum(mods), 1, Size(t)
  {
    hide *;
    DeclareUnfold(t, mods, o);
    if t.Modifier? && IsCv(t.kind) && CvRepeated(t.kind, mods) {
      DeclareGrows(t.sub, mods, o);
    } else if t.Modifier? {
      var (m, inner) := Collapse(t);
      DeclareGrows(inner, [m] + mods, o);
      ThenMod(m, o, Declare(inner, [m] + mods, o).0);
    } else if t.PtrMem? {
      DeclareGrows(t.member, [t] + mods, o);
      ThenMod(t, o, Declare(t.member, [t] + mods, o).0);
    } else if t.Function? && t.ret.Some? {
      DeclareGrows(t.ret.value, [t] + mods, o);
      var o1 := Declare(t.ret.value, [t] + mods, o).0;
      CharGrows(o1, true, ' ');
      FunctionGrows(t, mods, PutChar(o1, ' '));
      GrowsTrans(o, o1, PutChar(o1, ' '));
      GrowsTrans(o, PutChar(o1, ' '), FunctionText(t, mods, PutChar(o1, ' ')));
    } else if t.Function? {
      FunctionGrows(t, mods, o);
    } else {
      BaseGrows(t, o);
    }
  }

  lemma {:induction false} ThenMod(m: Component, o: Output, o1: Output)
    requires Grows(o, o1)
    ensures Grows(o, ModText(m, o1))
    decreases Weight(m), 1, 1
  {
    hide *;
    ModGrows(m, o1);
    GrowsTrans(o, o1, ModText(m, o1));
  }

  lemma {:induction false} FunctionGrows(f: Component, mods: seq<Component>, o: Output)
    requires f.Function?
    ensures Grows(o, FunctionText(f, mods, o))
    decreases Weight(f) + WeightSum(mods), 1, 0
  {
    hide Grows, Base, Declare, Inside, ThisText;
    var b := Brackets(mods);
    var o1 := Open(b, o);
    OpenGrows(b, o);
    var o2 := Inside(mods, o1);
    InsideGrows(mods, o1);
    GrowsTrans(o, o1, o2);
    var o3 := if b.Bare? then o2 else PutChar(o2, ')');
    CharGrows(o2, !b.Bare?, ')');
    GrowsTrans(o, o2, o3);
    var o5 := ParametersText(f, o3);
    ParametersGrow(f, o3);
    GrowsTrans(o, o3, o5);
    ThisGrows(mods, o5);
    GrowsTrans(o, o5, ThisText(mods, o5));
  }

  lemma OpenGrows(b: Bracket, o: Output)
    ensures Grows(o, Open(b, o))
  {
  }

  lemma {:induction false} ParametersGrow(f: Component, o: Output)
    requires f.Function?
    ensures Grows(o, ParametersText(f, o))
    decreases Weight(f), 0, 0
  {
    hide Grows, Base, Declare;
    var o1 := PutChar(o, '(');
    CharGrows(o, true, '(');
    var o2 := if f.args.Some? then Base(f.args.value, o1) else o1;
    CharGrows(o1, false, ')');
    if f.args.Some? {
      BaseGrows(f.args.value, o1);
    }
    GrowsTrans(o, o1, o2);
    CharGrows(o2, true, ')');
    GrowsTrans(o, o2, PutChar(o2, ')'));
  }

  lemma {:induction false} InsideGrows(mods: seq<Component>, o: Output)
    ensures Grows(o, Inside(mods, o))
    decreases WeightSum(mods), 2, 0
  {
    if mods == [] {
    } else if IsThis(mods[0]) {
      InsideGrows(mods[1..], o);
    } else if mods[0].Function? {
      FunctionGrows(mods[0], mods[1..], o);
    } else {
      ModGrows(mods[0], o);
      InsideGrows(mods[1..], ModText(mods[0], o));
      GrowsTrans(o, ModText(mods[0], o), Inside(mods, o));
    }
  }

  lemma {:induction false} ThisGrows(mods: seq<Component>, o: Output)
    ensures Grows(o, ThisText(mods, o))
    decreases |mods|
  {
    if mods != [] && !mods[0].Function? {
      var o1 := if IsThis(mods[0]) then Put(o, KindText(mods[0].kind)) else o;
      if IsThis(mods[0]) {
        PutGrows(o, KindText(mods[0].kind));
      }
      ThisGrows(mods[1..], o1);
      GrowsTrans(o, o1, ThisText(mods, o));
    }
  }

  // ---- The linear form: one pass over the modifiers writes each of them once ----

  /** The component at the bottom of a type, and the modifiers passed on the way, innermost first. */
  function Spine(t: Component, mods: seq<Component>): (Component, seq<Component>)
    decreases t
  {
    match t
    case Modifier(k, s) =>
      if IsCv(k) && CvRepeated(k, mods) then Spine(s, mods)
      else
        var (m, inner) := Collapse(t);
        var (b, chain) := Spine(inner, [m] + mods);
        (b, chain + [m])
    case PtrMem(_, s) => var (b, chain) := Spine(s, [t] + mods); (b, chain + [t])
    case Function(Some(r), _) => var (b, chain) := Spine(r, [t] + mods); (b, chain + [t])
    case _ => (t, [])
  }

  /** Writes the modifiers of `chain` in order, up to the first function declarator, which
      takes all that are left and those around the type as well. */
  function Walk(chain: seq<Component>, mods: seq<Component>, o: Output): (Output, bool)
    decreases |chain|
  {
    if chain == [] then (o, false)
    else if chain[0].Function? then (FunctionText(chain[0], chain[1..] + mods, PutChar(o, ' ')), true)
    else Walk(chain[1..], mods, ModText(chain[0], o))
  }

  lemma {:induction false} WalkLast(chain: seq<Component>, m: Component, mods: seq<Component>, o: Output)
    ensures
      var (o1, placed) := Walk(chain, [m] + mods, o);
      Walk(chain + [m], mods, o) ==
        if placed then (o1, true)
        else if m.Function? then (FunctionText(m, mods, PutChar(o1, ' ')), true)
        else (ModText(m, o1), false)
    decreases |chain|
  {
    if chain == [] {
      assert [m][1..] + mods == mods;
    } else {
      assert (chain + [m])[1..] == chain[1..] + [m];
      assert (chain[1..] + [m]) + mods == chain[1..] + ([m] + mods);
      if !chain[0].Function? {
        WalkLast(chain[1..], m, mods, ModText(chain[0], o));
      }
    }
  }

  /** A type is written as the component at the bottom of it, then one pass over its modifiers. */
  lemma {:induction false} LinearForm(t: Component, mods: seq<Component>, o: Output)
    ensures
      var (b, chain) := Spine(t, mods);
      Declare(t, mods, o) ==
        if b.Function? then (FunctionText(b, chain + mods, o), true) else Walk(chain, mods, Base(b, o))
    decreases t, 0
  {
    match t
    case Modifier(k, s) =>
      if IsCv(k) && CvRepeated(k, mods) {
        LinearForm(s, mods, o);
      } else {
        var (m, inner) := Collapse(t);
        LinearStep(inner, m, mods, o);
      }
    case PtrMem(_, s) => LinearStep(s, t, mods, o);
    case Function(Some(r), _) => LinearStep(r, t, mods, o);
    case _ => assert [] + mods == mods;
  }

  lemma {:induction false} LinearStep(inner: Component, m: Component, mods: seq<Component>, o: Output)
    ensures
      var (o1, placed) := Declare(inner, [m] + mods, o);
      var (b, chain) := Spine(inner, [m] + mods);
      (if b.Function? then (FunctionText(b, chain + [m] + mods, o), true) else Walk(chain + [m], mods, Base(b, o))) ==
        if placed then (o1, true)
        else if m.Function? then (FunctionText(m, mods, PutChar(o1, ' ')), true)
        else (ModText(m, o1), false)
    decreases inner, 1
  {
    LinearForm(inner, [m] + mods, o);
    var (b, chain) := Spine(inner, [m] + mods);
    assert chain + [m] + mods == chain + ([m] + mods);
    WalkLast(chain, m, mods, Base(b, o));
  }

  // ---- Empty argument packs, and where the buffer happens to be ----

  /** A component that writes no character of its own: an empty name or a list of such. */
  predicate Blank(c: Component) {
    match c
    case Name(s) => s == ""
    case SubStd(s) => s == ""
    case Builtin(s) => s == ""
    case ArgList(f, r) => (f.Some? ==> Blank(f.value)) && (r.Some? ==> Blank(r.value))
    case ArrayType(_, _) => true // nothing of it is printed here
    case _ => false
  }

  /** A blank component without any separator inside, not even one that is taken back. */
  predicate Quiet(c: Component) {
    Blank(c) && (c.ArgList? ==> c.rest.None? && (c.first.Some? ==> Quiet(c.first.value)))
  }

  lemma {:induction false} QuietIsSilent(c: Component, o: Output)
    requires Quiet(c)
    ensures Base(c, o) == o && Declare(c, [], o) == (o, false)
  {
    if c.ArgList? && c.first.Some? {
      QuietIsSilent(c.first.value, o);
    }
  }

  /** With two characters of room left, the first separator of a blank list flushes. */
  lemma {:induction false} BlankFlushes(c: Component, o: Output)
    requires Blank(c) && !Quiet(c) && o.len == BUFFER_LENGTH - 2
    ensures Base(c, o).flushes > o.flushes
  {
    var o1 := if c.first.Some? then Declare(c.first.value, [], o).0 else o;
    if c.first.Some? {
      DeclareGrows(c.first.value, [], o);
      if Quiet(c.first.value) {
        QuietIsSilent(c.first.value, o);
      } else {
        assert Declare(c.first.value, [], o).0 == Base(c.first.value, o);
        BlankFlushes(c.first.value, o);
      }
    }
    if c.rest.Some? {
      BaseGrows(c.rest.value, Separate(o1));
      SeparateUnsplit(o1);
      RetractExact(o1, Base(c.rest.value, Separate(o1)));
    }
  }

  /** The rule that a separator goes away when nothing follows it: the code keeps it for every
      position of the buffer if and only if what follows has no separator in turn. */
  lemma {:induction false} BlankTailDropped(r: Component)
    requires r.ArgList? && Blank(r)
    ensures (forall o: Output :: Base(ArgList(None, Some(r)), o).text == o.text) <==> Quiet(r)
  {
    var list := ArgList(None, Some(r));
    if Quiet(r) {
      forall o: Output ensures Base(list, o).text == o.text {
        QuietIsSilent(r, Separate(o));
        BaseGrows(r, Separate(o));
        RetractExact(o, Base(r, Separate(o)));
      }
    } else {
      var text := seq(BUFFER_LENGTH - 4, _ => 'x');
      var o: Output := RawOutput.Output(text, 'x', BUFFER_LENGTH - 4, 0);
      SeparateUnsplit(o);
      BlankFlushes(r, Separate(o));
      BaseGrows(r, Separate(o));
      RetractExact(o, Base(r, Separate(o)));
      assert Base(list, o) == Base(r, Separate(o));
      assert |Base(list, o).text| >= |o.text| + 2;
    }
  }

  /** What has to hold all through a component for its text not to depend on the buffer. */
  ghost predicate Settled(c: Component) {
    match c
    case QualName(l, r) => Settled(l) && Settled(r)
    case Template(l, r) => Settled(l) && Settled(r)
    case ArgList(f, r) =>
      && (f.Some? ==> Settled(f.value))
      && (r.Some? ==> r.value.ArgList? && Settled(r.value) && (Blank(r.value) ==> Quiet(r.value)))
    case Modifier(_, s) => Settled(s)
    case Function(r, a) => (r.Some? ==> Settled(r.value)) && (a.Some? ==> Settled(a.value))
    case PtrMem(l, r) => Settled(l) && Settled(r)
    case Typed(l, r) => Settled(l) && Settled(r)
    case _ => true
  }

  ghost predicate AllSettled(mods: seq<Component>) {
    forall i | 0 <= i < |mods| :: Settled(mods[i])
  }

  /** Equal but for the position in the buffer. */
  ghost predicate Same(o: Output, o1: Output) {
    o.text == o1.text && o.last == o1.last
  }

  lemma {:induction false} PutSame(o: Output, o1: Output, s: string)
    requires Same(o, o1)
    ensures Same(Put(o, s), Put(o1, s))
  {
    PutGrows(o, s);
    PutGrows(o1, s);
  }

  lemma {:induction false} FunctionPrints(f: Component, mods: seq<Component>, o: Output)
    requires f.Function?
    ensures |FunctionText(f, mods, o).text| > |o.text|
  {
    hide Base, Declare, ThisText;
    var b := Brackets(mods);
    var o1 := Inside(mods, Open(b, o));
    OpenGrows(b, o);
    InsideGrows(mods, Open(b, o));
    var o2 := if b.Bare? then o1 else PutChar(o1, ')');
    if f.args.Some? {
      BaseGrows(f.args.value, PutChar(o2, '('));
    }
    ThisGrows(mods, ParametersText(f, o2));
  }

  /** A type that is not blank writes at least one character. */
  lemma {:induction false} DeclarePrints(t: Component, mods: seq<Component>, o: Output)
    requires Settled(t)
    ensures Declare(t, mods, o).1 ==> |Declare(t, mods, o).0.text| > |o.text|
    ensures !Blank(t) && mods == [] ==> |Declare(t, mods, o).0.text| > |o.text|
    decreases Size(t), 1
  {
    hide *;
    DeclareUnfold(t, mods, o);
    SettledParts(t, []);
    BlankIsWord(t);
    if t.Modifier? && IsCv(t.kind) && CvRepeated(t.kind, mods) {
      RepeatedIsInside(t.kind, mods);
      DeclarePrints(t.sub, mods, o);
    } else if t.Modifier? {
      var (m, inner) := Collapse(t);
      DeclarePrints(inner, [m] + mods, o);
      DeclareGrows(inner, [m] + mods, o);
      ModPrints(m, o, Declare(inner, [m] + mods, o).0);
    } else if t.PtrMem? {
      DeclarePrints(t.member, [t] + mods, o);
      DeclareGrows(t.member, [t] + mods, o);
      ModPrints(t, o, Declare(t.member, [t] + mods, o).0);
    } else if t.Function? && t.ret.Some? {
      DeclarePrints(t.ret.value, [t] + mods, o);
      DeclareGrows(t.ret.value, [t] + mods, o);
      var o1 := Declare(t.ret.value, [t] + mods, o).0;
      FunctionPrints(t, mods, PutChar(o1, ' '));
      CharPrints(o, o1);
    } else if t.Function? {
      FunctionPrints(t, mods, o);
    } else {
      BasePrints(t, o);
    }
  }

  lemma BlankIsWord(t: Component)
    ensures t.Modifier? || t.PtrMem? || t.Function? ==> !Blank(t)
    ensures AllSettled([])
    ensures t.Modifier? ==> Collapse(t).0.Modifier?
  {
  }

  lemma RepeatedIsInside(k: Kind, mods: seq<Component>)
    requires CvRepeated(k, mods)
    ensures mods != []
  {
  }

  lemma CharPrints(o: Output, o1: Output)
    requires Grows(o, o1)
    ensures |PutChar(o1, ' ').text| > |o.text|
  {
  }

  /** A modifier written behind other text makes it longer. */
  lemma {:induction false} ModPrints(m: Component, o: Output, o1: Output)
    requires Grows(o, o1) && (m.Modifier? || m.PtrMem?)
    ensures |ModText(m, o1).text| > |o.text|
  {
    hide Put, Base;
    if m.Modifier? {
      PutGrows(o1, KindText(m.kind));
    } else {
      var o2 := if o1.last != '(' then PutChar(o1, ' ') else o1;
      BaseGrows(m.cls, o2);
      PutGrows(Base(m.cls, o2), "::*");
    }
  }

  lemma {:induction false} BasePrints(t: Component, o: Output)
    requires Settled(t)
    ensures !Blank(t) && !t.Modifier? && !t.PtrMem? && !t.Function? ==> |Base(t, o).text| > |o.text|
    decreases Size(t), 0
  {
    hide *;
    BaseUnfold(t, o);
    SettledPieces(t);
    BlankPieces(t);
    if t.Name? || t.SubStd? || t.Builtin? {
      PutPrints(o, o, t.s);
    } else if t.QualName? {
      BaseGrows(t.left, o);
      PutPrints(o, Base(t.left, o), "::");
      BaseGrows(t.right, Put(Base(t.left, o), "::"));
      LongerStill(o, Put(Base(t.left, o), "::"), Base(t, o));
    } else if t.Template? {
      BaseGrows(t.left, o);
      AnglePrints(o, Base(t.left, o), '<');
      var o1 := Angle(Base(t.left, o), '<');
      BaseGrows(t.right, o1);
      GrowsTrans(o, o1, Base(t.right, o1));
      AnglePrints(o, Base(t.right, o1), '>');
    } else if t.ArgList? {
      ListPrints(t, o);
    } else if t.Typed? {
      var mods := TypedMods(t.left);
      DeclareGrows(t.right, mods, o);
      DeclarePrints(t.right, mods, o);
      TrailingPrints(mods, o, Declare(t.right, mods, o).0);
    }
  }

  lemma {:induction false} ListPrints(t: Component, o: Output)
    requires t.ArgList? && Settled(t)
    ensures !Blank(t) ==> |Base(t, o).text| > |o.text|
    decreases Size(t), -1
  {
    hide *;
    BaseUnfold(t, o);
    SettledPieces(t);
    BlankPieces(t);
    var o1 := if t.first.Some? then Declare(t.first.value, [], o).0 else o;
    GrowsRefl(o);
    if t.first.Some? {
      DeclareGrows(t.first.value, [], o);
      DeclarePrints(t.first.value, [], o);
    }
    if t.rest.Some? {
      var after := Base(t.rest.value, Separate(o1));
      BaseGrows(t.rest.value, Separate(o1));
      BasePrints(t.rest.value, Separate(o1));
      SeparateUnsplit(o1);
      RetractExact(o1, after);
      LongerStill(o, o1, Retract(Separate(o1), after));
      Lengths(Separate(o1), after);
    }
  }

  lemma Lengths(o: Output, o1: Output)
    requires Grows(o, o1)
    ensures |o1.text| >= |o.text|
  {
  }

  lemma GrowsRefl(o: Output)
    ensures Grows(o, o)
  {
  }

  lemma LongerStill(a: Output, b: Output, c: Output)
    requires |b.text| >= |a.text| || Grows(a, b)
    requires Grows(b, c)
    ensures |b.text| >= |a.text| && |c.text| >= |b.text|
  {
  }

  lemma {:induction false} PutPrints(o: Output, o1: Output, s: string)
    requires |o1.text| >= |o.text| || Grows(o, o1)
    ensures s != "" ==> |Put(o1, s).text| > |o.text|
    ensures Put(o1, s).text == o1.text + s
  {
    PutGrows(o1, s);
  }

  lemma AnglePrints(o: Output, o1: Output, c: char)
    requires Grows(o, o1)
    ensures |Angle(o1, c).text| > |o.text| && Grows(o, Angle(o1, c))
  {
    CharGrows(o1, o1.last == c, c);
    GrowsTrans(o, o1, Angle(o1, c));
  }

  lemma BlankPieces(t: Component)
    ensures t.Name? || t.SubStd? || t.Builtin? ==> (Blank(t) <==> t.s == "")
    ensures t.ArgList? ==>
      (Blank(t) <==> (t.first.Some? ==> Blank(t.first.value)) && (t.rest.Some? ==> Blank(t.rest.value)))
    ensures t.ArrayType? ==> Blank(t)
    ensures "::" != ""
  {
  }

  lemma {:induction false} TrailingPrints(mods: seq<Component>, o: Output, o1: Output)
    requires mods != [] && Grows(o, o1)
    ensures |Trailing(mods, o1).text| > |o.text|
  {
    hide ModText;
    var o2 := PutChar(o1, ' ');
    ModGrows(mods[0], o2);
    TrailingGrows(mods[1..], ModText(mods[0], o2));
  }

  lemma {:induction false} BaseSame(t: Component, o: Output, o1: Output)
    requires Settled(t) && Same(o, o1)
    ensures Same(Base(t, o), Base(t, o1))
    decreases Size(t), 0, 0
  {
    hide *;
    BaseUnfold(t, o);
    BaseUnfold(t, o1);
    SettledPieces(t);
    if t.Name? || t.SubStd? || t.Builtin? {
      PutSame(o, o1, t.s);
    } else if t.QualName? {
      BaseSame(t.left, o, o1);
      PutSame(Base(t.left, o), Base(t.left, o1), "::");
      BaseSame(t.right, Put(Base(t.left, o), "::"), Put(Base(t.left, o1), "::"));
    } else if t.Template? {
      BaseSame(t.left, o, o1);
      AngleSame(Base(t.left, o), Base(t.left, o1), '<');
      var p, p1 := Angle(Base(t.left, o), '<'), Angle(Base(t.left, o1), '<');
      BaseSame(t.right, p, p1);
      AngleSame(Base(t.right, p), Base(t.right, p1), '>');
    } else if t.ArgList? {
      if t.first.Some? {
        DeclareSame(t.first.value, [], o, o1);
      }
      if t.rest.Some? {
        TailSame(t.rest.value, if t.first.Some? then Declare(t.first.value, [], o).0 else o,
                 if t.first.Some? then Declare(t.first.value, [], o1).0 else o1);
      }
    } else if t.Typed? {
      var mods := TypedMods(t.left);
      TypedModsSettled(t.left);
      DeclareSame(t.right, mods, o, o1);
      TrailingSame(mods, Declare(t.right, mods, o).0, Declare(t.right, mods, o1).0);
    }
  }

  lemma AngleSame(o: Output, o1: Output, c: char)
    requires Same(o, o1)
    ensures Same(Angle(o, c), Angle(o1, c))
  {
  }

  lemma SettledPieces(t: Component)
    requires Settled(t)
    ensures AllSettled([])
    ensures t.QualName? || t.Template? || t.Typed? ==> Settled(t.left) && Settled(t.right)
    ensures t.ArgList? ==>
      && (t.first.Some? ==> Settled(t.first.value))
      && (t.rest.Some? ==>
            t.rest.value.ArgList? && Settled(t.rest.value) && (Blank(t.rest.value) ==> Quiet(t.rest.value)))
  {
    hide Blank, Quiet;
  }

  lemma {:induction false} TailSame(r: Component, o: Output, o1: Output)
    requires Settled(r) && r.ArgList? && (Blank(r) ==> Quiet(r)) && Same(o, o1)
    ensures
      var p, p1 := Separate(o), Separate(o1);
      Same(Retract(p, Base(r, p)), Retract(p1, Base(r, p1)))
    decreases Size(r), 3, 0
  {
    var p, p1 := Separate(o), Separate(o1);
    SeparateUnsplit(o);
    SeparateUnsplit(o1);
    BaseSame(r, p, p1);
    BaseGrows(r, p);
    BaseGrows(r, p1);
    BasePrints(r, p);
    BasePrints(r, p1);
    RetractExact(o, Base(r, p));
    RetractExact(o1, Base(r, p1));
    if Blank(r) {
      QuietIsSilent(r, p);
      QuietIsSilent(r, p1);
    }
  }

  lemma {:induction false} TypedModsSettled(l: Component)
    requires Settled(l)
    ensures AllSettled(TypedMods(l))
  {
    if IsThis(l) {
      TypedModsSettled(l.sub);
    }
  }

  lemma {:induction false} TrailingSame(mods: seq<Component>, o: Output, o1: Output)
    requires AllSettled(mods) && Same(o, o1)
    ensures Same(Trailing(mods, o), Trailing(mods, o1))
    decreases WeightSum(mods), 2, 0
  {
    if mods != [] {
      ModSame(mods[0], PutChar(o, ' '), PutChar(o1, ' '));
      TrailingSame(mods[1..], ModText(mods[0], PutChar(o, ' ')), ModText(mods[0], PutChar(o1, ' ')));
    }
  }

  lemma {:induction false} ModSame(m: Component, o: Output, o1: Output)
    requires Settled(m) && Same(o, o1)
    ensures Same(ModText(m, o), ModText(m, o1))
    decreases Weight(m), 1, 0
  {
    match m
    case Modifier(k, _) => PutSame(o, o1, KindText(k));
    case PtrMem(c, _) =>
      var p, p1 := if o.last != '(' then PutChar(o, ' ') else o, if o1.last != '(' then PutChar(o1, ' ') else o1;
      BaseSame(c, p, p1);
      PutSame(Base(c, p), Base(c, p1), "::*");
    case Function(_, _) =>
    case _ => BaseSame(m, o, o1);
  }

  /** Where the buffer happens to be does not show in what is written. */
  lemma {:induction false} DeclareSame(t: Component, mods: seq<Component>, o: Output, o1: Output)
    requires Settled(t) && AllSettled(mods) && Same(o, o1)
    ensures Same(Declare(t, mods, o).0, Declare(t, mods, o1).0)
    ensures Declare(t, mods, o).1 == Declare(t, mods, o1).1
    decreases Size(t) + WeightSum(mods), 1, Size(t)
  {
    hide *;
    DeclareUnfold(t, mods, o);
    DeclareUnfold(t, mods, o1);
    SettledParts(t, mods);
    if t.Modifier? && IsCv(t.kind) && CvRepeated(t.kind, mods) {
      DeclareSame(t.sub, mods, o, o1);
    } else if t.Modifier? {
      var (m, inner) := Collapse(t);
      DeclareSame(inner, [m] + mods, o, o1);
      ModSame(m, Declare(inner, [m] + mods, o).0, Declare(inner, [m] + mods, o1).0);
    } else if t.PtrMem? {
      DeclareSame(t.member, [t] + mods, o, o1);
      ModSame(t, Declare(t.member, [t] + mods, o).0, Declare(t.member, [t] + mods, o1).0);
    } else if t.Function? && t.ret.Some? {
      DeclareSame(t.ret.value, [t] + mods, o, o1);
      var p, p1 := Declare(t.ret.value, [t] + mods, o).0, Declare(t.ret.value, [t] + mods, o1).0;
      CharSame(p, p1, ' ');
      FunctionSame(t, mods, PutChar(p, ' '), PutChar(p1, ' '));
    } else if t.Function? {
      FunctionSame(t, mods, o, o1);
    } else {
      BaseSame(t, o, o1);
    }
  }

  lemma CharSame(o: Output, o1: Output, c: char)
    requires Same(o, o1)
    ensures Same(PutChar(o, c), PutChar(o1, c))
  {
  }

  lemma {:induction false} SettledParts(t: Component, mods: seq<Component>)
    requires Settled(t) && AllSettled(mods)
    ensures t.Modifier? ==>
      && Settled(t.sub) && Settled(Collapse(t).0) && Settled(Collapse(t).1)
      && AllSettled([Collapse(t).0] + mods)
    ensures t.PtrMem? ==> Settled(t.member) && AllSettled([t] + mods)
    ensures t.Function? && t.ret.Some? ==> Settled(t.ret.value) && AllSettled([t] + mods)
  {
    if t.Modifier? {
      assert Settled(t.sub);
    }
  }

  lemma {:induction false} FunctionSame(f: Component, mods: seq<Component>, o: Output, o1: Output)
    requires f.Function? && Settled(f) && AllSettled(mods) && Same(o, o1)
    ensures Same(FunctionText(f, mods, o), FunctionText(f, mods, o1))
    decreases Weight(f) + WeightSum(mods), 1, 0
  {
    var b := Brackets(mods);
    var p, p1 := Inside(mods, Open(b, o)), Inside(mods, Open(b, o1));
    InsideSame(mods, Open(b, o), Open(b, o1));
    var q, q1 := if b.Bare? then p else PutChar(p, ')'), if b.Bare? then p1 else PutChar(p1, ')');
    if f.args.Some? {
      BaseSame(f.args.value, PutChar(q, '('), PutChar(q1, '('));
    }
    ThisSame(mods, ParametersText(f, q), ParametersText(f, q1));
  }

  lemma {:induction false} InsideSame(mods: seq<Component>, o: Output, o1: Output)
    requires AllSettled(mods) && Same(o, o1)
    ensures Same(Inside(mods, o), Inside(mods, o1))
    decreases WeightSum(mods), 2, 0
  {
    if mods == [] {
    } else if IsThis(mods[0]) {
      InsideSame(mods[1..], o, o1);
    } else if mods[0].Function? {
      FunctionSame(mods[0], mods[1..], o, o1);
    } else {
      ModSame(mods[0], o, o1);
      InsideSame(mods[1..], ModText(mods[0], o), ModText(mods[0], o1));
    }
  }

  lemma {:induction false} ThisSame(mods: seq<Component>, o: Output, o1: Output)
    requires Same(o, o1)
    ensures Same(ThisText(mods, o), ThisText(mods, o1))
    decreases |mods|
  {
    if mods != [] && !mods[0].Function? {
      if IsThis(mods[0]) {
        PutSame(o, o1, KindText(mods[0].kind));
        ThisSame(mods[1..], Put(o, KindText(mods[0].kind)), Put(o1, KindText(mods[0].kind)));
      } else {
        ThisSame(mods[1..], o, o1);
      }
    }
  }
}
