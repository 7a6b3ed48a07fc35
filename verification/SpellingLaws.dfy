/** The printer, which goes through a type once and lets its modifiers wait, writes what the spelling
    says. */
module SpellingLaws {
  import opened Wrappers
  import opened Components
  import opened Declarators
  import opened DeclaratorLaws
  import opened Mangling
  import opened MangledTypes
  import opened Spelling

  // ---- What is written ----

  /** `s` was written, and nothing else. */
  ghost predicate Wrote(o: Output, o1: Output, s: string) {
    o1.text == o.text + s && o1.last == if s == "" then o.last else s[|s| - 1]
  }

  lemma WroteThen(a: Output, b: Output, c: Output, s: string, t: string)
    requires Wrote(a, b, s) && Wrote(b, c, t)
    ensures Wrote(a, c, s + t)
  {
    assert a.text + s + t == a.text + (s + t);
  }

  lemma WroteNothing(o: Output)
    ensures Wrote(o, o, "")
  {
  }

  lemma WroteChar(o: Output, c: char)
    ensures Wrote(o, PutChar(o, c), [c]) && PutChar(o, c).last == c
  {
  }

  lemma {:induction false} WroteString(o: Output, s: string)
    ensures Wrote(o, Put(o, s), s)
  {
    PutGrows(o, s);
  }

  lemma WroteLast(o: Output, o1: Output, s: string)
    requires Wrote(o, o1, s) && s != ""
    ensures o1.last == LastOf(s)
  {
  }

  /** What is still to be written behind a type inside the modifiers `mods`, if no function below has
      written it. */
  function Rest(mods: seq<Component>, o: Output): Output
    decreases |mods|
  {
    if mods == [] then o
    else if mods[0].Function? then FunctionText(mods[0], mods[1..], PutChar(o, ' '))
    else Rest(mods[1..], ModText(mods[0], o))
  }

  /** A type with all the modifiers around it. */
  function Whole(t: Component, mods: seq<Component>, o: Output): Output {
    var (o1, placed) := Declare(t, mods, o);
    if placed then o1 else Rest(mods, o1)
  }

  lemma RestUnfold(m: Component, mods: seq<Component>, o: Output)
    ensures Rest([m] + mods, o) ==
      if m.Function? then FunctionText(m, mods, PutChar(o, ' ')) else Rest(mods, ModText(m, o))
  {
    hide FunctionText, ModText, PutChar;
    assert ([m] + mods)[1..] == mods;
  }

  lemma InsideUnfold(m: Component, mods: seq<Component>, o: Output)
    ensures Inside([m] + mods, o) ==
      if IsThis(m) then Inside(mods, o) else if m.Function? then FunctionText(m, mods, o)
      else Inside(mods, ModText(m, o))
  {
    hide FunctionText, ModText;
    assert ([m] + mods)[1..] == mods;
  }

  lemma AroundUnfold(m: Component, mods: seq<Component>, o: Output)
    ensures ThisText([m] + mods, o) ==
      if m.Function? then o else ThisText(mods, if IsThis(m) then Put(o, KindText(m.kind)) else o)
    ensures Brackets([m] + mods) ==
      if m.PtrMem? then Spaced
      else if !m.Modifier? || IsThis(m) then Brackets(mods)
      else if m.kind == Pointer || m.kind == Reference || m.kind == RvalueReference then Tight else Spaced
    ensures forall k :: CvRepeated(k, [m] + mods) <==>
      m.Modifier? && IsCv(m.kind) && (m.kind == k || CvRepeated(k, mods))
  {
    hide Put, KindText;
    assert ([m] + mods)[1..] == mods;
  }

  /** One step down. */
  lemma {:induction false} WholeStep(t: Component, mods: seq<Component>, o: Output)
    ensures t.Modifier? && IsCv(t.kind) && CvRepeated(t.kind, mods) ==> Whole(t, mods, o) == Whole(t.sub, mods, o)
    ensures t.Modifier? && !(IsCv(t.kind) && CvRepeated(t.kind, mods)) ==>
      Whole(t, mods, o) == Whole(Collapse(t).1, [Collapse(t).0] + mods, o)
    ensures t.PtrMem? ==> Whole(t, mods, o) == Whole(t.member, [t] + mods, o)
    ensures t.Function? && t.ret.Some? ==> Whole(t, mods, o) == Whole(t.ret.value, [t] + mods, o)
    ensures !t.Modifier? && !t.PtrMem? && !t.Function? ==> Whole(t, mods, o) == Rest(mods, Base(t, o))
  {
    hide Declare, FunctionText, ModText, PutChar, CvRepeated, Rest, Base;
    DeclareUnfold(t, mods, o);
    if t.Modifier? {
      var (m, inner) := Collapse(t);
      RestUnfold(m, mods, Declare(inner, [m] + mods, o).0);
    } else if t.PtrMem? {
      RestUnfold(t, mods, Declare(t.member, [t] + mods, o).0);
    } else if t.Function? && t.ret.Some? {
      RestUnfold(t, mods, Declare(t.ret.value, [t] + mods, o).0);
    }
  }

  // ---- What the modifiers around a type will write ----

  function Ends(inside: bool, mods: seq<Component>, o: Output): Output {
    if inside then Inside(mods, o) else Rest(mods, o)
  }

  function NeedFrom(b: Bracket): Need {
    match b
    case Bare => Nothing
    case Tight => Snug
    case Spaced => Apart
  }

  /** No qualifier of `this` waits for the next function. */
  predicate NoneOfThis(mods: seq<Component>) {
    mods == [] || mods[0].Function? || (!IsThis(mods[0]) && NoneOfThis(mods[1..]))
  }

  /** Behind any character the modifiers write `decl`. */
  ghost predicate Writes(mods: seq<Component>, inside: bool, decl: string, need: Need) {
    && need == NeedFrom(Brackets(mods)) && NoneOfThis(mods)
    && forall p: Output :: Wrote(p, Ends(inside, mods, p), decl)
  }

  /** Behind the character `last` they write it; where nothing is bracketed, behind any character. */
  ghost predicate Fits(mods: seq<Component>, last: char, inside: bool, decl: string, need: Need) {
    && need == NeedFrom(Brackets(mods)) && NoneOfThis(mods)
    && forall p: Output :: p.last == last || need.Nothing? ==> Wrote(p, Ends(inside, mods, p), decl)
  }

  lemma WritesFits(mods: seq<Component>, last: char, inside: bool, decl: string, need: Need)
    requires Writes(mods, inside, decl, need)
    ensures Fits(mods, last, inside, decl, need)
  {
    hide Ends, Brackets, NoneOfThis;
  }

  lemma EmptyFits(last: char, inside: bool)
    ensures Fits([], last, inside, "", Nothing)
  {
  }

  lemma FitsAt(mods: seq<Component>, last: char, inside: bool, decl: string, need: Need, p: Output)
    requires Fits(mods, last, inside, decl, need) && (p.last == last || need.Nothing?)
    ensures Wrote(p, Ends(inside, mods, p), decl)
  {
    hide Ends, Brackets, NoneOfThis, Wrote;
  }

  lemma WritesAll(mods: seq<Component>, inside: bool, decl: string, need: Need)
    requires need == NeedFrom(Brackets(mods)) && NoneOfThis(mods)
    requires forall p: Output :: Wrote(p, Ends(inside, mods, p), decl)
    ensures Writes(mods, inside, decl, need)
  {
    hide Ends, Brackets, NoneOfThis, Wrote;
  }

  lemma FitsAround(mods: seq<Component>, last: char, inside: bool, decl: string, need: Need)
    requires Fits(mods, last, inside, decl, need)
    ensures need == NeedFrom(Brackets(mods)) && NoneOfThis(mods)
  {
    hide Ends, Brackets, NoneOfThis, Wrote;
  }

  /** A modifier that does not wait. */
  lemma {:induction false} EndsStep(m: Component, mods: seq<Component>, inside: bool, p: Output)
    requires (m.Modifier? && !IsThis(m)) || m.PtrMem?
    ensures Ends(inside, [m] + mods, p) == Ends(inside, mods, ModText(m, p))
    ensures NoneOfThis(mods) ==> NoneOfThis([m] + mods)
    ensures
      var tight := m.Modifier? && (m.kind == Pointer || m.kind == Reference || m.kind == RvalueReference);
      NeedFrom(Brackets([m] + mods)) == if tight then Snug else Apart
  {
    hide Put, Brackets, CvRepeated, Inside, Rest, ThisText, KindText, ModText;
    InsideUnfold(m, mods, p);
    RestUnfold(m, mods, p);
    AroundUnfold(m, mods, p);
    assert ([m] + mods)[1..] == mods;
  }

  lemma KindWrites(m: Component, p: Output)
    requires m.Modifier?
    ensures
      var q := ModText(m, p);
      Wrote(p, q, KindText(m.kind)) && q.last == LastOf(KindText(m.kind))
  {
    WroteString(p, KindText(m.kind));
  }

  /** One more modifier inside. */
  lemma {:induction false} ModifierWrites(m: Component, mods: seq<Component>, inside: bool, decl: string, need: Need)
    requires m.Modifier? && !IsThis(m) && Fits(mods, LastOf(KindText(m.kind)), inside, decl, need)
    ensures
      var tight := m.kind == Pointer || m.kind == Reference || m.kind == RvalueReference;
      Writes([m] + mods, inside, KindText(m.kind) + decl, if tight then Snug else Apart)
  {
    hide *;
    var text, all := KindText(m.kind), [m] + mods;
    FitsAround(mods, LastOf(text), inside, decl, need);
    EndsStep(m, mods, inside, EMPTY);
    forall p: Output ensures Wrote(p, Ends(inside, all, p), text + decl) {
      EndsStep(m, mods, inside, p);
      var q := ModText(m, p);
      KindWrites(m, p);
      FitsAt(mods, LastOf(text), inside, decl, need, q);
      WroteThen(p, q, Ends(inside, mods, q), text, decl);
    }
    WritesAll(all, inside, text + decl, NeedFrom(Brackets(all)));
  }

  lemma PrefixTexts(c: char)
    requires IsPrefix(c)
    ensures
      var kind := PrefixKind(c);
      && KindText(kind) == OperatorText(c) && !IsThisKind(kind) && !IsCv(kind)
      && (IsReference(c) <==> kind == Reference || kind == RvalueReference)
      && (c == 'O' <==> kind == RvalueReference)
      && NeedOf(c) == if kind == Pointer || kind == Reference || kind == RvalueReference then Snug else Apart
  {
  }

  // ---- Qualifiers ----

  lemma QualifierTexts(c: char, ofThis: bool)
    requires IsQualifier(c)
    ensures
      var kind := QualifierKind(c, ofThis);
      && KindText(kind) == QualifierWord(c) && IsThisKind(kind) == ofThis && IsCv(kind) == !ofThis
      && kind != Pointer && kind != Reference && kind != RvalueReference
    ensures forall d | IsQualifier(d) :: QualifierKind(c, false) == QualifierKind(d, false) <==> c == d
  {
  }

  /** The qualifiers in `around` are those that the modifiers begin with. */
  ghost predicate Around(around: string, mods: seq<Component>) {
    forall c | IsQualifier(c) :: c in around <==> CvRepeated(QualifierKind(c, false), mods)
  }

  lemma {:induction false} OneMoreAround(around: string, mods: seq<Component>, c: char, m: Component)
    requires Around(around, mods) && IsQualifier(c) && m.Modifier? && m.kind == QualifierKind(c, false)
    ensures Around(around + [c], [m] + mods)
  {
    hide CvRepeated, QualifierKind, IsQualifier;
    AroundUnfold(m, mods, EMPTY);
    QualifierTexts(c, false);
  }

  /** The modifiers with those of the qualifiers that count. */
  function WithQualifiers(q: string, around: string, c: Component, mods: seq<Component>): seq<Component> {
    if q == "" then mods
    else if q[0] in around then WithQualifiers(q[1..], around, c, mods)
    else WithQualifiers(q[1..], around + [q[0]], c, [QualifiedTree(q, false, c)] + mods)
  }

  lemma QualifiedUnfold(q: string, ofThis: bool, c: Component)
    requires q != ""
    ensures
      var t := QualifiedTree(q, ofThis, c);
      t == Modifier(QualifierKind(q[0], ofThis), QualifiedTree(q[1..], ofThis, c))
  {
    hide QualifierKind;
  }

  lemma QualifiersUnfold(q: string, around: string, c: Component, mods: seq<Component>)
    ensures q == "" ==>
      QualifiedTree(q, false, c) == c && WithQualifiers(q, around, c, mods) == mods && QualifierText(q, around) == ""
    ensures q != "" && q[0] in around ==>
      && WithQualifiers(q, around, c, mods) == WithQualifiers(q[1..], around, c, mods)
      && QualifierText(q, around) == QualifierText(q[1..], around)
    ensures q != "" && q[0] !in around ==>
      && WithQualifiers(q, around, c, mods)
        == WithQualifiers(q[1..], around + [q[0]], c, [QualifiedTree(q, false, c)] + mods)
      && QualifierText(q, around) == QualifierText(q[1..], around + [q[0]]) + QualifierWord(q[0])
  {
    hide QualifierWord, QualifierKind;
  }

  lemma {:induction false} CollapsesNot(t: Component)
    requires t.Modifier? && t.kind != Reference && t.kind != RvalueReference
    ensures Collapse(t) == (t, t.sub)
  {
  }

  /** Going down through the qualifiers. */
  lemma {:induction false} QualifiersDown(q: string, around: string, c: Component, mods: seq<Component>, o: Output)
    requires (forall i | 0 <= i < |q| :: IsQualifier(q[i])) && Around(around, mods)
    ensures Whole(QualifiedTree(q, false, c), mods, o) == Whole(c, WithQualifiers(q, around, c, mods), o)
    decreases |q|
  {
    hide *;
    QualifiersUnfold(q, around, c, mods);
    if q != "" {
      var t := QualifiedTree(q, false, c);
      QualifiedUnfold(q, false, c);
      QualifierTexts(q[0], false);
      WholeStep(t, mods, o);
      AroundAt(around, mods, q[0]);
      if q[0] in around {
        QualifiersDown(q[1..], around, c, mods, o);
      } else {
        CollapsesNot(t);
        OneMoreAround(around, mods, q[0], t);
        QualifiersDown(q[1..], around + [q[0]], c, [t] + mods, o);
      }
    }
  }

  lemma AroundAt(around: string, mods: seq<Component>, c: char)
    requires Around(around, mods) && IsQualifier(c)
    ensures c in around <==> CvRepeated(QualifierKind(c, false), mods)
  {
    hide CvRepeated, QualifierKind, IsQualifier;
  }

  /** What the modifiers then write. */
  lemma {:induction false} QualifiersWrite(q: string, around: string, c: Component, mods: seq<Component>, inside: bool,
      decl: string)
    requires (forall i | 0 <= i < |q| :: IsQualifier(q[i])) && Writes(mods, inside, decl, Apart)
    ensures Writes(WithQualifiers(q, around, c, mods), inside, QualifierText(q, around) + decl, Apart)
    decreases |q|
  {
    hide *;
    QualifiersUnfold(q, around, c, mods);
    if q == "" {
      assert "" + decl == decl;
    } else if q[0] in around {
      QualifiersWrite(q[1..], around, c, mods, inside, decl);
    } else {
      var t, word := QualifiedTree(q, false, c), QualifierWord(q[0]);
      QualifiedUnfold(q, false, c);
      QualifierTexts(q[0], false);
      WritesFits(mods, LastOf(word), inside, decl, Apart);
      ThisIs(t);
      ModifierWrites(t, mods, inside, decl, Apart);
      QualifiersWrite(q[1..], around + [q[0]], c, [t] + mods, inside, word + decl);
      var before := QualifierText(q[1..], around + [q[0]]);
      assert before + (word + decl) == before + word + decl;
    }
  }

  lemma ThisIs(t: Component)
    ensures IsThis(t) <==> t.Modifier? && IsThisKind(t.kind)
  {
  }

  /** All qualifiers of a type that is not a function. */
  lemma {:induction false} QualifiedWrites(q: string, c: Component, mods: seq<Component>, inside: bool, decl: string,
      need: Need)
    requires q != "" && forall i | 0 <= i < |q| :: IsQualifier(q[i])
    requires Fits(mods, LastOf(QualifierWord(q[0])), inside, decl, need)
    ensures Writes(WithQualifiers(q, "", c, mods), inside, QualifierText(q, "") + decl, Apart)
  {
    hide *;
    var t, word := QualifiedTree(q, false, c), QualifierWord(q[0]);
    QualifiersUnfold(q, "", c, mods);
    QualifiedUnfold(q, false, c);
    QualifierTexts(q[0], false);
    ThisIs(t);
    ModifierWrites(t, mods, inside, decl, need);
    QualifiersWrite(q[1..], "" + [q[0]], c, [t] + mods, inside, word + decl);
    var before := QualifierText(q[1..], "" + [q[0]]);
    assert before + (word + decl) == before + word + decl;
  }

  // ---- Qualifiers of this ----

  function ThisMods(q: string, c: Component): seq<Component> {
    if q == "" then [] else ThisMods(q[1..], c) + [QualifiedTree(q, true, c)]
  }

  lemma ThisUnfold(q: string, c: Component, mods: seq<Component>)
    ensures q == "" ==> ThisMods(q, c) + mods == mods && QualifiedTree(q, true, c) == c && ThisQualifiers(q) == ""
    ensures q != "" ==>
      && ThisMods(q, c) + mods == ThisMods(q[1..], c) + ([QualifiedTree(q, true, c)] + mods)
      && ThisQualifiers(q) == ThisQualifiers(q[1..]) + QualifierWord(q[0])
  {
    hide QualifierWord, QualifierKind;
    if q != "" {
      var m := QualifiedTree(q, true, c);
      assert ThisMods(q[1..], c) + [m] + mods == ThisMods(q[1..], c) + ([m] + mods);
    }
  }

  lemma {:induction false} ThisDown(q: string, c: Component, mods: seq<Component>, o: Output)
    requires forall i | 0 <= i < |q| :: IsQualifier(q[i])
    ensures Whole(QualifiedTree(q, true, c), mods, o) == Whole(c, ThisMods(q, c) + mods, o)
    decreases |q|
  {
    hide *;
    ThisUnfold(q, c, mods);
    if q != "" {
      var t := QualifiedTree(q, true, c);
      QualifiedUnfold(q, true, c);
      QualifierTexts(q[0], true);
      WholeStep(t, mods, o);
      CollapsesNot(t);
      ThisDown(q[1..], c, [t] + mods, o);
    }
  }

  /** Only qualifiers of `this`. */
  predicate AllThis(w: seq<Component>) {
    forall i | 0 <= i < |w| :: IsThis(w[i])
  }

  function WaitText(w: seq<Component>): string
    requires AllThis(w)
  {
    if w == [] then "" else KindText(w[0].kind) + WaitText(w[1..])
  }

  lemma {:induction false} ThisModsText(q: string, c: Component)
    requires forall i | 0 <= i < |q| :: IsQualifier(q[i])
    ensures AllThis(ThisMods(q, c)) && WaitText(ThisMods(q, c)) == ThisQualifiers(q)
    decreases |q|
  {
    hide KindText, IsQualifier, QualifierKind, QualifierWord, QualifiedTree;
    if q != "" {
      ThisModsText(q[1..], c);
      QualifiedUnfold(q, true, c);
      QualifierTexts(q[0], true);
      WaitAppend(ThisMods(q[1..], c), QualifiedTree(q, true, c));
    }
  }

  lemma {:induction false} WaitAppend(w: seq<Component>, m: Component)
    requires AllThis(w) && IsThis(m)
    ensures AllThis(w + [m]) && WaitText(w + [m]) == WaitText(w) + KindText(m.kind)
    decreases |w|
  {
    hide KindText;
    if w == [] {
      assert [] + [m] == [m] && KindText(m.kind) + "" == KindText(m.kind);
    } else {
      assert (w + [m])[1..] == w[1..] + [m];
      WaitAppend(w[1..], m);
    }
  }

  /** The ref-qualifier of a function. */
  function RefMods(ref: Ref, c: Component): seq<Component> {
    if ref.NoRef? then [] else [RefTree(ref, c)]
  }

  lemma {:induction false} RefDown(ref: Ref, c: Component, mods: seq<Component>, o: Output)
    ensures Whole(RefTree(ref, c), mods, o) == Whole(c, RefMods(ref, c) + mods, o)
    ensures AllThis(RefMods(ref, c)) && WaitText(RefMods(ref, c)) == RefWord(ref)
  {
    hide Whole, CvRepeated;
    if ref.NoRef? {
      assert [] + mods == mods;
    } else {
      var t := RefTree(ref, c);
      WholeStep(t, mods, o);
      CollapsesNot(t);
    }
  }

  lemma {:induction false} WaitTexts(w: seq<Component>, w1: seq<Component>)
    requires AllThis(w) && AllThis(w1)
    ensures AllThis(w + w1) && WaitText(w + w1) == WaitText(w) + WaitText(w1)
    decreases |w|
  {
    hide KindText;
    if w == [] {
      assert [] + w1 == w1;
    } else {
      assert (w + w1)[1..] == w[1..] + w1;
      WaitTexts(w[1..], w1);
    }
  }

  lemma WaitUnfold(w: seq<Component>, mods: seq<Component>)
    requires AllThis(w)
    ensures w == [] ==> w + mods == mods && WaitText(w) == ""
    ensures w != [] ==>
      && IsThis(w[0]) && AllThis(w[1..]) && w + mods == [w[0]] + (w[1..] + mods)
      && WaitText(w) == KindText(w[0].kind) + WaitText(w[1..])
  {
    hide KindText;
  }

  /** They are not seen between the brackets, and come behind the parameters. */
  lemma {:induction false} ThisWaits(w: seq<Component>, mods: seq<Component>, p: Output)
    requires AllThis(w) && NoneOfThis(mods)
    ensures
      var all := w + mods;
      && Brackets(all) == Brackets(mods) && Inside(all, p) == Inside(mods, p)
      && Wrote(p, ThisText(all, p), WaitText(w))
    decreases |w|
  {
    hide *;
    WaitUnfold(w, mods);
    if w == [] {
      NoneWait(mods, p);
      WroteNothing(p);
    } else {
      var t, rest := w[0], w[1..] + mods;
      ThisIs(t);
      InsideUnfold(t, rest, p);
      AroundUnfold(t, rest, p);
      var word := KindText(t.kind);
      WroteString(p, word);
      var p1 := Put(p, word);
      ThisWaits(w[1..], mods, p);
      ThisWaits(w[1..], mods, p1);
      WroteThen(p, p1, ThisText(rest, p1), word, WaitText(w[1..]));
    }
  }

  lemma {:induction false} NoneWait(mods: seq<Component>, o: Output)
    requires NoneOfThis(mods)
    ensures ThisText(mods, o) == o
    decreases |mods|
  {
    if mods != [] && !mods[0].Function? {
      NoneWait(mods[1..], o);
    }
  }

  // ---- Functions ----

  lemma {:induction false} OpenWrites(b: Bracket, p: Output)
    requires !b.Bare?
    ensures
      var q := Open(b, p);
      var space := if b.Tight? then p.last != '(' && p.last != '*' && p.last != ' ' else p.last != ' ';
      Wrote(p, q, if space then " (" else "(") && q.last == '('
  {
    assert [' '] + ['('] == " (";
  }

  /** What the parts of a function declarator write. */
  ghost predicate PartsWrite(f: Component, mods: seq<Component>, decl: string, need: Need, params: string,
      quals: string)
    requires f.Function?
  {
    && need == NeedFrom(Brackets(mods))
    && (forall o: Output :: o.last == '(' || need.Nothing? ==> Wrote(o, Inside(mods, o), decl))
    && (forall o: Output :: Wrote(o, ParametersText(f, o), "(" + params + ")"))
    && forall o: Output :: Wrote(o, ThisText(mods, o), quals)
  }

  /** The declarator of a function, once it is known what the modifiers and the parameters write. */
  lemma {:induction false} FunctionWrites(f: Component, mods: seq<Component>, p: Output, decl: string, need: Need,
      params: string, quals: string)
    requires f.Function? && PartsWrite(f, mods, decl, need, params, quals)
    ensures Wrote(p, FunctionText(f, mods, p), Bracketed(decl, need, p.last) + "(" + params + ")" + quals)
  {
    hide Inside, ParametersText, ThisText, Brackets, Wrote, Open, PutChar;
    var b := Brackets(mods);
    var o1 := Open(b, p);
    var o2 := Inside(mods, o1);
    var o3 := if b.Bare? then o2 else PutChar(o2, ')');
    var core := Bracketed(decl, need, p.last);
    if b.Bare? {
      OpenNot(p);
    } else {
      OpenWrites(b, p);
      var space := if b.Tight? then p.last != '(' && p.last != '*' && p.last != ' ' else p.last != ' ';
      var open := if space then " (" else "(";
      WroteThen(p, o1, o2, open, decl);
      WroteChar(o2, ')');
      WroteThen(p, o2, o3, open + decl, [')']);
      assert open + decl + [')'] == core;
    }
    var o4 := ParametersText(f, o3);
    WroteThen(p, o3, o4, core, "(" + params + ")");
    WroteThen(p, o4, ThisText(mods, o4), core + ("(" + params + ")"), quals);
    assert core + ("(" + params + ")") + quals == core + "(" + params + ")" + quals;
  }

  lemma OpenNot(p: Output)
    ensures Open(Bare, p) == p
  {
  }

  lemma {:induction false} ParametersWrite(f: Component, o: Output, params: string)
    requires f.Function? && f.args.Some?
    requires forall p: Output :: Wrote(p, Base(f.args.value, p), params)
    ensures Wrote(o, ParametersText(f, o), "(" + params + ")")
  {
    hide Base, Wrote;
    var o1 := PutChar(o, '(');
    WroteChar(o, '(');
    var o2 := Base(f.args.value, o1);
    WroteThen(o, o1, o2, ['('], params);
    WroteChar(o2, ')');
    WroteThen(o, o2, PutChar(o2, ')'), ['('] + params, [')']);
    assert ['('] + params + [')'] == "(" + params + ")";
  }

  /** The modifiers around a function, with its qualifiers of `this`. */
  lemma {:induction false} ContextWrites(w: seq<Component>, mods: seq<Component>, decl: string, need: Need, o: Output)
    requires AllThis(w) && Fits(mods, '(', true, decl, need)
    ensures
      var ctx := w + mods;
      && need == NeedFrom(Brackets(ctx)) && Wrote(o, ThisText(ctx, o), WaitText(w))
      && (o.last == '(' || need.Nothing? ==> Wrote(o, Inside(ctx, o), decl))
  {
    hide *;
    FitsAround(mods, '(', true, decl, need);
    ThisWaits(w, mods, o);
    EndsInside(mods, o);
    if o.last == '(' || need.Nothing? {
      FitsAt(mods, '(', true, decl, need, o);
    }
  }

  lemma {:induction false} CalledWrites(f: Component, ctx: seq<Component>, p: Output, decl: string, need: Need,
      params: string, quals: string, last: char, inside: bool)
    requires f.Function? && PartsWrite(f, ctx, decl, need, params, quals) && (p.last == last || need.Nothing?)
    ensures Wrote(p, Ends(inside, [f] + ctx, p), Called(decl, need, last, inside, params, quals))
  {
    hide *;
    EndsFunction(f, ctx, inside, p);
    CalledUnfold(decl, need, last, inside, params, quals);
    if inside {
      FunctionWrites(f, ctx, p, decl, need, params, quals);
      AnyLast(decl, need, p.last, last);
    } else {
      var p1 := PutChar(p, ' ');
      WroteChar(p, ' ');
      FunctionWrites(f, ctx, p1, decl, need, params, quals);
      var called := Bracketed(decl, need, ' ') + "(" + params + ")" + quals;
      WroteThen(p, p1, FunctionText(f, ctx, p1), [' '], called);
    }
  }

  lemma CalledUnfold(decl: string, need: Need, last: char, inside: bool, params: string, quals: string)
    ensures
      var called := Bracketed(decl, need, if inside then last else ' ') + "(" + params + ")" + quals;
      Called(decl, need, last, inside, params, quals) == if inside then called else " " + called
  {
  }

  lemma {:induction false} ContextParts(f: Component, w: seq<Component>, mods: seq<Component>, decl: string,
      need: Need, params: string)
    requires f.Function? && AllThis(w) && Fits(mods, '(', true, decl, need)
    requires forall p: Output :: Wrote(p, ParametersText(f, p), "(" + params + ")")
    ensures PartsWrite(f, w + mods, decl, need, params, WaitText(w))
  {
    hide *;
    var ctx := w + mods;
    ContextWrites(w, mods, decl, need, EMPTY);
    forall o: Output ensures o.last == '(' || need.Nothing? ==> Wrote(o, Inside(ctx, o), decl) {
      ContextWrites(w, mods, decl, need, o);
    }
    forall o: Output ensures Wrote(o, ThisText(ctx, o), WaitText(w)) {
      ContextWrites(w, mods, decl, need, o);
    }
    AllParts(f, ctx, decl, need, params, WaitText(w));
  }

  lemma AllParts(f: Component, mods: seq<Component>, decl: string, need: Need, params: string, quals: string)
    requires f.Function? && need == NeedFrom(Brackets(mods))
    requires forall o: Output :: o.last == '(' || need.Nothing? ==> Wrote(o, Inside(mods, o), decl)
    requires forall o: Output :: Wrote(o, ParametersText(f, o), "(" + params + ")")
    requires forall o: Output :: Wrote(o, ThisText(mods, o), quals)
    ensures PartsWrite(f, mods, decl, need, params, quals)
  {
    hide Wrote, Inside, ParametersText, ThisText, NeedFrom, Brackets;
  }

  /** What a function writes becomes what is declared as its result. */
  lemma {:induction false} CalledFits(f: Component, w: seq<Component>, mods: seq<Component>, decl: string, need: Need,
      params: string, last: char, inside: bool)
    requires f.Function? && AllThis(w) && Fits(mods, '(', true, decl, need)
    requires forall p: Output :: Wrote(p, ParametersText(f, p), "(" + params + ")")
    ensures Fits([f] + (w + mods), last, inside, Called(decl, need, last, inside, params, WaitText(w)), need)
  {
    hide *;
    ContextParts(f, w, mods, decl, need, params);
    ContextWrites(w, mods, decl, need, EMPTY);
    PartsFit(f, w + mods, decl, need, params, WaitText(w), last, inside);
  }

  lemma {:induction false} PartsFit(f: Component, ctx: seq<Component>, decl: string, need: Need, params: string,
      quals: string, last: char, inside: bool)
    requires f.Function? && PartsWrite(f, ctx, decl, need, params, quals) && need == NeedFrom(Brackets(ctx))
    ensures Fits([f] + ctx, last, inside, Called(decl, need, last, inside, params, quals), need)
  {
    hide *;
    var all, text := [f] + ctx, Called(decl, need, last, inside, params, quals);
    forall p: Output | p.last == last || need.Nothing? ensures Wrote(p, Ends(inside, all, p), text) {
      CalledWrites(f, ctx, p, decl, need, params, quals, last, inside);
    }
    AroundFunction(f, ctx);
    FitsAll(all, last, inside, text, need);
  }

  lemma AnyLast(decl: string, need: Need, a: char, b: char)
    requires a == b || need.Nothing?
    ensures Bracketed(decl, need, a) == Bracketed(decl, need, b)
  {
  }

  lemma EndsInside(mods: seq<Component>, o: Output)
    ensures Ends(true, mods, o) == Inside(mods, o)
  {
    hide Inside;
  }

  lemma EndsFunction(f: Component, mods: seq<Component>, inside: bool, p: Output)
    requires f.Function?
    ensures Ends(inside, [f] + mods, p) == FunctionText(f, mods, if inside then p else PutChar(p, ' '))
  {
    hide FunctionText, PutChar, Inside, Rest;
    InsideUnfold(f, mods, p);
    RestUnfold(f, mods, p);
  }

  lemma AroundFunction(f: Component, mods: seq<Component>)
    requires f.Function?
    ensures Brackets([f] + mods) == Brackets(mods) && NoneOfThis([f] + mods)
  {
    hide Brackets;
    AroundUnfold(f, mods, EMPTY);
  }

  lemma FitsAll(mods: seq<Component>, last: char, inside: bool, decl: string, need: Need)
    requires need == NeedFrom(Brackets(mods)) && NoneOfThis(mods)
    requires forall p: Output :: p.last == last || need.Nothing? ==> Wrote(p, Ends(inside, mods, p), decl)
    ensures Fits(mods, last, inside, decl, need)
  {
    hide Ends, Brackets, NoneOfThis, Wrote;
  }

  // ---- Pointers to members ----

  lemma {:induction false} MemberFits(m: Component, text: string, mods: seq<Component>, last: char, inside: bool,
      decl: string, need: Need)
    requires m.PtrMem? && Fits(mods, '*', inside, decl, need)
    requires forall p: Output :: Wrote(p, Base(m.cls, p), text)
    ensures Fits([m] + mods, last, inside, (if last == '(' then "" else " ") + text + "::*" + decl, Apart)
  {
    hide *;
    var all, op := [m] + mods, (if last == '(' then "" else " ") + text + "::*";
    FitsAround(mods, '*', inside, decl, need);
    EndsStep(m, mods, inside, EMPTY);
    forall p: Output | p.last == last || Need.Apart.Nothing? ensures Wrote(p, Ends(inside, all, p), op + decl) {
      EndsStep(m, mods, inside, p);
      var q := ModText(m, p);
      MemberText(m, text, p);
      WroteLast(p, q, op);
      FitsAt(mods, '*', inside, decl, need, q);
      WroteThen(p, q, Ends(inside, mods, q), op, decl);
    }
    FitsAll(all, last, inside, op + decl, Apart);
  }

  lemma {:induction false} MemberText(m: Component, text: string, p: Output)
    requires m.PtrMem? && forall o: Output :: Wrote(o, Base(m.cls, o), text)
    ensures
      var op := (if p.last == '(' then "" else " ") + text + "::*";
      Wrote(p, ModText(m, p), op) && op != "" && LastOf(op) == '*'
  {
    hide Base, Wrote;
    var space := if p.last == '(' then "" else " ";
    var p1 := if p.last != '(' then PutChar(p, ' ') else p;
    WroteNothing(p);
    WroteChar(p, ' ');
    var p2 := Base(m.cls, p1);
    WroteThen(p, p1, p2, space, text);
    WroteString(p2, "::*");
    WroteThen(p, p2, Put(p2, "::*"), space + text, "::*");
  }

  // ---- Names and lists ----

  lemma {:induction false} TemplateWrites(l: Component, args: Component, o: Output, name: string, list: string)
    requires Wrote(o, Base(l, o), name) && name != "" && forall p: Output :: Wrote(p, Base(args, p), list)
    ensures Wrote(o, Base(Template(l, args), o), Instance(name, list)) && Instance(name, list) != ""
  {
    hide *;
    var t := Template(l, args);
    BaseUnfold(t, o);
    var o1 := Base(l, o);
    WroteLast(o, o1, name);
    AngleWrites(o1, '<');
    var open := if LastOf(name) == '<' then " <" else "<";
    var o2 := Angle(o1, '<');
    WroteThen(o, o1, o2, name, open);
    var o3 := Base(args, o2);
    WroteThen(o, o2, o3, name + open, list);
    AngleWrites(o3, '>');
    var close := if LastOf(list) == '>' then " >" else ">";
    EndOfList(o2, o3, list);
    WroteThen(o, o3, Angle(o3, '>'), name + open + list, close);
    ArgumentsUnfold(name, list);
  }

  lemma AngleWrites(o: Output, c: char)
    ensures Wrote(o, Angle(o, c), if o.last == c then [' '] + [c] else [c]) && Angle(o, c).last == c
    ensures [' '] + ['<'] == " <" && ['<'] == "<" && [' '] + ['>'] == " >" && ['>'] == ">"
  {
  }

  lemma EndOfList(o: Output, o1: Output, list: string)
    requires Wrote(o, o1, list) && o.last == '<'
    ensures o1.last == '>' <==> LastOf(list) == '>'
  {
  }

  lemma ArgumentsUnfold(name: string, list: string)
    ensures Instance(name, list) ==
      name + (if LastOf(name) == '<' then " <" else "<") + list + (if LastOf(list) == '>' then " >" else ">")
      && Instance(name, list) != ""
  {
  }

  lemma {:induction false} QualifiedNameWrites(l: Component, c: Component, o: Output, scope: string)
    requires Wrote(o, Base(l, o), scope) && (c.Name? || c.SubStd?)
    ensures Wrote(o, Base(QualName(l, c), o), scope + "::" + c.s) && scope + "::" + c.s != ""
  {
    hide *;
    BaseUnfold(QualName(l, c), o);
    var o1 := Base(l, o);
    WroteString(o1, "::");
    var o2 := Put(o1, "::");
    WroteThen(o, o1, o2, scope, "::");
    BaseUnfold(c, o2);
    WroteString(o2, c.s);
    WroteThen(o, o2, Put(o2, c.s), scope + "::", c.s);
  }

  lemma {:induction false} BuiltinText(c: char)
    requires IsBuiltin(c)
    ensures BuiltinName(c) != ""
  {
  }

  lemma {:induction false} RootSpelled(root: Root, o: Output)
    requires IsRoot(root)
    ensures Wrote(o, Base(RootTree(root), o), RootText(root)) && RootText(root) != ""
  {
    hide Base, Wrote, NameText, StandardName;
    BaseUnfold(RootTree(root), o);
    match root
    case Plain(name) => WroteString(o, NameText(name));
    case InStd(name) =>
      BaseUnfold(Name("std"), o);
      WroteString(o, "std");
      QualifiedNameWrites(Name("std"), Name(NameText(name)), o, "std");
      assert "std" + "::" + NameText(name) == "std::" + NameText(name);
    case Standard(c) =>
      WroteString(o, StandardName(c));
      StandardNames(c);
  }

  lemma StandardNames(c: char)
    ensures StandardName(c) != ""
  {
  }

  lemma {:induction false} FirstSpelled(p: Part, o: Output)
    requires PartWellFormed(p) && !p.Args?
    ensures Wrote(o, Base(PartTree(p), o), FirstText(p)) && FirstText(p) != ""
  {
    hide Base, Wrote, NameText, StandardName;
    BaseUnfold(PartTree(p), o);
    if p.Simple? {
      WroteString(o, NameText(p.name));
    } else {
      WroteString(o, StandardName(p.letter));
      StandardNames(p.letter);
    }
  }

  /** The name of a class is written. */
  lemma {:induction false} ClassSpelled(t: Ty, o: Output)
    requires WellFormed(t) && Flat(t) && NamesClass(t)
    ensures Wrote(o, Base(TreeOf(t), o), ClassText(t)) && ClassText(t) != ""
    decreases t, 1
  {
    hide Base, Wrote, BuiltinName, NameText, Instance, RootTree, RootText, PartTree, FirstText, NestedTree, ScopedText;
    BaseUnfold(TreeOf(t), o);
    match t
    case Letter(c) =>
      BuiltinText(c);
      WroteString(o, BuiltinName(c));
    case Named(root) => RootSpelled(root, o);
    case TemplateOf(root, args) =>
      var c := RootTree(root);
      RootSpelled(root, o);
      forall p: Output ensures Wrote(p, Base(ArgsTree(TreesOf(args)), p), ListText(args)) {
        ArgsSpelled(args, p);
      }
      TemplateWrites(c, ArgsTree(TreesOf(args)), o, RootText(root), ListText(args));
    case Scoped(parts) =>
      var c, text := PartTree(parts[0]), FirstText(parts[0]);
      assert PartWellFormed(parts[0]);
      forall p: Output ensures Wrote(p, Base(c, p), text) && text != "" {
        FirstSpelled(parts[0], p);
      }
      FirstSpelled(parts[0], o);
      NestedSpelled(c, text, parts[1..], o);
  }

  lemma {:induction false} NestedSpelled(c: Component, scope: string, parts: seq<Part>, o: Output)
    requires forall p | p in parts :: PartWellFormed(p) && FlatPart(p)
    requires scope != "" && forall p: Output :: Wrote(p, Base(c, p), scope)
    ensures Wrote(o, Base(NestedTree(c, parts), o), ScopedText(scope, parts)) && ScopedText(scope, parts) != ""
    decreases parts
  {
    hide Base, Wrote, NameText, Instance;
    if parts != [] {
      var part := parts[0];
      assert PartWellFormed(part) && FlatPart(part);
      var longer := match part
        case Simple(_) | Abbreviated(_) => scope + "::" + FirstText(part)
        case Args(args) => Instance(scope, ListText(args));
      if part.Args? {
        ArgumentsUnfold(scope, ListText(part.args));
      }
      assert longer != "";
      forall p: Output ensures Wrote(p, Base(Joined(c, part), p), longer) {
        if !part.Args? {
          FirstTree(part);
          QualifiedNameWrites(c, PartTree(part), p, scope);
        } else {
          forall q: Output ensures Wrote(q, Base(PartTree(part), q), ListText(part.args)) {
            ArgsSpelled(part.args, q);
          }
          TemplateWrites(c, PartTree(part), p, scope, ListText(part.args));
        }
      }
      NestedSpelled(Joined(c, part), longer, parts[1..], o);
    }
  }

  lemma FirstTree(p: Part)
    requires PartWellFormed(p) && !p.Args?
    ensures var c := PartTree(p); (c.Name? || c.SubStd?) && c.s == FirstText(p)
  {
  }

  lemma {:induction false} ArgsSpelled(ts: seq<Ty>, o: Output)
    requires forall t | t in ts :: WellFormed(t) && Flat(t)
    ensures Wrote(o, Base(ArgsTree(TreesOf(ts)), o), ListText(ts))
    decreases ts, 1
  {
    hide Wrote, Spell;
    if ts == [] {
      BaseUnfold(ArgList(None, None), o);
      WroteNothing(o);
    } else {
      ListSpelled(ts, o);
    }
  }

  lemma {:induction false} WholeIsDeclare(t: Component, o: Output)
    ensures Whole(t, [], o) == Declare(t, [], o).0
  {
    hide Declare;
  }

  /** A list is written element by element, and no separator is taken back. */
  lemma {:induction false} ListSpelled(ts: seq<Ty>, o: Output)
    requires ts != [] && forall t | t in ts :: WellFormed(t) && Flat(t)
    ensures Wrote(o, Base(ListTree(TreesOf(ts)), o), ListText(ts)) && ListText(ts) != ""
    decreases ts, 0
  {
    hide *;
    ListUnfold(ts);
    var c := TreeOf(ts[0]);
    EmptyFits(LastBefore(ts[0]), HasFunction(ts[0]));
    NoneRepeated();
    TypeSpelled(ts[0], [], o, "", Nothing);
    WholeIsDeclare(c, o);
    BaseUnfold(ListTree(TreesOf(ts)), o);
    var o1, first := Declare(c, [], o).0, Spell(ts[0], "", Nothing);
    assert first + "" == first;
    if |ts| > 1 {
      var p, rest := Separate(o1), ListTree(TreesOf(ts[1..]));
      ListSpelled(ts[1..], p);
      SeparatorWrites(o1, rest, ListText(ts[1..]));
      var o2 := Retract(p, Base(rest, p));
      WroteThen(o, o1, o2, first, ", " + ListText(ts[1..]));
      assert first + (", " + ListText(ts[1..])) == first + ", " + ListText(ts[1..]);
    }
  }

  lemma {:induction false} SeparatorWrites(o: Output, rest: Component, text: string)
    requires text != "" && Wrote(Separate(o), Base(rest, Separate(o)), text)
    ensures Wrote(o, Retract(Separate(o), Base(rest, Separate(o))), ", " + text)
  {
    hide Base, Separate, Retract;
    SeparateUnsplit(o);
    var p := Separate(o);
    var after := Base(rest, p);
    BaseGrows(rest, p);
    RetractExact(o, after);
    assert |after.text| > |p.text|;
    WroteThen(o, p, after, ", ", text);
  }

  lemma NoneRepeated()
    ensures NoCv([])
  {
  }

  lemma {:induction false} ListUnfold(ts: seq<Ty>)
    requires ts != [] && forall t | t in ts :: WellFormed(t) && Flat(t)
    ensures WellFormed(ts[0]) && Flat(ts[0]) && forall t | t in ts[1..] :: WellFormed(t) && Flat(t)
    ensures TreesOf(ts) != [] && (|ts| > 1 ==> TreesOf(ts[1..]) != [])
    ensures ListTree(TreesOf(ts)) ==
      ArgList(Some(TreeOf(ts[0])), if |ts| == 1 then None else Some(ListTree(TreesOf(ts[1..]))))
    ensures ListText(ts) == Spell(ts[0], "", Nothing) + if |ts| == 1 then "" else ", " + ListText(ts[1..])
  {
    hide WellFormed, Flat, Spell, TreeOf;
    assert TreesOf(ts)[1..] == TreesOf(ts[1..]);
  }

  // ---- The induction ----

  /** No qualifier stands directly around. */
  predicate NoCv(mods: seq<Component>) {
    mods != [] && mods[0].Modifier? ==> !IsCv(mods[0].kind)
  }

  /** Whatever is around a type: with what the modifiers there write, it is written as it is spelled. */
  lemma {:induction false} TypeSpelled(t: Ty, mods: seq<Component>, o: Output, decl: string, need: Need)
    requires WellFormed(t) && Flat(t) && Fits(mods, LastBefore(t), HasFunction(t), decl, need)
    requires t.Qualified? ==> NoCv(mods)
    ensures Wrote(o, Whole(TreeOf(t), mods, o), Spell(t, decl, need)) && Spell(t, decl, need) != ""
    decreases t, 3
  {
    hide *;
    if t.Prefixed? {
      PrefixedSpelled(t, mods, o, decl, need);
    } else if t.Qualified? {
      QualifiedSpelled(t, mods, o, decl, need);
    } else if t.Func? {
      FunctionAlone(t, mods, o, decl, need);
    } else if t.Member? {
      MemberSpelled(t, mods, o, decl, need);
    } else {
      NameSpelled(t, mods, o, decl, need);
    }
  }

  lemma {:induction false} NameSpelled(t: Ty, mods: seq<Component>, o: Output, decl: string, need: Need)
    requires WellFormed(t) && Flat(t) && !t.Prefixed? && !t.Qualified? && !t.Func? && !t.Member?
    requires Fits(mods, LastBefore(t), HasFunction(t), decl, need)
    ensures Wrote(o, Whole(TreeOf(t), mods, o), Spell(t, decl, need)) && Spell(t, decl, need) != ""
    decreases t, 2
  {
    hide *;
    NameUnfold(t, decl, need);
    ClassSpelled(t, o);
    WholeStep(TreeOf(t), mods, o);
    var p := Base(TreeOf(t), o);
    WroteLast(o, p, ClassText(t));
    FitsAt(mods, LastBefore(t), false, decl, need, p);
    EndsRest(mods, p);
    WroteThen(o, p, Rest(mods, p), ClassText(t), decl);
  }

  lemma EndsRest(mods: seq<Component>, o: Output)
    ensures Ends(false, mods, o) == Rest(mods, o)
  {
    hide Rest;
  }

  lemma {:induction false} NameUnfold(t: Ty, decl: string, need: Need)
    requires WellFormed(t) && Flat(t) && !t.Prefixed? && !t.Qualified? && !t.Func? && !t.Member?
    ensures NamesClass(t) && Spell(t, decl, need) == ClassText(t) + decl && LastBefore(t) == LastOf(ClassText(t))
    ensures !HasFunction(t) && var c := TreeOf(t); !c.Modifier? && !c.PtrMem? && !c.Function?
  {
    hide ClassText;
    if t.Scoped? {
      FirstTree(t.parts[0]);
      NestedIsName(PartTree(t.parts[0]), t.parts[1..]);
    }
  }

  lemma {:induction false} PrefixedSpelled(t: Ty, mods: seq<Component>, o: Output, decl: string, need: Need)
    requires t.Prefixed? && WellFormed(t) && Flat(t) && Fits(mods, LastBefore(t), HasFunction(t), decl, need)
    ensures Wrote(o, Whole(TreeOf(t), mods, o), Spell(t, decl, need)) && Spell(t, decl, need) != ""
    decreases t, 2
  {
    hide *;
    PrefixedUnfold(t, decl, need);
    var c, m := TreeOf(t), Collapse(TreeOf(t)).0;
    WholeStep(c, mods, o);
    ThisIs(m);
    var inside := HasFunction(t);
    ModifierWrites(m, mods, inside, decl, need);
    NoCvBelow(m, mods);
    var text, need1 := KindText(m.kind) + decl, NeedOf(t.prefix);
    var below := Below(t);
    WritesFits([m] + mods, LastBefore(below), inside, text, need1);
    TypeSpelled(below, [m] + mods, o, text, need1);
  }

  lemma NoCvBelow(m: Component, mods: seq<Component>)
    requires m.Modifier? ==> !IsCv(m.kind)
    ensures NoCv([m] + mods)
  {
  }

  /** Which trees are references. */
  lemma {:induction false} ReferenceTree(t: Ty)
    requires WellFormed(t)
    ensures
      var c := TreeOf(t);
      c.Modifier? && (c.kind == Reference || c.kind == RvalueReference) <==> t.Prefixed? && IsReference(t.prefix)
    ensures t.Prefixed? ==> WellFormed(t.sub) && TreeOf(t) == Modifier(PrefixKind(t.prefix), TreeOf(t.sub))
  {
    hide BuiltinName, NameText;
    if t.Prefixed? {
      PrefixTexts(t.prefix);
    } else if t.Qualified? {
      assert t.qualifiers[0] in t.qualifiers;
      if !t.base.Func? {
        QualifiedUnfold(t.qualifiers, false, TreeOf(t.base));
        QualifierTexts(t.qualifiers[0], false);
      } else if t.base.ref.NoRef? {
        QualifiedUnfold(t.qualifiers, true, FunctionTree(t.base));
        QualifierTexts(t.qualifiers[0], true);
      }
    } else if t.Scoped? {
      FirstTree(t.parts[0]);
      NestedIsName(PartTree(t.parts[0]), t.parts[1..]);
    }
  }

  /** What is declared next below an operator. */
  function Below(t: Ty): Ty
    requires t.Prefixed?
  {
    if Twice(t) then t.sub.sub else t.sub
  }

  predicate Twice(t: Ty)
    requires t.Prefixed?
  {
    IsReference(t.prefix) && t.sub.Prefixed? && IsReference(t.sub.prefix)
  }

  lemma {:induction false} BelowUnfold(t: Ty, decl: string, need: Need)
    requires t.Prefixed? && WellFormed(t) && Flat(t)
    ensures IsPrefix(t.prefix) && WellFormed(t.sub) && Flat(t.sub) && WellFormed(Below(t)) && Flat(Below(t))
    ensures HasFunction(Below(t)) == HasFunction(t) && LastBefore(t) == LastOf(OperatorText(t.prefix))
    ensures Below(t) < t && (t.sub.Prefixed? ==> IsPrefix(t.sub.prefix) && WellFormed(t.sub.sub))
    ensures Spell(t, decl, need) ==
      if !Twice(t) then Spell(t.sub, OperatorText(t.prefix) + decl, NeedOf(t.prefix))
      else Spell(Below(t), (if t.prefix == 'O' && t.sub.prefix == 'O' then "&&" else "&") + decl, Snug)
  {
    hide OperatorText, NeedOf, ClassText, SpellFunction, QualifierText;
    assert WellFormed(t.sub) && Flat(t.sub);
  }

  lemma {:induction false} CollapsedText(t: Ty)
    requires t.Prefixed? && WellFormed(t) && WellFormed(t.sub) && WellFormed(Below(t)) && TreeOf(t).Modifier?
    ensures
      var (m, inner) := Collapse(TreeOf(t));
      && m.Modifier? && !IsThisKind(m.kind) && !IsCv(m.kind) && inner == TreeOf(Below(t))
      && KindText(m.kind) ==
        (if !Twice(t) then OperatorText(t.prefix)
         else if t.prefix == 'O' && t.sub.prefix == 'O' then "&&" else "&")
      && LastOf(KindText(m.kind)) == LastOf(OperatorText(t.prefix))
      && NeedOf(t.prefix) ==
        if m.kind == Pointer || m.kind == Reference || m.kind == RvalueReference then Snug else Apart
  {
    hide TreeOf, WellFormed, OperatorText;
    ReferenceTree(t);
    ReferenceTree(t.sub);
    assert IsPrefix(t.prefix) by {
      PrefixIs(t);
    }
    PrefixTexts(t.prefix);
    if t.sub.Prefixed? {
      assert IsPrefix(t.sub.prefix) by {
        PrefixIs(t.sub);
      }
      PrefixTexts(t.sub.prefix);
    }
    ReferenceTexts();
  }

  lemma PrefixIs(t: Ty)
    requires t.Prefixed? && WellFormed(t)
    ensures IsPrefix(t.prefix)
  {
  }

  lemma ReferenceTexts()
    ensures OperatorText('R') == "&" && OperatorText('O') == "&&" && LastOf("&") == LastOf("&&")
  {
  }

  lemma {:induction false} PrefixedUnfold(t: Ty, decl: string, need: Need)
    requires t.Prefixed? && WellFormed(t) && Flat(t)
    ensures WellFormed(Below(t)) && Flat(Below(t)) && HasFunction(Below(t)) == HasFunction(t) && Below(t) < t
    ensures
      var c := TreeOf(t);
      && c.Modifier? && !IsCv(c.kind)
      && var (m, inner) := Collapse(c);
         && m.Modifier? && !IsThisKind(m.kind) && !IsCv(m.kind) && inner == TreeOf(Below(t))
         && LastBefore(t) == LastOf(KindText(m.kind))
         && Spell(t, decl, need) == Spell(Below(t), KindText(m.kind) + decl, NeedOf(t.prefix))
         && NeedOf(t.prefix) ==
           if m.kind == Pointer || m.kind == Reference || m.kind == RvalueReference then Snug else Apart
  {
    hide *;
    BelowUnfold(t, decl, need);
    ReferenceTree(t);
    PrefixTexts(t.prefix);
    CollapsedText(t);
    BelowIs(t);
  }

  lemma BelowIs(t: Ty)
    requires t.Prefixed?
    ensures if Twice(t) then NeedOf(t.prefix) == Snug else Below(t) == t.sub
  {
  }

  lemma {:induction false} QualifiedSpelled(t: Ty, mods: seq<Component>, o: Output, decl: string, need: Need)
    requires t.Qualified? && WellFormed(t) && Flat(t) && Fits(mods, LastBefore(t), HasFunction(t), decl, need)
    requires NoCv(mods)
    ensures Wrote(o, Whole(TreeOf(t), mods, o), Spell(t, decl, need)) && Spell(t, decl, need) != ""
    decreases t, 2
  {
    hide *;
    QualifiedParts(t, decl, need);
    var q, base := t.qualifiers, t.base;
    if base.Func? {
      var f, ref := FunctionTree(base), base.ref;
      var d, w := QualifiedTree(q, true, f), ThisMods(q, f);
      RefDown(ref, d, mods, o);
      ThisDown(q, f, RefMods(ref, d) + mods, o);
      ThisModsText(q, f);
      WaitTexts(w, RefMods(ref, d));
      assert w + (RefMods(ref, d) + mods) == w + RefMods(ref, d) + mods;
      FunctionSpelled(base, w + RefMods(ref, d), mods, o, decl, need);
    } else {
      var c := TreeOf(base);
      NoneAround(mods);
      QualifiersDown(q, "", c, mods, o);
      var inside, mods1 := HasFunction(t), WithQualifiers(q, "", c, mods);
      QualifiedWrites(q, c, mods, inside, decl, need);
      var text := QualifierText(q, "") + decl;
      WritesFits(mods1, LastBefore(base), inside, text, Apart);
      TypeSpelled(base, mods1, o, text, Apart);
    }
  }

  lemma NoneAround(mods: seq<Component>)
    requires NoCv(mods)
    ensures Around("", mods)
  {
  }

  lemma {:induction false} QualifiedParts(t: Ty, decl: string, need: Need)
    requires t.Qualified? && WellFormed(t) && Flat(t)
    ensures
      var q, base := t.qualifiers, t.base;
      && WellFormed(base) && Flat(base) && !base.Qualified? && q != "" && (forall i | 0 <= i < |q| :: IsQualifier(q[i]))
      && TreeOf(t) == (if base.Func? then RefTree(base.ref, QualifiedTree(q, true, FunctionTree(base)))
                       else QualifiedTree(q, false, TreeOf(base)))
      && HasFunction(t) == HasFunction(base)
      && LastBefore(t) == (if base.Func? then '(' else LastOf(QualifierWord(q[0])))
        && (base.Func? ==> HasFunction(base))
      && Spell(t, decl, need) ==
        if base.Func? then SpellFunction(base, decl, need, ThisQualifiers(q) + RefWord(base.ref))
        else Spell(base, QualifierText(q, "") + decl, Apart)
  {
    hide IsQualifier, QualifierWord, QualifierText, ThisQualifiers, QualifiedTree, SpellFunction, ClassText, RefWord;
    hide RefTree;
    var q := t.qualifiers;
    forall i | 0 <= i < |q| ensures IsQualifier(q[i]) {
      assert q[i] in q;
    }
  }

  lemma {:induction false} FunctionAlone(t: Ty, mods: seq<Component>, o: Output, decl: string, need: Need)
    requires t.Func? && WellFormed(t) && Flat(t) && Fits(mods, LastBefore(t), HasFunction(t), decl, need)
    ensures Wrote(o, Whole(TreeOf(t), mods, o), Spell(t, decl, need)) && Spell(t, decl, need) != ""
    decreases t, 2
  {
    hide *;
    FunctionUnfold(t, decl, need);
    RefDown(t.ref, FunctionTree(t), mods, o);
    FunctionSpelled(t, RefMods(t.ref, FunctionTree(t)), mods, o, decl, need);
  }

  lemma FunctionUnfold(t: Ty, decl: string, need: Need)
    requires t.Func? && WellFormed(t) && Flat(t)
    ensures Spell(t, decl, need) == SpellFunction(t, decl, need, RefWord(t.ref)) && LastBefore(t) == '('
    ensures HasFunction(t) && TreeOf(t) == RefTree(t.ref, FunctionTree(t))
  {
    hide SpellFunction;
  }

  /** A function with its qualifiers of `this`. */
  lemma {:induction false} FunctionSpelled(t: Ty, w: seq<Component>, mods: seq<Component>, o: Output, decl: string,
      need: Need)
    requires t.Func? && WellFormed(t) && Flat(t) && Fits(mods, '(', true, decl, need) && AllThis(w)
    ensures
      var s := SpellFunction(t, decl, need, WaitText(w));
      Wrote(o, Whole(FunctionTree(t), w + mods, o), s) && s != ""
    decreases t, 1
  {
    hide *;
    FunctionParts(t, decl, need, WaitText(w));
    var f, ctx, inside := FunctionTree(t), w + mods, HasFunction(t.ret);
    var params := if t.params == [Letter('v')] then "" else ListText(t.params);
    forall p: Output ensures Wrote(p, ParametersText(f, p), "(" + params + ")") {
      forall p1: Output ensures Wrote(p1, Base(f.args.value, p1), params) {
        if t.params == [Letter('v')] {
          BaseUnfold(ArgList(None, None), p1);
          WroteNothing(p1);
        } else {
          ListSpelled(t.params, p1);
        }
      }
      ParametersWrite(f, p, params);
    }
    CalledFits(f, w, mods, decl, need, params, LastBefore(t.ret), inside);
    NoCvBelow(f, ctx);
    WholeStep(f, ctx, o);
    TypeSpelled(t.ret, [f] + ctx, o, Called(decl, need, LastBefore(t.ret), inside, params, WaitText(w)), need);
  }

  lemma {:induction false} FunctionParts(t: Ty, decl: string, need: Need, quals: string)
    requires t.Func? && WellFormed(t) && Flat(t)
    ensures WellFormed(t.ret) && Flat(t.ret) && t.params != [] && forall p | p in t.params :: WellFormed(p) && Flat(p)
    ensures
      var params := if t.params == [Letter('v')] then "" else ListText(t.params);
      SpellFunction(t, decl, need, quals) ==
        Spell(t.ret, Called(decl, need, LastBefore(t.ret), HasFunction(t.ret), params, quals), need)
    ensures TreesOf(t.params) != []
    ensures
      var f := FunctionTree(t);
      && f.Function? && f.ret == Some(TreeOf(t.ret)) && f.args.Some?
      && f.args.value == if t.params == [Letter('v')] then ArgList(None, None) else ListTree(TreesOf(t.params))
  {
    hide Spell, Called, LastBefore, HasFunction, ListText, ListTree;
  }

  lemma {:induction false} MemberSpelled(t: Ty, mods: seq<Component>, o: Output, decl: string, need: Need)
    requires t.Member? && WellFormed(t) && Flat(t) && Fits(mods, LastBefore(t), HasFunction(t), decl, need)
    ensures Wrote(o, Whole(TreeOf(t), mods, o), Spell(t, decl, need)) && Spell(t, decl, need) != ""
    decreases t, 2
  {
    hide *;
    MemberUnfold(t, decl, need);
    var m, text, inside, last := TreeOf(t), ClassText(t.cls), HasFunction(t), LastBefore(t.member);
    forall p: Output ensures Wrote(p, Base(m.cls, p), text) {
      ClassSpelled(t.cls, p);
    }
    MemberFits(m, text, mods, last, inside, decl, need);
    NoCvBelow(m, mods);
    WholeStep(m, mods, o);
    TypeSpelled(t.member, [m] + mods, o, (if last == '(' then "" else " ") + text + "::*" + decl, Apart);
  }

  lemma MemberUnfold(t: Ty, decl: string, need: Need)
    requires t.Member? && WellFormed(t) && Flat(t)
    ensures WellFormed(t.cls) && Flat(t.cls) && NamesClass(t.cls) && WellFormed(t.member) && Flat(t.member)
    ensures TreeOf(t) == PtrMem(TreeOf(t.cls), TreeOf(t.member)) && HasFunction(t) == HasFunction(t.member)
    ensures LastBefore(t) == '*'
    ensures Spell(t, decl, need) ==
      Spell(t.member, (if LastBefore(t.member) == '(' then "" else " ") + ClassText(t.cls) + "::*" + decl, Apart)
  {
    hide ClassText, NamesClass;
  }

  /** A whole type is written as it is spelled, wherever the buffer happens to be. */
  lemma {:induction false} TypeWritten(t: Ty, o: Output)
    requires WellFormed(t) && Flat(t)
    ensures Declare(TreeOf(t), [], o).0.text == o.text + TypeText(t)
  {
    hide Declare, Spell, TreeOf, WellFormed, Flat, Fits;
    EmptyFits(LastBefore(t), HasFunction(t));
    TypeSpelled(t, [], o, "", Nothing);
    WholeIsDeclare(TreeOf(t), o);
  }

  // ---- Functions with their names ----

  /** A name under its qualifiers of `this`, as the printer takes them apart. */
  lemma {:induction false} TypedModsAre(q: string, ref: Ref, c: Component)
    requires !IsThis(c) && forall i | 0 <= i < |q| :: IsQualifier(q[i])
    ensures
      var d := QualifiedTree(q, true, c);
      && TypedMods(d) == [c] + ThisMods(q, c)
      && TypedMods(RefTree(ref, d)) == [c] + (ThisMods(q, c) + RefMods(ref, d))
    decreases |q|
  {
    hide QualifierKind, IsQualifier;
    if q != "" {
      TypedModsAre(q[1..], NoRef, c);
      QualifiedUnfold(q, true, c);
      QualifierTexts(q[0], true);
      var d := QualifiedTree(q, true, c);
      assert [c] + ThisMods(q[1..], c) + [d] == [c] + ThisMods(q, c);
    }
    var w := ThisMods(q, c);
    assert w + [] == w;
    if !ref.NoRef? {
      var d := QualifiedTree(q, true, c);
      assert [c] + w + [RefTree(ref, d)] == [c] + (w + [RefTree(ref, d)]);
    }
  }

  /** A name and qualifiers of `this` around a function: the name goes before the parameters. */
  lemma {:induction false} NameWaits(c: Component, w: seq<Component>, p: Output, text: string)
    requires !c.Modifier? && !c.PtrMem? && !c.Function? && AllThis(w) && Wrote(p, Base(c, p), text)
    ensures
      var all := [c] + w;
      Brackets(all) == Bare && Wrote(p, Inside(all, p), text) && Wrote(p, ThisText(all, p), WaitText(w))
  {
    hide *;
    NoneWaiting([]);
    assert w + [] == w;
    NoModifiers(p);
    ThisWaits(w, [], p);
    ThisWaits(w, [], Base(c, p));
    NoModifiers(Base(c, p));
    ThisIs(c);
    NameModText(c, p);
    InsideUnfold(c, w, p);
    AroundUnfold(c, w, p);
  }

  lemma NoModifiers(p: Output)
    ensures NoneOfThis([]) && Brackets([]) == Bare && Inside([], p) == p && ThisText([], p) == p
  {
  }

  lemma NameModText(c: Component, p: Output)
    requires !c.Modifier? && !c.PtrMem? && !c.Function?
    ensures ModText(c, p) == Base(c, p)
  {
    hide Base;
  }

  lemma {:induction false} NamePartsWrite(f: Component, c: Component, w: seq<Component>, text: string, params: string)
    requires f.Function? && f.args.Some? && !c.Modifier? && !c.PtrMem? && !c.Function? && AllThis(w)
    requires forall p: Output :: Wrote(p, Base(c, p), text)
    requires forall p: Output :: Wrote(p, Base(f.args.value, p), params)
    ensures PartsWrite(f, [c] + w, text, Nothing, params, WaitText(w))
  {
    hide *;
    var all := [c] + w;
    NameWaits(c, w, EMPTY, text);
    BareIsNothing();
    forall o: Output ensures o.last == '(' || Need.Nothing.Nothing? ==> Wrote(o, Inside(all, o), text) {
      NameWaits(c, w, o, text);
    }
    forall o: Output ensures Wrote(o, ThisText(all, o), WaitText(w)) {
      NameWaits(c, w, o, text);
    }
    ParametersKnown(f, params);
    AllParts(f, all, text, Nothing, params, WaitText(w));
  }

  lemma BareIsNothing()
    ensures NeedFrom(Bare) == Nothing
  {
  }

  lemma {:induction false} ArgumentsWrite(t: Ty, p: Output)
    requires t.Func? && WellFormed(t) && Flat(t)
    ensures FunctionTree(t).Function? && FunctionTree(t).args.Some?
    ensures Wrote(p, Base(FunctionTree(t).args.value, p), ParameterList(t))
  {
    hide *;
    FunctionParts(t, "", Nothing, "");
    ParametersAre(t);
    if t.params == [Letter('v')] {
      BaseUnfold(ArgList(None, None), p);
      WroteNothing(p);
    } else {
      ListSpelled(t.params, p);
    }
  }

  lemma ParametersAre(t: Ty)
    requires t.Func? && WellFormed(t) && Flat(t)
    ensures ParameterList(t) == if t.params == [Letter('v')] then "" else ListText(t.params)
  {
    hide ListText;
  }

  /** A function with its name, as in "int (*A::f(char))(long) const": the name is what is declared,
      called with the parameters, as the result; the qualifiers around the name come behind the
      parameters.  Without a result only the call is written. */
  lemma {:induction false} NamedFunctionSpelled(n: Ty, q: string, ref: Ref, t: Ty, o: Output)
    requires WellFormed(n) && Flat(n) && NamesClass(n) && WellFormed(t) && Flat(t) && t.Func?
    requires forall i | 0 <= i < |q| :: IsQualifier(q[i])
    ensures
      var l, f := RefTree(ref, QualifiedTree(q, true, TreeOf(n))), FunctionTree(t);
      var name, quals := ClassText(n), ThisQualifiers(q) + RefWord(ref);
      && Base(Typed(l, f), o).text == o.text + SpellFunction(t, name, Nothing, quals)
      && Base(Typed(l, f.(ret := None)), o).text == o.text + (name + "(" + ParameterList(t) + ")" + quals)
  {
    hide *;
    var c, f, name, params := TreeOf(n), FunctionTree(t), ClassText(n), ParameterList(t);
    var d := QualifiedTree(q, true, c);
    var l, w := RefTree(ref, d), ThisMods(q, c) + RefMods(ref, d);
    NameIsNoModifier(n);
    ThisIs(c);
    TypedModsAre(q, ref, c);
    ThisModsText(q, c);
    RefDown(ref, d, [], o);
    WaitTexts(ThisMods(q, c), RefMods(ref, d));
    ArgumentsWrite(t, o);
    forall p: Output ensures Wrote(p, Base(c, p), name) && Wrote(p, Base(f.args.value, p), params) {
      ClassSpelled(n, p);
      ArgumentsWrite(t, p);
    }
    NamePartsWrite(f, c, w, name, params);
    NamePartsWrite(f.(ret := None), c, w, name, params);
    WithResult(l, c, w, t, o, name, params);
    WithoutResult(l, c, w, f.(ret := None), o, name, params);
  }

  lemma {:induction false} NameIsNoModifier(n: Ty)
    requires WellFormed(n) && Flat(n) && NamesClass(n)
    ensures var c := TreeOf(n); !c.Modifier? && !c.PtrMem? && !c.Function?
  {
    hide *;
    NameKinds(n);
    NameUnfold(n, "", Nothing);
  }

  lemma NameKinds(n: Ty)
    requires NamesClass(n)
    ensures !n.Prefixed? && !n.Qualified? && !n.Func? && !n.Member?
  {
  }

  lemma {:induction false} WithResult(l: Component, c: Component, w: seq<Component>, t: Ty, o: Output, name: string,
      params: string)
    requires TypedMods(l) == [c] + w && t.Func? && WellFormed(t) && Flat(t) && AllThis(w)
    requires params == ParameterList(t)
    requires FunctionTree(t).Function? && PartsWrite(FunctionTree(t), [c] + w, name, Nothing, params, WaitText(w))
    ensures Base(Typed(l, FunctionTree(t)), o).text == o.text + SpellFunction(t, name, Nothing, WaitText(w))
  {
    hide *;
    FunctionParts(t, name, Nothing, WaitText(w));
    var f, mods, inside, last := FunctionTree(t), [c] + w, HasFunction(t.ret), LastBefore(t.ret);
    ParametersAre(t);
    PartsAround(f, mods, name, Nothing, params, WaitText(w));
    PartsFit(f, mods, name, Nothing, params, WaitText(w), last, inside);
    NoCvBelow(f, mods);
    TypeSpelled(t.ret, [f] + mods, o, Called(name, Nothing, last, inside, params, WaitText(w)), Nothing);
    WholeStep(f, mods, o);
    BaseUnfold(Typed(l, f), o);
    DeclareUnfold(f, mods, o);
    WholePlaced(f, mods, o);
    WroteText(o, Base(Typed(l, f), o), SpellFunction(t, name, Nothing, WaitText(w)));
  }

  lemma PartsAround(f: Component, mods: seq<Component>, decl: string, need: Need, params: string, quals: string)
    requires f.Function? && PartsWrite(f, mods, decl, need, params, quals)
    ensures need == NeedFrom(Brackets(mods))
  {
    hide Wrote, Inside, ParametersText, ThisText, NeedFrom, Brackets;
  }

  lemma WholePlaced(f: Component, mods: seq<Component>, o: Output)
    ensures Declare(f, mods, o).1 ==> Whole(f, mods, o) == Declare(f, mods, o).0
  {
    hide Declare;
  }

  lemma {:induction false} WithoutResult(l: Component, c: Component, w: seq<Component>, f: Component, o: Output,
      name: string, params: string)
    requires TypedMods(l) == [c] + w && f.Function? && f.ret.None? && AllThis(w)
    requires PartsWrite(f, [c] + w, name, Nothing, params, WaitText(w))
    ensures Base(Typed(l, f), o).text == o.text + (name + "(" + params + ")" + WaitText(w))
  {
    hide *;
    var mods := [c] + w;
    BaseUnfold(Typed(l, f), o);
    DeclareUnfold(f, mods, o);
    FunctionWrites(f, mods, o, name, Nothing, params, WaitText(w));
    BracketsNone(name, o.last);
    WroteText(o, Base(Typed(l, f), o), name + "(" + params + ")" + WaitText(w));
  }

  lemma BracketsNone(decl: string, last: char)
    ensures Bracketed(decl, Nothing, last) == decl
  {
  }

  /** There is no function to be called on the way down. */
  predicate Uncalled(c: Component) {
    match c
    case Modifier(_, sub) => Uncalled(sub)
    case PtrMem(_, member) => Uncalled(member)
    case Function(_, _) => false
    case _ => true
  }

  lemma {:induction false} RepeatedInside(k: Kind, ms: seq<Component>, mods: seq<Component>)
    requires NoCv(mods)
    ensures CvRepeated(k, ms + mods) == CvRepeated(k, ms)
    decreases |ms|
  {
    if ms == [] {
      assert ms + mods == mods;
    } else {
      assert (ms + mods)[1..] == ms[1..] + mods;
      RepeatedInside(k, ms[1..], mods);
    }
  }

  /** Without a function, what is around is not written, and makes no difference. */
  lemma {:induction false} OutsideWaits(c: Component, ms: seq<Component>, mods: seq<Component>, o: Output)
    requires Uncalled(c) && NoCv(mods)
    ensures Declare(c, ms + mods, o) == Declare(c, ms, o) && !Declare(c, ms, o).1
    decreases c
  {
    hide *;
    UncalledParts(c);
    DeclareUnfold(c, ms, o);
    DeclareUnfold(c, ms + mods, o);
    if c.Modifier? {
      RepeatedInside(c.kind, ms, mods);
      if IsCv(c.kind) && CvRepeated(c.kind, ms) {
        OutsideWaits(c.sub, ms, mods, o);
      } else {
        var (m, inner) := Collapse(c);
        assert [m] + (ms + mods) == [m] + ms + mods;
        OutsideWaits(inner, [m] + ms, mods, o);
      }
    } else if c.PtrMem? {
      assert [c] + (ms + mods) == [c] + ms + mods;
      OutsideWaits(c.member, [c] + ms, mods, o);
    }
  }

  lemma UncalledParts(c: Component)
    requires Uncalled(c)
    ensures !c.Function? && (c.PtrMem? ==> Uncalled(c.member))
    ensures c.Modifier? ==> Uncalled(c.sub) && Uncalled(Collapse(c).1) && Collapse(c).1 < c
  {
    if c.Modifier? {
      assert Uncalled(c.sub);
    }
  }

  lemma {:induction false} QualifiersUncalled(q: string, c: Component)
    ensures Uncalled(QualifiedTree(q, false, c)) <==> Uncalled(c)
    decreases |q|
  {
    if q != "" {
      QualifiersUncalled(q[1..], c);
    }
  }

  lemma {:induction false} TreeUncalled(t: Ty)
    requires WellFormed(t) && Flat(t) && !HasFunction(t)
    ensures Uncalled(TreeOf(t))
    decreases t
  {
    if t.Prefixed? {
      TreeUncalled(t.sub);
    } else if t.Qualified? {
      TreeUncalled(t.base);
      QualifiersUncalled(t.qualifiers, TreeOf(t.base));
    } else if t.Member? {
      TreeUncalled(t.member);
    } else {
      NameUnfold(t, "", Nothing);
    }
  }

  /** Every one of them behind a space. */
  function TrailText(w: seq<Component>): string
    requires AllThis(w)
  {
    if w == [] then "" else " " + KindText(w[0].kind) + TrailText(w[1..])
  }

  lemma {:induction false} TrailWritten(w: seq<Component>, o: Output)
    requires AllThis(w)
    ensures Wrote(o, Trailing(w, o), TrailText(w))
    decreases |w|
  {
    hide Put, KindText, PutChar;
    if w == [] {
      WroteNothing(o);
    } else {
      var p := PutChar(o, ' ');
      var q := ModText(w[0], p);
      WroteChar(o, ' ');
      WroteString(p, KindText(w[0].kind));
      WroteThen(o, p, q, [' '], KindText(w[0].kind));
      TrailWritten(w[1..], q);
      WroteThen(o, q, Trailing(w[1..], q), [' '] + KindText(w[0].kind), TrailText(w[1..]));
    }
  }

  /** A name with a type that calls nothing, as in "int A::x": the type, then the name behind a space. */
  lemma {:induction false} NamedValueSpelled(n: Ty, q: string, ref: Ref, t: Ty, o: Output)
    requires WellFormed(n) && Flat(n) && NamesClass(n) && WellFormed(t) && Flat(t) && !HasFunction(t)
    requires forall i | 0 <= i < |q| :: IsQualifier(q[i])
    ensures
      var d := QualifiedTree(q, true, TreeOf(n));
      var w := ThisMods(q, TreeOf(n)) + RefMods(ref, d);
      && AllThis(w)
      && Base(Typed(RefTree(ref, d), TreeOf(t)), o).text
        == o.text + (TypeText(t) + " " + ClassText(n) + TrailText(w))
  {
    hide *;
    var c, name := TreeOf(n), ClassText(n);
    var d := QualifiedTree(q, true, c);
    var l, w := RefTree(ref, d), ThisMods(q, c) + RefMods(ref, d);
    NameIsNoModifier(n);
    ThisIs(c);
    TypedModsAre(q, ref, c);
    ThisModsText(q, c);
    RefDown(ref, d, [], o);
    WaitTexts(ThisMods(q, c), RefMods(ref, d));
    TreeUncalled(t);
    NameStands(c, w);
    OutsideWaits(TreeOf(t), [], [c] + w, o);
    assert [] + ([c] + w) == [c] + w;
    BaseUnfold(Typed(l, TreeOf(t)), o);
    EmptyFits(LastBefore(t), HasFunction(t));
    NoneRepeated();
    TypeSpelled(t, [], o, "", Nothing);
    WholeIsDeclare(TreeOf(t), o);
    TextOf(t);
    var o1 := Declare(TreeOf(t), [], o).0;
    var p := PutChar(o1, ' ');
    WroteChar(o1, ' ');
    WroteThen(o, o1, p, TypeText(t), [' ']);
    NameModText(c, p);
    ClassSpelled(n, p);
    WroteThen(o, p, Base(c, p), TypeText(t) + [' '], name);
    TrailWritten(w, Base(c, p));
    TrailStep(c, w, o1);
    WroteThen(o, Base(c, p), Trailing([c] + w, o1), TypeText(t) + [' '] + name, TrailText(w));
    WroteText(o, Trailing([c] + w, o1), TypeText(t) + " " + name + TrailText(w));
  }

  lemma NameStands(c: Component, w: seq<Component>)
    requires !c.Modifier?
    ensures NoCv([c] + w)
  {
  }

  lemma TextOf(t: Ty)
    requires WellFormed(t) && Flat(t)
    ensures TypeText(t) == Spell(t, "", Nothing)
  {
    hide Spell;
  }

  lemma TrailStep(c: Component, w: seq<Component>, o: Output)
    ensures Trailing([c] + w, o) == Trailing(w, ModText(c, PutChar(o, ' ')))
  {
    hide ModText, PutChar;
    assert ([c] + w)[1..] == w;
  }

  /** A whole function is written as it is spelled, wherever the buffer happens to be. */
  lemma {:induction false} FunctionWritten(f: Fn, o: Output)
    requires WellFormedFn(f) && FlatFn(f)
    ensures Declare(FnTree(f), [], o).0.text == o.text + FnText(f)
  {
    hide *;
    FnParts(f);
    NamedFunctionSpelled(f.name, f.qualifiers, f.ref, TypeOf(f), o);
    DeclareUnfold(FnTree(f), [], o);
  }

  lemma FnParts(f: Fn)
    requires WellFormedFn(f) && FlatFn(f)
    ensures
      var t := TypeOf(f);
      && WellFormed(f.name) && Flat(f.name) && NamesClass(f.name) && WellFormed(t) && Flat(t) && t.Func?
      && (forall i | 0 <= i < |f.qualifiers| :: IsQualifier(f.qualifiers[i]))
      && var g, name, quals := FunctionTree(t), ClassText(f.name), ThisQualifiers(f.qualifiers) + RefWord(f.ref);
         && FnTree(f) == Typed(RefTree(f.ref, QualifiedTree(f.qualifiers, true, TreeOf(f.name))),
                               if HasResult(f) then g else g.(ret := None))
         && FnText(f) ==
           if HasResult(f) then SpellFunction(t, name, Nothing, quals)
           else name + "(" + ParameterList(t) + ")" + quals
  {
    hide WellFormed, Flat, FunctionTree, ClassText, SpellFunction, ParameterList, TreeOf, HasResult, RefTree;
    hide QualifiedTree, ThisQualifiers, RefWord, IsQualifier;
  }

  // ---- Declarations written out ----

  /** Any one modifier that does not qualify `this`, over a function: in brackets, with a space before,
      whatever the result and the parameters are called. */
  lemma {:induction false} ModifierOverFunction(k: Kind, r: Component, s: string, args: Component, params: string,
      o: Output)
    requires !IsThisKind(k) && !r.Modifier? && !r.PtrMem? && !r.Function?
    requires forall p: Output :: Wrote(p, Base(r, p), s) && Wrote(p, Base(args, p), params)
    ensures Declare(Modifier(k, Function(Some(r), Some(args))), [], o).0.text
      == o.text + (s + " (" + KindText(k) + ")(" + params + ")")
  {
    hide *;
    var f := Function(Some(r), Some(args));
    var m, sign := Modifier(k, f), KindText(k);
    NoneRepeats(k);
    WholeIsDeclare(m, o);
    WholeStep(m, [], o);
    CollapsesNothing(m);
    EmptyFits(LastOf(sign), true);
    ThisIs(m);
    ModifierWrites(m, [], true, "", Nothing);
    var need := if k == Pointer || k == Reference || k == RvalueReference then Snug else Apart;
    WritesFits([m] + [], '(', true, sign + "", need);
    assert sign + "" == sign;
    NoneWaiting([m] + []);
    ResultWritten(f, [], [m] + [], o, sign, need, s, params);
    assert s + " " + ("(" + sign + ")") + "(" + params + ")" + "" == s + " (" + sign + ")(" + params + ")";
    WroteText(o, Declare(m, [], o).0, s + " (" + sign + ")(" + params + ")");
  }

  /** A pointer to a member function. */
  lemma {:induction false} MemberOverFunction(cls: Component, name: string, r: Component, s: string, args: Component,
      params: string, o: Output)
    requires !r.Modifier? && !r.PtrMem? && !r.Function?
    requires forall p: Output :: Wrote(p, Base(r, p), s) && Wrote(p, Base(args, p), params)
    requires forall p: Output :: Wrote(p, Base(cls, p), name)
    ensures Declare(PtrMem(cls, Function(Some(r), Some(args))), [], o).0.text
      == o.text + (s + " (" + name + "::*)(" + params + ")")
  {
    hide *;
    var f := Function(Some(r), Some(args));
    var m, sign := PtrMem(cls, f), name + "::*";
    WholeIsDeclare(m, o);
    WholeStep(m, [], o);
    EmptyFits('*', true);
    MemberFits(m, name, [], '(', true, "", Nothing);
    assert "" + name + "::*" + "" == sign;
    NoneWaiting([m] + []);
    ResultWritten(f, [], [m] + [], o, sign, Apart, s, params);
    assert s + " " + ("(" + sign + ")") + "(" + params + ")" + "" == s + " (" + name + "::*)(" + params + ")";
    WroteText(o, Declare(m, [], o).0, s + " (" + name + "::*)(" + params + ")");
  }

  /** Qualifiers of `this` over a function: no brackets, and the words behind the parameters. */
  lemma {:induction false} ThisOverFunction(q: string, r: Component, s: string, args: Component, params: string,
      o: Output)
    requires (forall i | 0 <= i < |q| :: IsQualifier(q[i])) && !r.Modifier? && !r.PtrMem? && !r.Function?
    requires forall p: Output :: Wrote(p, Base(r, p), s) && Wrote(p, Base(args, p), params)
    ensures Declare(QualifiedTree(q, true, Function(Some(r), Some(args))), [], o).0.text
      == o.text + (s + " (" + params + ")" + ThisQualifiers(q))
  {
    hide *;
    var f, quals := Function(Some(r), Some(args)), ThisQualifiers(q);
    var t := QualifiedTree(q, true, f);
    WholeIsDeclare(t, o);
    ThisDown(q, f, [], o);
    EmptyFits('(', true);
    ThisModsText(q, f);
    ResultWritten(f, ThisMods(q, f), [], o, "", Nothing, s, params);
    assert s + " " + "" + "(" + params + ")" + quals == s + " (" + params + ")" + quals;
    WroteText(o, Declare(t, [], o).0, s + " (" + params + ")" + quals);
  }

  lemma NoneWaiting(mods: seq<Component>)
    ensures AllThis([]) && WaitText([]) == "" && [] + mods == mods
  {
  }

  lemma NoneRepeats(k: Kind)
    ensures !CvRepeated(k, [])
  {
  }

  lemma CollapsesNothing(m: Component)
    requires m.Modifier? && !m.sub.Modifier?
    ensures Collapse(m) == (m, m.sub)
  {
  }

  lemma BracketsBehindSpace(decl: string, need: Need)
    ensures Bracketed(decl, need, ' ') == if need.Nothing? then decl else "(" + decl + ")"
  {
  }

  lemma WroteText(o: Output, o1: Output, s: string)
    requires Wrote(o, o1, s)
    ensures o1.text == o.text + s
  {
  }

  lemma {:induction false} ParametersKnown(f: Component, params: string)
    requires f.Function? && f.args.Some? && forall p: Output :: Wrote(p, Base(f.args.value, p), params)
    ensures forall p: Output :: Wrote(p, ParametersText(f, p), "(" + params + ")")
  {
    hide *;
    forall p: Output ensures Wrote(p, ParametersText(f, p), "(" + params + ")") {
      ParametersWrite(f, p, params);
    }
  }

  /** The result, then what is declared as it. */
  lemma {:induction false} ResultOf(f: Component, mods: seq<Component>, o: Output, text: string, need: Need, s: string)
    requires f.Function? && f.ret.Some? && Fits([f] + mods, Base(f.ret.value, o).last, false, text, need)
    requires var r := f.ret.value; !r.Modifier? && !r.PtrMem? && !r.Function?
    requires Wrote(o, Base(f.ret.value, o), s)
    ensures Wrote(o, Whole(f, mods, o), s + text)
  {
    hide *;
    var r := f.ret.value;
    WholeStep(f, mods, o);
    WholeStep(r, [f] + mods, o);
    var p := Base(r, o);
    FitsAt([f] + mods, p.last, false, text, need, p);
    EndsRest([f] + mods, p);
    WroteThen(o, p, Rest([f] + mods, p), s, text);
  }

  /** A function with its qualifiers of `this`, whose result is a name. */
  lemma {:induction false} ResultWritten(f: Component, w: seq<Component>, mods: seq<Component>, o: Output,
      decl: string, need: Need, s: string, params: string)
    requires f.Function? && f.ret.Some? && f.args.Some? && Fits(mods, '(', true, decl, need) && AllThis(w)
    requires var r := f.ret.value; !r.Modifier? && !r.PtrMem? && !r.Function?
    requires Wrote(o, Base(f.ret.value, o), s) && forall p: Output :: Wrote(p, Base(f.args.value, p), params)
    ensures
      var core := if need.Nothing? then decl else "(" + decl + ")";
      Wrote(o, Whole(f, w + mods, o), s + " " + core + "(" + params + ")" + WaitText(w))
  {
    hide *;
    ParametersKnown(f, params);
    var last := Base(f.ret.value, o).last;
    CalledFits(f, w, mods, decl, need, params, last, false);
    ResultOf(f, w + mods, o, Called(decl, need, last, false, params, WaitText(w)), need, s);
    CalledResult(decl, need, last, params, WaitText(w), s);
  }

  lemma CalledResult(decl: string, need: Need, last: char, params: string, quals: string, s: string)
    ensures
      var core := if need.Nothing? then decl else "(" + decl + ")";
      s + Called(decl, need, last, false, params, quals) == s + " " + core + "(" + params + ")" + quals
  {
    BracketsBehindSpace(decl, need);
    var core := if need.Nothing? then decl else "(" + decl + ")";
    assert s + (" " + (core + "(" + params + ")" + quals)) == s + " " + core + "(" + params + ")" + quals;
  }
}
