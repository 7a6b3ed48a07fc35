/** The parser itself: a cursor into the mangled name, an array of components handed out one after
    another, and an array of substitutions.  Both arrays are as long as the demangler makes them,
    and every method is shown to do what the unlimited function of the same name in module
    Mangling does: neither array is ever exhausted. */
module ManglingParser {
  import opened Wrappers
  import opened Bytes
  import opened Components
  import M = Mangling
  import opened Mangling

  class Parser {
    const s: CString
    var n: nat
    const comps: array<Cell>
    var nextComp: nat
    const subs: array<nat>
    var nextSub: nat
    /** What the fields stand for. */
    ghost var view: State

    constructor (s: CString)
      ensures this.s == s && fresh(comps) && fresh(subs)
      ensures Ready() && view == State(0, [], [])
    {
      this.s := s;
      n, nextComp, nextSub := 0, 0, 0;
      comps := new Cell[2 * |s|](_ => NameCell(""));
      subs := new nat[|s|](_ => 0);
      view := State(0, [], []);
    }

    ghost predicate Tied()
      reads this, comps, subs
    {
      && comps.Length == 2 * |s| && subs.Length == |s|
      && nextComp <= comps.Length && nextSub <= subs.Length
      && view.comps == comps[..nextComp] && view.subs == subs[..nextSub]
    }

    ghost predicate Valid()
      reads this, comps, subs
    {
      n == view.n <= |s| && nextComp == |view.comps| && nextSub == |view.subs| && Tied()
    }

    /** Between two productions: no more than two components and one substitution for each
        character behind the cursor. */
    ghost predicate Ready()
      reads this, comps, subs
    {
      Valid() && |view.comps| <= 2 * view.n && |view.subs| <= view.n
    }

    // ---- The primitives ----

    method Advance(k: nat)
      requires Valid() && n + k <= |s|
      modifies this`n, this`view
      ensures Valid() && view == M.Advance(old(view), k)
    {
      n := n + k;
      view := M.Advance(view, k);
    }

    method CheckChar(c: char) returns (ok: bool)
      requires Valid() && c != '\0'
      modifies this`n, this`view
      ensures Valid() && ok == (Peek(s, old(view).n) == c)
      ensures view == if ok then M.Advance(old(view), 1) else old(view)
    {
      ok := Peek(s, n) == c;
      if ok {
        Advance(1);
      }
    }

    method NextChar() returns (c: char)
      requires Valid()
      modifies this`n, this`view
      ensures Valid() && c == Peek(s, old(view).n)
      ensures view == if old(view).n < |s| then M.Advance(old(view), 1) else old(view)
    {
      c := Peek(s, n);
      if c != '\0' {
        Advance(1);
      }
    }

    /** The next component of the array, if there is one left. */
    method MakeEmpty(cell: Cell) returns (dc: int)
      requires Valid()
      modifies this`nextComp, this`view, comps
      ensures Valid()
      ensures if |old(view).comps| < 2 * |s| then Result(view, dc) == M.MakeEmpty(old(view), cell)
              else dc == NULL && view == old(view)
    {
      if nextComp >= comps.Length {
        return NULL;
      }
      comps[nextComp] := cell;
      dc := nextComp;
      nextComp := nextComp + 1;
      view := view.(comps := view.comps + [cell]);
    }

    method MakeComp(tag: Tag, left: int, right: int) returns (dc: int)
      requires Valid()
      modifies this`nextComp, this`view, comps
      ensures Valid()
      ensures if |old(view).comps| < 2 * |s| then Result(view, dc) == M.MakeComp(old(view), tag, left, right)
              else dc == NULL && view == old(view)
    {
      if (NeedsLeft(tag) && left < 0) || (NeedsRight(tag) && right < 0) {
        return NULL;
      }
      dc := MakeEmpty(Link(tag, left, right));
    }

    method SetLeft(i: int, x: int)
      requires Valid()
      modifies this`view, comps
      ensures Valid() && view == M.SetLeft(old(view), i, x)
    {
      if 0 <= i < nextComp && comps[i].Link? {
        comps[i] := comps[i].(left := x);
        view := M.SetLeft(view, i, x);
      }
    }

    method SetRight(i: int, x: int)
      requires Valid()
      modifies this`view, comps
      ensures Valid() && view == M.SetRight(old(view), i, x)
    {
      if 0 <= i < nextComp && comps[i].Link? {
        comps[i] := comps[i].(right := x);
        view := M.SetRight(view, i, x);
      }
    }

    /** The component that `i` points to. */
    method CellAt(i: int) returns (cell: Cell)
      requires Valid()
      ensures 0 <= i < |view.comps| ==> cell == view.comps[i]
      ensures !(0 <= i < |view.comps|) ==> cell == NameCell("")
    {
      cell := if 0 <= i < nextComp then comps[i] else NameCell("");
    }

    /** The components made so far. */
    method Components() returns (made: seq<Cell>)
      requires Valid()
      ensures made == view.comps
    {
      made := comps[..nextComp];
    }

    method AddSubstitution(dc: int) returns (ok: bool)
      requires Valid() && NULL <= dc
      modifies this`nextSub, this`view, subs
      ensures Valid()
      ensures ok == (dc >= 0 && |old(view).subs| < |s|)
      ensures view == if ok then M.AddSubstitution(Result(old(view), dc)).st else old(view)
    {
      if dc < 0 || nextSub >= subs.Length {
        return false;
      }
      subs[nextSub] := dc;
      nextSub := nextSub + 1;
      view := view.(subs := view.subs + [dc]);
      ok := true;
    }

    method SubstitutionAt(i: nat) returns (dc: nat)
      requires Valid() && i < nextSub
      ensures dc == view.subs[i]
    {
      dc := subs[i];
    }

    // ---- Going back ----

    /** Takes the parser back to where it was.  Substitutions and components made since are given
        up; those made before are all still there. */
    method Backtrack(ghost before: State, n0: nat, nextComp0: nat, nextSub0: nat)
      requires Valid() && Forward(s, before, view)
      requires n0 == before.n && nextComp0 == |before.comps| && nextSub0 == |before.subs|
      modifies this`n, this`nextComp, this`nextSub, this`view
      ensures Valid() && view.n == before.n && view.subs == before.subs
      ensures view.comps == old(view.comps)[..|before.comps|]
    {
      n, nextComp, nextSub := n0, nextComp0, nextSub0;
      view := State(n0, view.comps[..nextComp0], view.subs[..nextSub0]);
    }

    // ---- Names without structure ----

    method ParseNumber() returns (value: nat)
      requires Valid()
      modifies this`n, this`view
      ensures Valid() && var r := Number(s, old(view).n, 0); value == r.0 && view == old(view).(n := r.1)
    {
      value := 0;
      while IsDigit(Peek(s, n))
        invariant Valid() && view == old(view).(n := n)
        invariant Number(s, n, value) == Number(s, old(view).n, 0)
        decreases |s| - n
      {
        value := value * 10 + (Peek(s, n) as nat - '0' as nat);
        Advance(1);
      }
    }

    method ParseSourceName() returns (dc: int)
      requires Ready()
      modifies this, comps, subs
      ensures Ready() && Result(view, dc) == SourceName(s, old(view))
    {
      hide Number, NameText, Tied;
      var len := ParseNumber();
      if len == 0 {
        return NULL;
      }
      dc := ParseIdentifier(len);
    }

    method ParseIdentifier(len: nat) returns (dc: int)
      requires Valid() && len > 0 && |view.comps| <= 2 * view.n
      modifies this, comps, subs
      ensures Valid()
      ensures
        var n := old(view).n;
        if |s| - n < len then dc == NULL && view == old(view)
        else Result(view, dc) == M.MakeEmpty(M.Advance(old(view), len), NameCell(NameText(s[n..n + len])))
    {
      hide Tied, NameText;
      if |s| - n < len {
        return NULL;
      }
      var name := s[n..n + len];
      Advance(len);
      dc := MakeEmpty(NameCell(NameText(name)));
    }

    method ParseUnqualifiedName() returns (dc: int)
      requires Ready()
      modifies this, comps, subs
      ensures Ready() && Result(view, dc) == UnqualifiedName(s, old(view))
    {
      hide SourceName, Tied;
      if !IsDigit(Peek(s, n)) {
        return NULL;
      }
      dc := ParseSourceName();
      if Peek(s, n) == 'B' {
        dc := NULL;
      }
    }

    // ---- Substitutions ----

    method ParseSeqId() returns (id: Option<nat>)
      requires Valid() && Peek(s, view.n) != '_'
      modifies this`n, this`view
      ensures Valid() && var r := SeqId(s, old(view).n, 0); id == r.0 && view == old(view).(n := r.1)
    {
      hide Tied;
      var value := 0;
      var c := NextChar();
      ghost var at := old(view).n;
      while true
        invariant Valid() && at <= |s| && c == Peek(s, at) && c != '_' && value < WORD32
        invariant view == old(view).(n := if at < |s| then at + 1 else at)
        invariant SeqId(s, at, value) == SeqId(s, old(view).n, 0)
        decreases |s| - at
      {
        if !IsDigit(c) && !IsUpper(c) {
          return None;
        }
        var next := (value * 36 + Digit36(c)) % WORD32;
        if next < value {
          return None;
        }
        value := next;
        at := n;
        c := NextChar();
        if c == '_' {
          return Some((value + 1) % WORD32);
        }
      }
    }

    method ParseSubstitution(prefix: bool) returns (dc: int)
      requires Ready()
      modifies this, comps, subs
      ensures Ready() && Result(view, dc) == Substitution(s, old(view), prefix)
    {
      hide Tied, SeqId, StandardSub, M.MakeStandard;
      var ok := CheckChar('S');
      if !ok {
        return NULL;
      }
      var c := Peek(s, n);
      if c == '_' || IsDigit(c) || IsUpper(c) {
        var id := Some(0);
        if c == '_' {
          Advance(1);
        } else {
          id := ParseSeqId();
        }
        if id.None? || id.value >= nextSub {
          return NULL;
        }
        dc := SubstitutionAt(id.value);
      } else {
        c := NextChar();
        var sub := StandardSub(c);
        if sub.None? {
          return NULL;
        }
        dc := MakeStandard(sub.value, prefix && Peek(s, n) in "CD");
      }
    }

    method MakeStandard(sub: Standard, verbose: bool) returns (dc: int)
      requires Valid() && |view.comps| + 2 <= 2 * |s|
      modifies this`nextComp, this`view, comps
      ensures Valid() && Result(view, dc) == M.MakeStandard(old(view), sub, verbose)
    {
      hide Tied;
      if sub.lastName.Some? {
        var lastName := MakeEmpty(SubCell(sub.lastName.value));
      }
      dc := MakeEmpty(SubCell(if verbose then sub.full else sub.simple));
    }

    // ---- Qualifiers ----

    /** Makes the chain of qualifiers: each new one is put into the open operand of the one before.
        Returns the first and the last. */
    method ParseCvQualifiers(memberFn: bool) returns (first: nat, last: int)
      requires Ready()
      modifies this, comps, subs
      ensures Ready() && view == CvQualifiers(s, old(view), memberFn)
      ensures first == |old(view).comps| && last == |view.comps| - 1
    {
      hide Tied, QualifierKind, QualifierChain;
      first, last := nextComp, nextComp - 1;
      ghost var start := view;
      ghost var j: nat := 0;
      while IsQualifier(Peek(s, n))
        invariant Ready() && view.n == start.n + j && view.subs == start.subs
        invariant first == |start.comps| && last == |view.comps| - 1
        invariant QualifierCount(s, start.n) == j + QualifierCount(s, view.n)
        invariant Qualifiers(s, start, view.comps, j, memberFn, 0)
        decreases |s| - n
      {
        var c := Peek(s, n);
        Advance(1);
        QualifierNeedsNothing(c, memberFn);
        ghost var was := view;
        var q := MakeComp(Mod(QualifierKind(c, memberFn)), NULL, NULL);
        QualifierAdded(s, start, was, j, memberFn);
        if last >= first {
          SetLeft(last, q);
        }
        last := q;
        j := j + 1;
      }
      if !memberFn && Peek(s, n) == 'F' {
        MarkThis(first, last, start, j);
      }
      ChainIsQualifiers(s, start, view.comps, memberFn || Peek(s, view.n) == 'F');
    }

    /** Turns the qualifiers into qualifiers of `this`, following the links. */
    method MarkThis(first: nat, last: int, ghost start: State, ghost j: nat)
      requires Valid() && first == |start.comps| && last == first + j - 1
      requires Qualifiers(s, start, view.comps, j, false, 0)
      modifies this`view, comps
      ensures Valid() && view == old(view).(comps := view.comps) && Qualifiers(s, start, view.comps, j, true, 0)
    {
      hide Tied, QualifierKind;
      var i: int := first;
      var done := first > last;
      ghost var k: nat := 0;
      while !done
        invariant Valid() && k <= j && view == old(view).(comps := view.comps)
        invariant done == (k == j) && (!done ==> i == first + k)
        invariant Qualifiers(s, start, view.comps, j, false, k)
        decreases j - k
      {
        assert view.comps[first + k] == QualifierCell(s, start, j, k, false);
        ThisKind(Peek(s, start.n + k));
        var cell := CellAt(i);
        SetTag(i, Mod(OfThis(cell.tag.kind)));
        done := i == last;
        i := cell.left;
        k := k + 1;
      }
    }

    method SetTag(i: int, tag: Tag)
      requires Valid() && 0 <= i < |view.comps| && view.comps[i].Link?
      modifies this`view, comps
      ensures Valid() && view == old(view).(comps := old(view).comps[i := old(view).comps[i].(tag := tag)])
    {
      comps[i] := comps[i].(tag := tag);
      view := view.(comps := view.comps[i := view.comps[i].(tag := tag)]);
    }

    /** A ref-qualifier, with `sub` below it. */
    method ParseRefQualifier(sub: int) returns (dc: int)
      requires Ready()
      modifies this, comps, subs
      ensures Ready() && Result(view, dc) == RefQualifier(s, old(view), sub)
    {
      hide Tied;
      dc := sub;
      var c := Peek(s, n);
      if c == 'R' || c == 'O' {
        Advance(1);
        dc := MakeComp(Mod(if c == 'R' then ReferenceThis else RvalueReferenceThis), sub, NULL);
      }
    }

    // ---- Types ----

    method ParseType() returns (dc: int)
      requires Ready()
      modifies this, comps, subs
      ensures Ready() && Result(view, dc) == Type(s, old(view))
      decreases |s| - n, 3
    {
      hide Tied, PlainType, SubstitutedType, QualifiedType, IsQualifier;
      var c := Peek(s, n);
      if IsQualifier(c) {
        dc := ParseQualifiedType();
      } else if IsBuiltin(c) {
        dc := MakeEmpty(BuiltinCell(c));
        Advance(1);
      } else if c == 'S' {
        dc := ParseSubstitutedType();
      } else {
        dc := ParsePlainType();
        dc := Register(dc);
      }
    }

    /** Makes a component a candidate for substitution, or fails with it. */
    method Register(dc0: int) returns (dc: int)
      requires Valid() && NULL <= dc0 && (dc0 >= 0 ==> |view.subs| < |s|)
      modifies this`nextSub, this`view, subs
      ensures Valid() && Result(view, dc) == M.AddSubstitution(Result(old(view), dc0))
    {
      hide Tied;
      var ok := AddSubstitution(dc0);
      dc := if ok then dc0 else NULL;
    }

    method ParseQualifiedType() returns (dc: int)
      requires Ready() && IsQualifier(Peek(s, view.n))
      modifies this, comps, subs
      ensures Ready() && Result(view, dc) == QualifiedType(s, old(view))
      decreases |s| - n, 2
    {
      hide Tied, Type, FunctionOf, M.CloseQualifiers, CvQualifiers, QualifierCount, QualifierChain;
      var first, last := ParseCvQualifiers(false);
      if Peek(s, n) == 'F' {
        dc := ParseFunction();
      } else {
        dc := ParseType();
      }
      dc := CloseQualifiers(dc, first, last);
    }

    method CloseQualifiers(dc0: int, first: nat, last: int) returns (dc: int)
      requires Valid() && NULL <= dc0 && (dc0 >= 0 ==> |view.subs| < |s|)
      modifies this`nextSub, this`view, comps, subs
      ensures Valid() && Result(view, dc) == M.CloseQualifiers(Result(old(view), dc0), first, last)
    {
      hide Tied;
      if dc0 < 0 {
        return NULL;
      }
      SetLeft(last, dc0);
      var cell := CellAt(dc0);
      if cell.Link? && cell.tag in {Mod(ReferenceThis), Mod(RvalueReferenceThis)} {
        var fn := cell.left;
        SetLeft(dc0, first);
        SetLeft(last, fn);
        dc := Register(dc0);
      } else {
        dc := Register(first);
      }
    }

    method ParsePlainType() returns (dc: int)
      requires Ready()
      modifies this, comps, subs
      ensures Ready() && Result(view, dc) == PlainType(s, old(view))
      decreases |s| - n, 2
    {
      hide Tied, SourceName, FunctionOf, NameOf, ArrayOf, PointerToMember, Type, PrefixKind;
      var c := Peek(s, n);
      if c == 'u' {
        Advance(1);
        var name := ParseSourceName();
        dc := MakeComp(VendorType, name, NULL);
      } else if c == 'F' {
        dc := ParseFunction();
      } else if IsDigit(c) || c == 'N' {
        dc := ParseName();
      } else if c == 'A' {
        dc := ParseArray();
      } else if c == 'M' {
        dc := ParsePointerToMember();
      } else if IsPrefix(c) {
        Advance(1);
        var sub := ParseType();
        dc := MakeComp(Mod(PrefixKind(c)), sub, NULL);
      } else if c == 'U' {
        Advance(1);
        var name := ParseSourceName();
        var sub := ParseType();
        dc := MakeComp(VendorTypeQual, sub, name);
      } else {
        dc := NULL;
      }
    }

    method ParseSubstitutedType() returns (dc: int)
      requires Ready() && Peek(s, view.n) == 'S'
      modifies this, comps, subs
      ensures Ready() && Result(view, dc) == SubstitutedType(s, old(view))
      decreases |s| - n, 2
    {
      hide Tied, Substitution, WithArguments, NameOf;
      var c := Peek(s, n + 1);
      if IsDigit(c) || c == '_' || IsUpper(c) {
        dc := ParseSubstitution(false);
        if Peek(s, n) == 'I' {
          dc := ParseWithArguments(dc);
          dc := Register(dc);
        }
      } else {
        dc := ParseName();
        var cell := CellAt(dc);
        if !cell.SubCell? {
          dc := Register(dc);
        }
      }
    }

    method ParseWithArguments(dc0: int) returns (dc: int)
      requires Ready() && NULL <= dc0
      modifies this, comps, subs
      ensures Ready() && Result(view, dc) == WithArguments(s, old(view), dc0)
      decreases |s| - n, 1, 0
    {
      hide Tied, TemplateArgs;
      var args := ParseTemplateArgs();
      dc := MakeComp(TemplateId, dc0, args);
    }

    method ParseFunction() returns (dc: int)
      requires Ready()
      modifies this, comps, subs
      ensures Ready() && Result(view, dc) == FunctionOf(s, old(view))
      decreases |s| - n, 1
    {
      hide Tied, BareFunction;
      var ok := CheckChar('F');
      if !ok {
        return NULL;
      }
      if Peek(s, n) == 'Y' {
        Advance(1);
      }
      dc := ParseBareFunction(true);
      dc := ParseRefQualifier(dc);
      ok := CheckChar('E');
      if !ok {
        dc := NULL;
      }
    }

    method ParseBareFunction(hasReturn: bool) returns (dc: int)
      requires Ready() && (hasReturn || |view.comps| < 2 * view.n)
      modifies this, comps, subs
      ensures Ready() && Result(view, dc) == BareFunction(s, old(view), hasReturn)
      decreases |s| - n, 5
    {
      hide Tied, Type, Parameters;
      var returns_ := hasReturn;
      if Peek(s, n) == 'J' {
        Advance(1);
        returns_ := true;
      }
      var ret := NULL;
      if returns_ {
        ret := ParseType();
        if ret < 0 {
          return NULL;
        }
      }
      var args := ParseParameters();
      if args < 0 {
        return NULL;
      }
      dc := MakeComp(FunctionTag, ret, args);
    }

    /** The parameters, each new one put into the open tail of the list. */
    method ParseParameters() returns (dc: int)
      requires Ready()
      modifies this, comps, subs
      ensures Ready() && Result(view, dc) == Parameters(s, old(view), NULL, NULL)
      decreases |s| - n, 4
    {
      hide Tied, Type, FinishParameters;
      var first, last := NULL, NULL;
      while !EndOfParameters(s, n)
        invariant Ready() && old(view).n <= view.n && NULL <= first
        invariant Parameters(s, view, first, last) == Parameters(s, old(view), NULL, NULL)
        decreases |s| - n
      {
        var type_ := ParseType();
        if type_ < 0 {
          return NULL;
        }
        var cell := MakeComp(ArgumentList, type_, NULL);
        if first < 0 {
          first := cell;
        } else {
          SetRight(last, cell);
        }
        last := cell;
      }
      DropVoid(first);
      dc := first;
    }

    /** A single void is omitted. */
    method DropVoid(first: int)
      requires Valid()
      modifies this`view, comps
      ensures Valid() && view == FinishParameters(old(view), first).st
    {
      hide Tied;
      if first >= 0 {
        var list := CellAt(first);
        if list.Link? && list.right < 0 {
          var only := CellAt(list.left);
          if only == BuiltinCell('v') {
            SetLeft(first, NULL);
          }
        }
      }
    }

    method ParseArray() returns (dc: int)
      requires Ready()
      modifies this, comps, subs
      ensures Ready() && Result(view, dc) == ArrayOf(s, old(view))
      decreases |s| - n, 1
    {
      hide Tied, Type, Number;
      var ok := CheckChar('A');
      if !ok {
        return NULL;
      }
      var dim := NULL;
      var c := Peek(s, n);
      if c != '_' {
        if !IsDigit(c) {
          return NULL;
        }
        var start := n;
        var value := ParseNumber();
        dim := MakeEmpty(NameCell(s[start..n]));
      }
      ok := CheckChar('_');
      if !ok {
        return NULL;
      }
      var element := ParseType();
      dc := MakeComp(Array, dim, element);
    }

    method ParsePointerToMember() returns (dc: int)
      requires Ready()
      modifies this, comps, subs
      ensures Ready() && Result(view, dc) == PointerToMember(s, old(view))
      decreases |s| - n, 1
    {
      hide Tied, Type;
      var ok := CheckChar('M');
      if !ok {
        return NULL;
      }
      var cls := ParseType();
      if cls < 0 {
        return NULL;
      }
      var member := ParseType();
      if member < 0 {
        return NULL;
      }
      dc := MakeComp(PtrMemType, cls, member);
    }

    // ---- Names ----

    method ParseName() returns (dc: int)
      requires Ready()
      modifies this, comps, subs
      ensures Ready() && Result(view, dc) == NameOf(s, old(view))
      decreases |s| - n, 1, 2
    {
      hide Tied, NestedName, SubstitutedName, UnscopedTemplate;
      var c := Peek(s, n);
      if c == 'N' {
        dc := ParseNestedName();
      } else if c == 'S' && Peek(s, n + 1) != 't' {
        dc := ParseSubstitutedName();
      } else {
        dc := ParseUnscopedTemplate();
      }
    }

    method ParseSubstitutedName() returns (dc: int)
      requires Ready() && Peek(s, view.n) == 'S'
      modifies this, comps, subs
      ensures Ready() && Result(view, dc) == SubstitutedName(s, old(view))
      decreases |s| - n, 1, 1
    {
      hide Tied, Substitution, WithArguments;
      dc := ParseSubstitution(false);
      if Peek(s, n) == 'I' {
        dc := ParseWithArguments(dc);
      }
    }

    method ParseUnscopedTemplate() returns (dc: int)
      requires Ready()
      modifies this, comps, subs
      ensures Ready() && Result(view, dc) == UnscopedTemplate(s, old(view))
      decreases |s| - n, 1, 1
    {
      hide Tied, WithArguments, UnscopedName;
      dc := ParseUnscopedName();
      if Peek(s, n) == 'I' {
        dc := Register(dc);
        if dc >= 0 {
          dc := ParseWithArguments(dc);
        }
      }
    }

    method ParseUnscopedName() returns (dc: int)
      requires Ready()
      modifies this, comps, subs
      ensures Ready() && Result(view, dc) == UnscopedName(s, old(view))
    {
      hide Tied, UnqualifiedName;
      if Peek(s, n) == 'S' && Peek(s, n + 1) == 't' {
        Advance(2);
        var std := MakeEmpty(NameCell("std"));
        var name := ParseUnqualifiedName();
        dc := MakeComp(QualifiedName, std, name);
      } else {
        dc := ParseUnqualifiedName();
      }
    }

    method ParseNestedName() returns (dc: int)
      requires Ready()
      modifies this, comps, subs
      ensures Ready() && Result(view, dc) == NestedName(s, old(view))
      decreases |s| - n, 0
    {
      hide Tied, CvQualifiers, QualifierCount, QualifierChain, Prefix, M.CloseNested;
      var ok := CheckChar('N');
      if !ok {
        return NULL;
      }
      var first, last := ParseCvQualifiers(true);
      var ref := ParseRefQualifier(NULL);
      var prefix := ParsePrefix();
      if prefix < 0 {
        return NULL;
      }
      dc := CloseNested(prefix, first, last, ref);
      ok := CheckChar('E');
      if !ok {
        dc := NULL;
      }
    }

    method CloseNested(prefix: nat, first: nat, last: int, ref: int) returns (dc: int)
      requires Valid()
      modifies this`view, comps
      ensures Valid() && Result(view, dc) == M.CloseNested(Result(old(view), prefix), first, last, ref)
    {
      hide Tied;
      dc := prefix;
      if first <= last {
        SetLeft(last, prefix);
        dc := first;
      }
      if ref >= 0 {
        SetLeft(ref, dc);
        dc := ref;
      }
    }

    method ParsePrefix() returns (dc: int)
      requires Ready()
      modifies this, comps, subs
      ensures Ready() && Result(view, dc) == Prefix(s, old(view), NULL)
      decreases |s| - n, 2, 1
    {
      hide Tied, LongerPrefix;
      dc := NULL;
      while true
        invariant Ready() && old(view).n <= view.n && NULL <= dc
        invariant Prefix(s, view, dc) == Prefix(s, old(view), NULL)
        decreases |s| - n
      {
        var c := Peek(s, n);
        if c == 'E' {
          return;
        }
        if c == 'M' {
          if dc < 0 {
            return NULL;
          }
          Advance(1);
        } else if !IsDigit(c) && c != 'S' && (c != 'I' || dc < 0) {
          return NULL;
        } else {
          dc := ParseLongerPrefix(dc);
          if c != 'S' && Peek(s, n) != 'E' {
            dc := Register(dc);
            if dc < 0 {
              return;
            }
          }
        }
      }
    }

    method ParseLongerPrefix(ret: int) returns (dc: int)
      requires Ready() && NULL <= ret && (IsDigit(Peek(s, view.n)) || Peek(s, view.n) in "SI")
      modifies this, comps, subs
      ensures Ready() && Result(view, dc) == LongerPrefix(s, old(view), ret)
      decreases |s| - n, 2, 0
    {
      hide Tied, Substitution, TemplateArgs, UnqualifiedName;
      var c := Peek(s, n);
      if c == 'S' {
        dc := ParseSubstitution(true);
      } else if c == 'I' {
        dc := ParseTemplateArgs();
      } else {
        dc := ParseUnqualifiedName();
      }
      if ret >= 0 {
        dc := MakeComp(if c == 'I' then TemplateId else QualifiedName, ret, dc);
      }
    }

    /** After a template parameter that names a conversion, template arguments are tried: they belong
        to the parameter if more follow, and otherwise the parser goes back, though not on what was
        patched in older components meanwhile. */
    method ParseConversionArgs(param: int) returns (dc: int)
      requires Ready() && NULL <= param
      modifies this, comps, subs
      ensures Valid()
      ensures
        var r := TemplateArgs(s, old(view));
        Result(view, dc) ==
          if Peek(s, r.st.n) != 'I' then
            Result(State(old(view).n, r.st.comps[..|old(view).comps|], old(view).subs), param)
          else if param < 0 then Result(r.st, NULL)
          else M.MakeComp(M.AddSubstitution(Result(r.st, param)).st, TemplateId, param, r.dc)
    {
      hide Tied, TemplateArgs;
      ghost var before := view;
      var n0, nextComp0, nextSub0 := n, nextComp, nextSub;
      var args := ParseTemplateArgs();
      if Peek(s, n) == 'I' {
        var ok := AddSubstitution(param);
        if !ok {
          return NULL;
        }
        dc := MakeComp(TemplateId, param, args);
      } else {
        Backtrack(before, n0, nextComp0, nextSub0);
        dc := param;
      }
    }

    method ParseTemplateArgs() returns (dc: int)
      requires Ready()
      modifies this, comps, subs
      ensures Ready() && Result(view, dc) == TemplateArgs(s, old(view))
      decreases |s| - n, 0
    {
      hide Tied, Arguments;
      if Peek(s, n) !in "IJ" {
        return NULL;
      }
      Advance(1);
      if Peek(s, n) == 'E' {
        Advance(1);
        dc := MakeComp(TemplateArgList, NULL, NULL);
      } else {
        dc := ParseArguments();
      }
    }

    /** The template arguments, each new one put into the open tail of the list. */
    method ParseArguments() returns (dc: int)
      requires Ready()
      modifies this, comps, subs
      ensures Ready() && Result(view, dc) == Arguments(s, old(view), NULL, NULL)
      decreases |s| - n, 5
    {
      hide Tied, Arguments, TemplateArg;
      var first, last := NULL, NULL;
      while true
        invariant Ready() && old(view).n <= view.n && NULL <= first
        invariant Arguments(s, view, first, last) == Arguments(s, old(view), NULL, NULL)
        decreases |s| - n
      {
        ArgumentsStep(s, view, first, last);
        var arg := ParseTemplateArg();
        if arg < 0 {
          return NULL;
        }
        var cell := MakeComp(TemplateArgList, arg, NULL);
        if first < 0 {
          first := cell;
        } else {
          SetRight(last, cell);
        }
        last := cell;
        if Peek(s, n) == 'E' {
          Advance(1);
          return first;
        }
      }
    }

    method ParseTemplateArg() returns (dc: int)
      requires Ready()
      modifies this, comps, subs
      ensures Ready() && Result(view, dc) == TemplateArg(s, old(view))
      decreases |s| - n, 4
    {
      hide Tied, TemplateArgs, Type;
      if Peek(s, n) in "IJ" {
        dc := ParseTemplateArgs();
      } else if Peek(s, n) in "XL" {
        dc := NULL;
      } else {
        dc := ParseType();
      }
    }

    /** A name, and the type of the function that it is unless the name ends here. */
    method ParseEncoding() returns (dc: int)
      requires Ready()
      modifies this, comps, subs
      ensures Ready() && Result(view, dc) == Encoding(s, old(view))
    {
      hide Tied, NameOf, BareFunction, M.HasReturnType;
      var c := Peek(s, n);
      if c == 'G' || c == 'T' {
        return NULL;
      }
      dc := ParseName();
      c := Peek(s, n);
      if dc >= 0 && c != '\0' && c != 'E' {
        var hasReturn := HasReturnType(dc, 2 * |s|);
        var fn := ParseBareFunction(hasReturn);
        dc := MakeComp(TypedName, dc, fn);
      }
    }

    /** Follows the qualifiers of `this` to the name. */
    method HasReturnType(i: int, fuel: nat) returns (b: bool)
      requires Valid()
      ensures b == M.HasReturnType(view.comps, i, fuel)
      decreases fuel
    {
      hide Tied;
      b := false;
      if fuel > 0 && 0 <= i < nextComp {
        var cell := CellAt(i);
        if cell.Link? && cell.tag == TemplateId {
          b := true;
        } else if cell.Link? && cell.tag.Mod? && IsThisKind(cell.tag.kind) {
          b := HasReturnType(cell.left, fuel - 1);
        }
      }
    }

    method ParseMangledName() returns (dc: int)
      requires Ready()
      modifies this, comps, subs
      ensures Ready() && Result(view, dc) == MangledName(s, old(view))
    {
      hide Tied, Encoding;
      var ok := CheckChar('_');
      if !ok {
        return NULL;
      }
      ok := CheckChar('Z');
      if !ok {
        return NULL;
      }
      dc := ParseEncoding();
    }
  }

  /** The component of a mangled name, which must take up the whole of the string. */
  method DemangleName(s: CString) returns (parser: Parser, dc: int)
    ensures fresh(parser) && parser.Valid()
    ensures
      var r := MangledName(s, State(0, [], []));
      parser.view == r.st && dc == if r.st.n == |s| then r.dc else NULL
  {
    parser := new Parser(s);
    dc := parser.ParseMangledName();
    if Peek(s, parser.n) != '\0' {
      dc := NULL;
    }
  }

  /** The component of a mangled type, which must take up the whole of the string; arrays of the
      usual sizes give what no limit would. */
  method DemangleType(s: CString) returns (parser: Parser, dc: int)
    ensures fresh(parser) && parser.Valid()
    ensures
      var r := Type(s, State(0, [], []));
      parser.view == r.st && dc == if r.st.n == |s| then r.dc else NULL
  {
    parser := new Parser(s);
    dc := parser.ParseType();
    if Peek(s, parser.n) != '\0' {
      dc := NULL;
    }
  }

  /** One round of the loop over template arguments. */
  lemma {:induction false} ArgumentsStep(s: CString, st: State, first: int, last: int)
    requires st.n <= |s| && NULL <= first
    ensures
      var arg := TemplateArg(s, st);
      if arg.dc < 0 then Arguments(s, st, first, last) == arg
      else
        var cell := M.MakeComp(arg.st, TemplateArgList, arg.dc, NULL);
        var st1 := if first < 0 then cell.st else M.SetRight(cell.st, last, cell.dc);
        var first1 := if first < 0 then cell.dc else first;
        Arguments(s, st, first, last) ==
          if Peek(s, st1.n) == 'E' then Result(M.Advance(st1, 1), first1) else Arguments(s, st1, first1, cell.dc)
  {
    hide TemplateArg;
  }

  /** The `i`-th of `j` qualifiers. */
  function QualifierCell(s: CString, start: State, j: nat, i: nat, ofThis: bool): Cell {
    Link(Mod(QualifierKind(Peek(s, start.n + i), ofThis)), if i + 1 < j then |start.comps| + i + 1 else NULL, NULL)
  }

  /** Behind the components there were, `j` linked qualifiers, the first `marked` of them in any
      case of `this`. */
  ghost predicate Qualifiers(s: CString, start: State, comps: seq<Cell>, j: nat, ofThis: bool, marked: nat) {
    && |comps| == |start.comps| + j && start.comps <= comps
    && forall m | |start.comps| <= m < |comps| ::
         var i := m - |start.comps|;
         comps[m] == QualifierCell(s, start, j, i, ofThis || i < marked)
  }

  lemma QualifierNeedsNothing(c: char, ofThis: bool)
    ensures !NeedsLeft(Mod(QualifierKind(c, ofThis))) && !NeedsRight(Mod(QualifierKind(c, ofThis)))
  {
  }

  /** One more qualifier, put into the open operand of the last. */
  lemma {:induction false} QualifierAdded(s: CString, start: State, st: State, j: nat, ofThis: bool)
    requires Qualifiers(s, start, st.comps, j, ofThis, 0)
    ensures
      var q := Link(Mod(QualifierKind(Peek(s, start.n + j), ofThis)), NULL, NULL);
      var st1 := M.MakeEmpty(st, q).st;
      var st2 := if j > 0 then M.SetLeft(st1, |st.comps| - 1, |st.comps|) else st1;
      Qualifiers(s, start, st2.comps, j + 1, ofThis, 0)
  {
    hide QualifierKind;
    if j > 0 {
      assert st.comps[|st.comps| - 1] == QualifierCell(s, start, j, j - 1, ofThis);
    }
  }

  function OfThis(k: Kind): Kind {
    match k
    case Restrict => RestrictThis
    case Volatile => VolatileThis
    case Const => ConstThis
    case _ => k
  }

  lemma ThisKind(c: char)
    ensures OfThis(QualifierKind(c, false)) == QualifierKind(c, true)
  {
  }

  lemma {:induction false} ChainIsQualifiers(s: CString, start: State, comps: seq<Cell>, ofThis: bool)
    requires Qualifiers(s, start, comps, QualifierCount(s, start.n), ofThis, 0)
    ensures comps == start.comps + QualifierChain(s, start.n, |start.comps|, ofThis)
  {
    hide QualifierKind;
    var base := |start.comps|;
    var chain := QualifierChain(s, start.n, base, ofThis);
    forall i | 0 <= i < |comps| ensures comps[i] == (start.comps + chain)[i] {
      if i >= base {
        ChainAt(s, start.n, base, ofThis, i - base);
      }
    }
  }
}
