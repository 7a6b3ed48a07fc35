/** The parser of mangled names and types (section 5.1 of the Itanium C++ ABI), as functions on
    its state: the cursor, the arena of components and the substitution table.  The arena and the
    table have no limit here; how much of them a parse can use is in the contracts.

    A component is named by its place in the arena, and -1 is the null pointer. */
module Mangling {
  import opened Wrappers
  import opened Bytes
  import opened Components

  type CString = s: string | '\0' !in s

  datatype Tag =
    | QualifiedName | TypedName | TemplateId | TemplateArgList | ArgumentList | FunctionTag | PtrMemType | Array
    | VendorType | VendorTypeQual | Mod(kind: Kind)

  datatype Cell =
    | NameCell(text: string) | SubCell(text: string) | BuiltinCell(letter: char)
    | Link(tag: Tag, left: int, right: int)

  datatype State = State(n: nat, comps: seq<Cell>, subs: seq<nat>)

  /** Where a parse stops, and its component. */
  datatype Result = Result(st: State, dc: int)

  const NULL: int := -1

  // ---- How far a parse may go ----

  /** Characters are consumed, components and substitutions only added. */
  ghost predicate Forward(s: CString, st: State, r: State) {
    st.n <= r.n && (st.n <= |s| ==> r.n <= |s|) && |st.comps| <= |r.comps| && st.subs <= r.subs
  }

  /** At most two components and one substitution for each character consumed; on success `spare`
      components and `spareSubs` substitutions less. */
  ghost predicate Frugal(s: CString, st: State, r: Result, spare: nat, spareSubs: nat) {
    && Forward(s, st, r.st) && NULL <= r.dc
    && |r.st.comps| - |st.comps| + (if r.dc >= 0 then spare else 0) <= 2 * (r.st.n - st.n)
    && |r.st.subs| - |st.subs| + (if r.dc >= 0 then spareSubs else 0) <= r.st.n - st.n
  }

  // ---- Characters ----

  function Peek(s: CString, n: nat): char {
    if n < |s| then s[n] else '\0'
  }

  predicate IsDigit(c: char) {
    '0' <= c <= '9'
  }

  predicate IsUpper(c: char) {
    'A' <= c <= 'Z'
  }

  predicate IsQualifier(c: char) {
    c == 'r' || c == 'V' || c == 'K'
  }

  /** The letters of the builtin types: k, p, q, r and u are not among them. */
  predicate IsBuiltin(c: char) {
    'a' <= c <= 'z' && c != 'k' && c != 'p' && c != 'q' && c != 'r' && c != 'u'
  }

  /** What stands before another type. */
  predicate IsPrefix(c: char) {
    c == 'O' || c == 'P' || c == 'R' || c == 'C' || c == 'G'
  }

  function Advance(st: State, k: nat): State {
    st.(n := st.n + k)
  }

  // ---- Components ----

  function MakeEmpty(st: State, cell: Cell): Result {
    Result(st.(comps := st.comps + [cell]), |st.comps|)
  }

  predicate NeedsLeft(tag: Tag) {
    tag in {QualifiedName, TypedName, TemplateId, PtrMemType, VendorType, VendorTypeQual}
    || (tag.Mod? && tag.kind in {Pointer, Reference, RvalueReference, Complex, Imaginary})
  }

  predicate NeedsRight(tag: Tag) {
    tag in {QualifiedName, TypedName, TemplateId, PtrMemType, VendorTypeQual, Array}
  }

  /** A null operand that the tag cannot do without is passed on. */
  function MakeComp(st: State, tag: Tag, left: int, right: int): Result {
    if (NeedsLeft(tag) && left < 0) || (NeedsRight(tag) && right < 0) then Result(st, NULL)
    else MakeEmpty(st, Link(tag, left, right))
  }

  function LeftOf(st: State, i: int): int {
    if 0 <= i < |st.comps| && st.comps[i].Link? then st.comps[i].left else NULL
  }

  function RightOf(st: State, i: int): int {
    if 0 <= i < |st.comps| && st.comps[i].Link? then st.comps[i].right else NULL
  }

  function SetLeft(st: State, i: int, x: int): State {
    if 0 <= i < |st.comps| && st.comps[i].Link? then st.(comps := st.comps[i := st.comps[i].(left := x)]) else st
  }

  function SetRight(st: State, i: int, x: int): State {
    if 0 <= i < |st.comps| && st.comps[i].Link? then st.(comps := st.comps[i := st.comps[i].(right := x)]) else st
  }

  function AddSubstitution(r: Result): Result {
    if r.dc < 0 then Result(r.st, NULL) else Result(r.st.(subs := r.st.subs + [r.dc]), r.dc)
  }

  // ---- Names without structure ----

  /** A decimal number: its value, and where it ends. */
  function Number(s: CString, n: nat, value: nat): (r: (nat, nat))
    ensures n <= r.1 && (n <= |s| ==> r.1 <= |s|)
    ensures IsDigit(Peek(s, n)) ==> n < r.1
    decreases |s| - n
  {
    if IsDigit(Peek(s, n)) then Number(s, n + 1, value * 10 + (Peek(s, n) as nat - '0' as nat)) else (value, n)
  }

  const ANONYMOUS_PREFIX := "_GLOBAL_"

  /** The compiler's spelling of the unnamed namespace is replaced. */
  function NameText(text: string): (r: string)
    ensures text != "" ==> r != ""
  {
    if |text| >= 10 && text[..8] == ANONYMOUS_PREFIX && text[8] in "._$" && text[9] == 'N'
    then "(anonymous namespace)" else text
  }

  function SourceName(s: CString, st: State): (r: Result)
    requires st.n <= |s|
    ensures Frugal(s, st, r, 3, 2)
    ensures IsDigit(Peek(s, st.n)) ==> st.n < r.st.n
  {
    var (len, n) := Number(s, st.n, 0);
    if len == 0 || |s| - n < len then Result(st.(n := n), NULL)
    else MakeEmpty(st.(n := n + len), NameCell(NameText(s[n..n + len])))
  }

  /** Of an unqualified name only a source name is followed up here. */
  function UnqualifiedName(s: CString, st: State): (r: Result)
    requires st.n <= |s|
    ensures Frugal(s, st, r, 3, 2)
    ensures IsDigit(Peek(s, st.n)) ==> st.n < r.st.n
  {
    if !IsDigit(Peek(s, st.n)) then Result(st, NULL)
    else
      var r := SourceName(s, st);
      if Peek(s, r.st.n) == 'B' then Result(r.st, NULL) else r
  }

  // ---- Substitutions ----


  function Digit36(c: char): nat
    requires IsDigit(c) || IsUpper(c)
  {
    if IsDigit(c) then c as nat - '0' as nat else c as nat - 'A' as nat + 10
  }

  /** The base-36 number that goes on at `n`, up to an underscore; 32-bit arithmetic, of which
      some overflows are noticed. */
  function SeqId(s: CString, n: nat, id: nat): (r: (Option<nat>, nat))
    ensures n <= r.1 && (n <= |s| ==> r.1 <= |s|)
    decreases |s| - n
  {
    var c := Peek(s, n);
    if c == '_' then (Some((id + 1) % WORD32), n + 1)
    else if !IsDigit(c) && !IsUpper(c) then (None, if n < |s| then n + 1 else n)
    else
      var next := (id * 36 + Digit36(c)) % WORD32;
      if next < id then (None, n + 1) else SeqId(s, n + 1, next)
  }

  datatype Standard = Standard(simple: string, full: string, lastName: Option<string>)

  function StandardSub(c: char): Option<Standard> {
    match c
    case 't' => Some(Standard("std", "std", None))
    case 'a' => Some(Standard("std::allocator", "std::allocator", Some("allocator")))
    case 'b' => Some(Standard("std::basic_string", "std::basic_string", Some("basic_string")))
    case 's' => Some(Standard("std::string", "std::basic_string<char, std::char_traits<char>, std::allocator<char> >",
      Some("basic_string")))
    case 'i' => Some(Standard("std::istream", "std::basic_istream<char, std::char_traits<char> >",
      Some("basic_istream")))
    case 'o' => Some(Standard("std::ostream", "std::basic_ostream<char, std::char_traits<char> >",
      Some("basic_ostream")))
    case 'd' => Some(Standard("std::iostream", "std::basic_iostream<char, std::char_traits<char> >",
      Some("basic_iostream")))
    case _ => None
  }

  /** A standard substitution also makes a component for the name of a constructor, if any. */
  function MakeStandard(st: State, sub: Standard, verbose: bool): (r: Result)
    ensures r.dc >= 0 && |r.st.comps| <= |st.comps| + 2 && r.st == st.(comps := r.st.comps)
  {
    var st1 := if sub.lastName.Some? then MakeEmpty(st, SubCell(sub.lastName.value)).st else st;
    MakeEmpty(st1, SubCell(if verbose then sub.full else sub.simple))
  }

  function Substitution(s: CString, st: State, prefix: bool): (r: Result)
    requires st.n <= |s|
    ensures Frugal(s, st, r, 2, 2)
    ensures Peek(s, st.n) == 'S' ==> st.n < r.st.n
  {
    if Peek(s, st.n) != 'S' then Result(st, NULL)
    else
      var c := Peek(s, st.n + 1);
      if c == '_' || IsDigit(c) || IsUpper(c) then
        var (id, n) := if c == '_' then (Some(0), st.n + 2) else SeqId(s, st.n + 1, 0);
        if id.None? || id.value >= |st.subs| then Result(st.(n := n), NULL) else Result(st.(n := n), st.subs[id.value])
      else
        var st1 := Advance(st, if c == '\0' then 1 else 2);
        var sub := StandardSub(c);
        if sub.None? then Result(st1, NULL)
        else MakeStandard(st1, sub.value, prefix && Peek(s, st1.n) in "CD")
  }

  // ---- Qualifiers ----

  function QualifierKind(c: char, ofThis: bool): Kind {
    if c == 'r' then if ofThis then RestrictThis else Restrict
    else if c == 'V' then if ofThis then VolatileThis else Volatile
    else if ofThis then ConstThis else Const
  }

  /** How many qualifiers there are. */
  function QualifierCount(s: CString, n: nat): (k: nat)
    ensures n <= |s| ==> n + k <= |s|
    ensures IsQualifier(Peek(s, n)) <==> k > 0
    decreases |s| - n
  {
    if IsQualifier(Peek(s, n)) then 1 + QualifierCount(s, n + 1) else 0
  }

  /** A component for each, linked to the next; the last one's operand is still open. */
  function QualifierChain(s: CString, n: nat, base: nat, ofThis: bool): (cells: seq<Cell>)
    ensures |cells| == QualifierCount(s, n)
    decreases |s| - n
  {
    if IsQualifier(Peek(s, n)) then
      var next := if IsQualifier(Peek(s, n + 1)) then base + 1 else NULL;
      [Link(Mod(QualifierKind(Peek(s, n), ofThis)), next, NULL)] + QualifierChain(s, n + 1, base + 1, ofThis)
    else []
  }

  lemma {:induction false} ChainAt(s: CString, n: nat, base: nat, ofThis: bool, i: nat)
    requires i < QualifierCount(s, n)
    ensures QualifierChain(s, n, base, ofThis)[i]
      == Link(Mod(QualifierKind(Peek(s, n + i), ofThis)),
              if i + 1 < QualifierCount(s, n) then base + i + 1 else NULL, NULL)
    decreases i
  {
    hide QualifierKind;
    if i > 0 {
      ChainAt(s, n + 1, base + 1, ofThis, i - 1);
    }
  }

  /** Before a function type they qualify `this`, as they do for a member function. */
  function CvQualifiers(s: CString, st: State, memberFn: bool): (r: State)
    ensures r.n == st.n + QualifierCount(s, st.n) && |r.comps| == |st.comps| + QualifierCount(s, st.n)
      && r.subs == st.subs
    ensures st.comps <= r.comps
  {
    var k := QualifierCount(s, st.n);
    State(st.n + k, st.comps + QualifierChain(s, st.n, |st.comps|, memberFn || Peek(s, st.n + k) == 'F'), st.subs)
  }

  function RefQualifier(s: CString, st: State, sub: int): Result {
    var c := Peek(s, st.n);
    if c == 'R' || c == 'O' then
      MakeComp(Advance(st, 1), Mod(if c == 'R' then ReferenceThis else RvalueReferenceThis), sub, NULL)
    else Result(st, sub)
  }

  predicate IsRefThis(st: State, i: int) {
    0 <= i < |st.comps| && st.comps[i].Link? && st.comps[i].tag in {Mod(ReferenceThis), Mod(RvalueReferenceThis)}
  }

  predicate IsVoid(st: State, i: int) {
    0 <= i < |st.comps| && st.comps[i] == BuiltinCell('v')
  }

  // ---- Types ----

  /** Fills the operand of the last of the qualifiers from `first` to `last`, and moves a
      ref-qualifier outside of them. */
  function CloseQualifiers(r: Result, first: int, last: int): (c: Result)
    requires NULL <= first
    ensures c.st.n == r.st.n && |c.st.comps| == |r.st.comps| && NULL <= c.dc && (c.dc >= 0 ==> r.dc >= 0)
    ensures r.st.subs <= c.st.subs && |c.st.subs| <= |r.st.subs| + (if c.dc >= 0 then 1 else 0)
  {
    if r.dc < 0 then Result(r.st, NULL)
    else
      var st := SetLeft(r.st, last, r.dc);
      if IsRefThis(st, r.dc) then
        var fn := LeftOf(st, r.dc);
        AddSubstitution(Result(SetLeft(SetLeft(st, r.dc, first), last, fn), r.dc))
      else AddSubstitution(Result(st, first))
  }

  function Type(s: CString, st: State): (r: Result)
    requires st.n <= |s|
    ensures Frugal(s, st, r, 1, 0)
    ensures r.dc >= 0 ==> st.n < r.st.n
    decreases |s| - st.n, 3
  {
    hide PlainType, SubstitutedType, QualifiedType, IsQualifier, IsBuiltin;
    var c := Peek(s, st.n);
    if IsQualifier(c) then QualifiedType(s, st)
    else if IsBuiltin(c) then Advanced(MakeEmpty(st, BuiltinCell(c)), 1)
    else if c == 'S' then SubstitutedType(s, st)
    else AddSubstitution(PlainType(s, st))
  }

  /** All the qualifiers are taken off first, so that only the unqualified and the fully qualified
      type are candidates. */
  function QualifiedType(s: CString, st: State): (r: Result)
    requires st.n <= |s| && IsQualifier(Peek(s, st.n))
    ensures Frugal(s, st, r, 1, 0) && st.n < r.st.n
    decreases |s| - st.n, 2
  {
    hide Type, FunctionOf, CloseQualifiers, CvQualifiers, QualifierCount, QualifierChain;
    var q := CvQualifiers(s, st, false);
    var r := if Peek(s, q.n) == 'F' then FunctionOf(s, q) else Type(s, q);
    CloseQualifiers(r, |st.comps|, |q.comps| - 1)
  }

  function Advanced(r: Result, k: nat): Result {
    Result(Advance(r.st, k), r.dc)
  }

  /** A type that is a substitution candidate. */
  function PlainType(s: CString, st: State): (r: Result)
    requires st.n <= |s|
    ensures Frugal(s, st, r, 1, 1)
    decreases |s| - st.n, 2
  {
    hide SourceName, FunctionOf, NameOf, ArrayOf, PointerToMember, Type;
    var c := Peek(s, st.n);
    if c == 'u' then
      var name := SourceName(s, Advance(st, 1));
      MakeComp(name.st, VendorType, name.dc, NULL)
    else if c == 'F' then FunctionOf(s, st)
    else if IsDigit(c) || c == 'N' then NameOf(s, st)
    else if c == 'A' then ArrayOf(s, st)
    else if c == 'M' then PointerToMember(s, st)
    else if IsPrefix(c) then
      var sub := Type(s, Advance(st, 1));
      MakeComp(sub.st, Mod(PrefixKind(c)), sub.dc, NULL)
    else if c == 'U' then
      var name := SourceName(s, Advance(st, 1));
      var sub := Type(s, name.st);
      MakeComp(sub.st, VendorTypeQual, sub.dc, name.dc)
    else Result(st, NULL)
  }

  function PrefixKind(c: char): Kind {
    if c == 'O' then RvalueReference else if c == 'P' then Pointer else if c == 'R' then Reference
    else if c == 'C' then Complex else Imaginary
  }

  /** A substitution is not registered again, unless template arguments follow it. */
  function SubstitutedType(s: CString, st: State): (r: Result)
    requires st.n <= |s| && Peek(s, st.n) == 'S'
    ensures Frugal(s, st, r, 1, 0)
    ensures r.dc >= 0 ==> st.n < r.st.n
    decreases |s| - st.n, 2
  {
    hide Substitution, WithArguments, NameOf;
    var c := Peek(s, st.n + 1);
    if IsDigit(c) || c == '_' || IsUpper(c) then
      var sub := Substitution(s, st, false);
      if Peek(s, sub.st.n) == 'I' then AddSubstitution(WithArguments(s, sub.st, sub.dc)) else sub
    else
      var r := NameOf(s, st);
      if 0 <= r.dc < |r.st.comps| && r.st.comps[r.dc].SubCell? then r else AddSubstitution(r)
  }

  /** A template name, then its arguments. */
  function WithArguments(s: CString, st: State, dc: int): (r: Result)
    requires st.n <= |s| && NULL <= dc
    ensures Frugal(s, st, r, 2, 2) && (Peek(s, st.n) == 'I' ==> st.n < r.st.n)
    decreases |s| - st.n, 1, 0
  {
    var args := TemplateArgs(s, st);
    MakeComp(args.st, TemplateId, dc, args.dc)
  }

  function FunctionOf(s: CString, st: State): (r: Result)
    requires st.n <= |s|
    ensures Frugal(s, st, r, 2, 1)
    decreases |s| - st.n, 1
  {
    if Peek(s, st.n) != 'F' then Result(st, NULL)
    else
      var st1 := Advance(st, if Peek(s, st.n + 1) == 'Y' then 2 else 1);
      hide BareFunction;
      var fn := BareFunction(s, st1, true);
      var r := RefQualifier(s, fn.st, fn.dc);
      if Peek(s, r.st.n) == 'E' then Advanced(r, 1) else Result(r.st, NULL)
  }

  function BareFunction(s: CString, st: State, hasReturn: bool): (r: Result)
    requires st.n <= |s|
    ensures Forward(s, st, r.st) && NULL <= r.dc
    ensures |r.st.comps| - |st.comps| <= 2 * (r.st.n - st.n) + (if hasReturn || r.dc < 0 then 0 else 1)
    ensures |r.st.subs| - |st.subs| <= r.st.n - st.n
    decreases |s| - st.n, 5
  {
    hide Type, Parameters;
    var st1 := if Peek(s, st.n) == 'J' then Advance(st, 1) else st;
    if hasReturn || Peek(s, st.n) == 'J' then
      var ret := Type(s, st1);
      if ret.dc < 0 then ret
      else
        var args := Parameters(s, ret.st, NULL, NULL);
        if args.dc < 0 then args else MakeComp(args.st, FunctionTag, ret.dc, args.dc)
    else
      var args := Parameters(s, st1, NULL, NULL);
      if args.dc < 0 then args else MakeComp(args.st, FunctionTag, NULL, args.dc)
  }

  /** At the end, or at the ref-qualifier of a function. */
  predicate EndOfParameters(s: CString, n: nat) {
    Peek(s, n) in "\0E." || (Peek(s, n) in "RO" && Peek(s, n + 1) == 'E')
  }

  /** The rest of a parameter list of which the components from `first` to `last` are made. */
  function Parameters(s: CString, st: State, first: int, last: int): (r: Result)
    requires st.n <= |s| && NULL <= first
    ensures Frugal(s, st, r, 0, 0)
    decreases |s| - st.n, 4
  {
    hide Type, FinishParameters;
    if EndOfParameters(s, st.n) then FinishParameters(st, first)
    else
      var type_ := Type(s, st);
      if type_.dc < 0 then type_
      else
        var cell := MakeComp(type_.st, ArgumentList, type_.dc, NULL);
        if first < 0 then Parameters(s, cell.st, cell.dc, cell.dc)
        else Parameters(s, SetRight(cell.st, last, cell.dc), first, cell.dc)
  }

  /** A single void stands for no parameter. */
  function FinishParameters(st: State, first: int): (r: Result)
    ensures r.dc == first && r.st.n == st.n && r.st.subs == st.subs && |r.st.comps| == |st.comps|
  {
    if first >= 0 && RightOf(st, first) < 0 && IsVoid(st, LeftOf(st, first))
    then Result(SetLeft(st, first, NULL), first)
    else Result(st, first)
  }

  function ArrayOf(s: CString, st: State): (r: Result)
    requires st.n <= |s|
    ensures Frugal(s, st, r, 2, 2)
    decreases |s| - st.n, 1
  {
    var c := Peek(s, st.n + 1);
    if Peek(s, st.n) != 'A' then Result(st, NULL)
    else if c != '_' && !IsDigit(c) then Result(Advance(st, 1), NULL)
    else
      var (_, n) := Number(s, st.n + 1, 0);
      var dim := if c == '_' then Result(Advance(st, 1), NULL) else MakeEmpty(st.(n := n), NameCell(s[st.n + 1..n]));
      if Peek(s, dim.st.n) != '_' then Result(dim.st, NULL)
      else
        var element := Type(s, Advance(dim.st, 1));
        MakeComp(element.st, Array, dim.dc, element.dc)
  }

  function PointerToMember(s: CString, st: State): (r: Result)
    requires st.n <= |s|
    ensures Frugal(s, st, r, 3, 1)
    decreases |s| - st.n, 1
  {
    if Peek(s, st.n) != 'M' then Result(st, NULL)
    else
      var cls := Type(s, Advance(st, 1));
      if cls.dc < 0 then cls
      else
        var member := Type(s, cls.st);
        if member.dc < 0 then member else MakeComp(member.st, PtrMemType, cls.dc, member.dc)
  }

  // ---- Names ----

  function NameOf(s: CString, st: State): (r: Result)
    requires st.n <= |s|
    ensures Frugal(s, st, r, 2, 1)
    decreases |s| - st.n, 1, 2
  {
    hide NestedName, SubstitutedName, UnscopedTemplate;
    var c := Peek(s, st.n);
    if c == 'N' then NestedName(s, st)
    else if c == 'S' && Peek(s, st.n + 1) != 't' then SubstitutedName(s, st)
    else UnscopedTemplate(s, st)
  }

  function SubstitutedName(s: CString, st: State): (r: Result)
    requires st.n <= |s| && Peek(s, st.n) == 'S'
    ensures Frugal(s, st, r, 2, 2)
    decreases |s| - st.n, 1, 1
  {
    hide Substitution, WithArguments;
    var sub := Substitution(s, st, false);
    if Peek(s, sub.st.n) == 'I' then WithArguments(s, sub.st, sub.dc) else sub
  }

  /** An unscoped name is a substitution candidate if template arguments follow it. */
  function UnscopedTemplate(s: CString, st: State): (r: Result)
    requires st.n <= |s|
    ensures Frugal(s, st, r, 2, 1)
    decreases |s| - st.n, 1, 1
  {
    hide UnscopedName, WithArguments;
    var name := UnscopedName(s, st);
    if Peek(s, name.st.n) == 'I' then
      var candidate := AddSubstitution(name);
      if candidate.dc < 0 then candidate else WithArguments(s, candidate.st, candidate.dc)
    else name
  }

  /** An unqualified name, perhaps in namespace std. */
  function UnscopedName(s: CString, st: State): (r: Result)
    requires st.n <= |s|
    ensures Frugal(s, st, r, 3, 2) && (r.dc >= 0 ==> st.n < r.st.n)
  {
    if Peek(s, st.n) == 'S' && Peek(s, st.n + 1) == 't' then
      var std := MakeEmpty(Advance(st, 2), NameCell("std"));
      var name := UnqualifiedName(s, std.st);
      MakeComp(name.st, QualifiedName, std.dc, name.dc)
    else UnqualifiedName(s, st)
  }

  function NestedName(s: CString, st: State): (r: Result)
    requires st.n <= |s|
    ensures Frugal(s, st, r, 3, 2)
    decreases |s| - st.n, 0
  {
    if Peek(s, st.n) != 'N' then Result(st, NULL)
    else
      hide CvQualifiers, QualifierCount, QualifierChain, Prefix, CloseNested;
      var q := CvQualifiers(s, Advance(st, 1), true);
      var ref := RefQualifier(s, q, NULL);
      var prefix := Prefix(s, ref.st, NULL);
      if prefix.dc < 0 then Result(prefix.st, NULL)
      else
        var r := CloseNested(prefix, |st.comps|, |q.comps| - 1, ref.dc);
        if Peek(s, r.st.n) == 'E' then Advanced(r, 1) else Result(r.st, NULL)
  }

  /** Puts the prefix under the qualifiers from `first` to `last`, if any, and these under the
      ref-qualifier, if any. */
  function CloseNested(prefix: Result, first: int, last: int, ref: int): (r: Result)
    requires prefix.dc >= 0 && 0 <= first
    ensures r.dc >= 0 && r.st.n == prefix.st.n && r.st.subs == prefix.st.subs && |r.st.comps| == |prefix.st.comps|
  {
    var r := if first <= last then Result(SetLeft(prefix.st, last, prefix.dc), first) else prefix;
    if ref >= 0 then Result(SetLeft(r.st, ref, r.dc), ref) else r
  }

  /** The rest of a prefix of which `ret` is read. */
  function Prefix(s: CString, st: State, ret: int): (r: Result)
    requires st.n <= |s| && NULL <= ret
    ensures Frugal(s, st, r, 0, 0)
    decreases |s| - st.n, 2
  {
    var c := Peek(s, st.n);
    if c == 'E' then Result(st, ret)
    else if c == 'M' then if ret < 0 then Result(st, NULL) else Prefix(s, Advance(st, 1), ret)
    else if !IsDigit(c) && c != 'S' && (c != 'I' || ret < 0) then Result(st, NULL)
    else
      hide LongerPrefix;
      var longer := LongerPrefix(s, st, ret);
      if c == 'S' || Peek(s, longer.st.n) == 'E' then Prefix(s, longer.st, longer.dc)
      else if longer.dc < 0 then Result(longer.st, NULL)
      else Prefix(s, AddSubstitution(longer).st, longer.dc)
  }

  /** The prefix `ret` with one more part. */
  function LongerPrefix(s: CString, st: State, ret: int): (r: Result)
    requires st.n <= |s| && NULL <= ret && (IsDigit(Peek(s, st.n)) || Peek(s, st.n) in "SI")
    ensures Frugal(s, st, r, 1, 2) && st.n < r.st.n
    decreases |s| - st.n, 2, 0
  {
    hide PrefixPart;
    var part := PrefixPart(s, st);
    if ret < 0 then part
    else MakeComp(part.st, if Peek(s, st.n) == 'I' then TemplateId else QualifiedName, ret, part.dc)
  }

  function PrefixPart(s: CString, st: State): (r: Result)
    requires st.n <= |s| && (IsDigit(Peek(s, st.n)) || Peek(s, st.n) in "SI")
    ensures Frugal(s, st, r, 2, 2) && st.n < r.st.n
    decreases |s| - st.n, 1
  {
    hide Substitution, TemplateArgs, UnqualifiedName;
    if Peek(s, st.n) == 'S' then Substitution(s, st, true)
    else if Peek(s, st.n) == 'I' then TemplateArgs(s, st)
    else UnqualifiedName(s, st)
  }

  function TemplateArgs(s: CString, st: State): (r: Result)
    requires st.n <= |s|
    ensures Frugal(s, st, r, 3, 2)
    ensures Peek(s, st.n) == 'I' ==> st.n < r.st.n
    decreases |s| - st.n, 0
  {
    if Peek(s, st.n) !in "IJ" then Result(st, NULL)
    else if Peek(s, st.n + 1) == 'E' then MakeComp(Advance(st, 2), TemplateArgList, NULL, NULL)
    else Arguments(s, Advance(st, 1), NULL, NULL)
  }

  /** The rest of a list of template arguments of which the components from `first` to `last` are
      made. */
  function Arguments(s: CString, st: State, first: int, last: int): (r: Result)
    requires st.n <= |s| && NULL <= first
    ensures Frugal(s, st, r, 2, 1)
    decreases |s| - st.n, 5
  {
    hide TemplateArg;
    var arg := TemplateArg(s, st);
    if arg.dc < 0 then arg
    else
      var cell := MakeComp(arg.st, TemplateArgList, arg.dc, NULL);
      var st1 := if first < 0 then cell.st else SetRight(cell.st, last, cell.dc);
      var first1 := if first < 0 then cell.dc else first;
      if Peek(s, st1.n) == 'E' then Result(Advance(st1, 1), first1) else Arguments(s, st1, first1, cell.dc)
  }

  function TemplateArg(s: CString, st: State): (r: Result)
    requires st.n <= |s|
    ensures Frugal(s, st, r, 1, 0) && (r.dc >= 0 ==> st.n < r.st.n)
    decreases |s| - st.n, 4
  {
    if Peek(s, st.n) in "IJ" then TemplateArgs(s, st)
    else if Peek(s, st.n) in "XL" then Result(st, NULL)
    else Type(s, st)
  }

  // ---- Whole names ----

  /** Whether a function of this name has its return type before its parameters: if it is a template,
      whatever qualifies `this`.  The fuel is the number of links that are followed at most. */
  function HasReturnType(comps: seq<Cell>, i: int, fuel: nat): bool
    decreases fuel
  {
    && fuel > 0 && 0 <= i < |comps| && comps[i].Link?
    && (comps[i].tag == TemplateId
        || (comps[i].tag.Mod? && IsThisKind(comps[i].tag.kind) && HasReturnType(comps, comps[i].left, fuel - 1)))
  }

  /** A name, and the type of the function that it is unless the name ends here. */
  function Encoding(s: CString, st: State): (r: Result)
    requires st.n <= |s|
    ensures Frugal(s, st, r, 0, 0)
  {
    hide NameOf, BareFunction, HasReturnType;
    if Peek(s, st.n) == 'G' || Peek(s, st.n) == 'T' then Result(st, NULL)
    else
      var name := NameOf(s, st);
      if name.dc < 0 || Peek(s, name.st.n) == '\0' || Peek(s, name.st.n) == 'E' then name
      else
        var fn := BareFunction(s, name.st, HasReturnType(name.st.comps, name.dc, 2 * |s|));
        MakeComp(fn.st, TypedName, name.dc, fn.dc)
  }

  /** A whole name begins with two signs. */
  function MangledName(s: CString, st: State): (r: Result)
    requires st.n <= |s|
    ensures Frugal(s, st, r, 0, 0)
  {
    if Peek(s, st.n) != '_' then Result(st, NULL)
    else if Peek(s, st.n + 1) != 'Z' then Result(Advance(st, 1), NULL)
    else Encoding(s, Advance(st, 2))
  }
}
