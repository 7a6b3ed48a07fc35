/** Encoded attribute values, and reading them back. */
module FormEncoding {
  import opened Bytes
  import opened Input
  import opened Leb128
  import opened FormValue

  function CodeOf(form: Form): (code: nat)
    requires !form.Unknown?
    ensures FormOf(code) == form && code < 0x80
  {
    match form
    case Addr => 0x01
    case Block2 => 0x03
    case Block4 => 0x04
    case Data2 => 0x05
    case Data4 => 0x06
    case Data8 => 0x07
    case String => 0x08
    case Block => 0x09
    case Block1 => 0x0a
    case Data1 => 0x0b
    case Flag => 0x0c
    case Sdata => 0x0d
    case Strp => 0x0e
    case Udata => 0x0f
    case RefAddr => 0x10
    case Ref1 => 0x11
    case Ref2 => 0x12
    case Ref4 => 0x13
    case Ref8 => 0x14
    case RefUdata => 0x15
    case Indirect => 0x16
    case SecOffset => 0x17
    case Exprloc => 0x18
    case FlagPresent => 0x19
    case RefSig8 => 0x20
  }

  /** A value together with the form it is written in. */
  datatype Datum =
    | Number(form: Form, n: nat)
    | SignedNumber(form: Form, i: int)
    | Bytes(form: Form, content: seq<Byte>)
    | Chars(form: Form, s: seq<Byte>)
    | Present(form: Form)
    | Through(form: Form, inner: Datum)

  /** How many bytes a number takes that is written in a fixed size (sections 7.5.4 and 7.4 of DWARF 4):
      addresses as the unit says, offsets into other sections by the format, references into the section
      as addresses in version 2 and as offsets later. */
  function Width(form: Form, env: Env): nat {
    if form == Addr || (form == RefAddr && env.version == 2) then env.addrSize
    else if form in {Strp, SecOffset, RefAddr} then if env.format == 64 then 8 else 4
    else if form in {Data8, Ref8, RefSig8} then 8
    else if form in {Data4, Ref4} then 4
    else if form in {Data2, Ref2} then 2
    else 1
  }

  predicate IsFixed(form: Form) {
    form in {Addr, RefAddr, Strp, SecOffset, Data1, Data2, Data4, Data8, Ref1, Ref2, Ref4, Ref8, RefSig8, Flag}
  }

  /** How many bytes the length of a block takes; 0 for a length in LEB128. */
  function LengthWidth(form: Form): nat {
    if form == Block1 then 1 else if form == Block2 then 2 else if form == Block4 then 4 else 0
  }

  /** The form is one for such a value, and the reader takes up its bytes and no others: offsets of the
      32-bit format, lengths below 2^32, strings of at most two characters, and any number in LEB128. */
  predicate Fits(d: Datum, env: Env) {
    match d
    case Number(form, n) =>
      || form in {Udata, RefUdata}
      || (IsFixed(form) && n < Pow256(Width(form, env)) && (form in {Strp, SecOffset} ==> env.format == 32))
    case SignedNumber(form, _) => form == Sdata
    case Bytes(form, content) =>
      form in {Block, Block1, Block2, Block4, Exprloc}
      && |content| < if LengthWidth(form) == 0 then WORD32 else Pow256(LengthWidth(form))
    case Chars(form, s) => form == String && 0 !in s && |s| <= 2
    case Present(form) => form == FlagPresent
    case Through(form, inner) => form == Indirect && !inner.form.Unknown? && Fits(inner, env)
  }

  /** The bytes of a value, as section 7.5.4 of DWARF 4 says. */
  function Encode(d: Datum, env: Env, bigEndian: bool): seq<Byte>
    requires Fits(d, env)
  {
    match d
    case Number(form, n) =>
      if form in {Udata, RefUdata} then EncodeUleb(n) else EncodeFixed(n, Width(form, env), bigEndian)
    case SignedNumber(_, i) => EncodeSleb(i)
    case Bytes(form, content) =>
      var length := if LengthWidth(form) == 0 then EncodeUleb(|content|)
                    else EncodeFixed(|content|, LengthWidth(form), bigEndian);
      length + content
    case Chars(_, s) => s + [0]
    case Present(_) => []
    case Through(_, inner) => EncodeUleb(CodeOf(inner.form)) + Encode(inner, env, bigEndian)
  }

  /** The reader's table of layouts says the same. */
  lemma {:induction false} LayoutFits(d: Datum, env: Env, bigEndian: bool)
    requires Fits(d, env)
    ensures
      var layout, bs := LayoutOf(d.form, env), Encode(d, env, bigEndian);
      match d
      case Number(form, n) =>
        if form in {Udata, RefUdata} then layout == LebNumber && bs == EncodeUleb(n)
        else layout == Plain(Width(form, env)) && n < Pow256(Width(form, env))
             && bs == EncodeFixed(n, Width(form, env), bigEndian)
      case SignedNumber(_, i) => layout == LebNumber && bs == EncodeSleb(i) && d.form == Sdata
      case Bytes(form, content) =>
        if LengthWidth(form) == 0 then layout == LebSized && bs == EncodeUleb(|content|) + content && |content| < WORD32
        else layout == Sized(LengthWidth(form)) && |content| < Pow256(LengthWidth(form))
             && bs == EncodeFixed(|content|, LengthWidth(form), bigEndian) + content
      case Chars(_, s) => layout == ZeroTerminated && bs == s + [0] && 0 !in s && |s| < STRING_MAX && d.form == String
      case Present(_) => layout == Absent && bs == []
      case Through(_, inner) =>
        && layout == Redirect && !inner.form.Unknown? && Fits(inner, env)
        && bs == EncodeUleb(CodeOf(inner.form)) + Encode(inner, env, bigEndian)
  {
    hide EncodeUleb, EncodeSleb, EncodeFixed, Pow256;
  }

  function FinalForm(d: Datum): Form {
    if d.Through? then FinalForm(d.inner) else d.form
  }

  /** The value that is meant. */
  function ValueOf(d: Datum): Value {
    match d
    case Number(_, n) => Unsigned(n)
    case SignedNumber(_, i) => Signed(i)
    case Bytes(_, content) => Unsigned(|content|)
    case Chars(_, s) => Text(s)
    case Present(_) => Unsigned(1)
    case Through(_, inner) => ValueOf(inner)
  }

  /** The value that is read: of a number in LEB128, what its bytes alone are read as. */
  function ReadOf(d: Datum): Value {
    match d
    case Number(form, n) => Unsigned(if form.Udata? || form.RefUdata? then Uleb(EncodeUleb(n), 0).value else n)
    case SignedNumber(_, i) => Signed(SignExtend(Uleb(EncodeSleb(i), 0)))
    case Through(_, inner) => ReadOf(inner)
    case _ => ValueOf(d)
  }

  /** The numbers in LEB128 for which the two are the same: below 2^32, signed ones from -2^27. */
  predicate Representable(d: Datum) {
    match d
    case Number(form, n) => (form.Udata? || form.RefUdata?) ==> n < WORD32
    case SignedNumber(_, i) => -0x800_0000 <= i < WORD32
    case Through(_, inner) => Representable(inner)
    case _ => true
  }

  /** Such a value is read as what is meant. */
  lemma {:induction false} ReadRight(d: Datum)
    requires Representable(d)
    ensures ReadOf(d) == ValueOf(d)
  {
    hide Uleb, EncodeUleb, EncodeSleb, SignExtend;
    match d
    case Number(_, n) =>
      if n < WORD32 {
        UlebRoundTrip([], n, []);
        assert [] + EncodeUleb(n) + [] == EncodeUleb(n);
      }
    case SignedNumber(_, i) =>
      SlebRoundTrip([], i, []);
      assert [] + EncodeSleb(i) + [] == EncodeSleb(i);
    case Through(_, inner) => ReadRight(inner);
    case _ =>
  }

  lemma {:induction false} StringHere(pre: seq<Byte>, s: seq<Byte>, rest: seq<Byte>, max: nat)
    requires 0 !in s && max > 0
    ensures
      var data := pre + s + [0] + rest;
      && StringLength(data, |pre|, max) == Min(|s| + 1, max)
      && (|s| < max ==> data[|pre|..|pre| + |s| + 1] == s + [0])
    decreases |s|
  {
    var data := pre + s + [0] + rest;
    if s == [] {
      assert data[|pre|] == 0;
    } else {
      assert data[|pre|] == s[0];
      assert (pre + [s[0]]) + s[1..] + [0] + rest == data;
      if max > 1 {
        StringHere(pre + [s[0]], s[1..], rest, max - 1);
      }
    }
    if |s| < max {
      assert data[|pre|..|pre| + |s| + 1] == s + [0];
    }
  }

  lemma {:induction false} CStringHere(s: seq<Byte>)
    requires 0 !in s
    ensures CString(s + [0]) == s
  {
    if s != [] {
      assert (s + [0])[1..] == s[1..] + [0];
      CStringHere(s[1..]);
    }
  }

  /** Reading at the datum gives the value that its bytes are read as, and stops behind the last one. */
  ghost predicate ReadsBack(pre: seq<Byte>, d: Datum, env: Env, bigEndian: bool, rest: seq<Byte>)
    requires Fits(d, env)
  {
    var bs := Encode(d, env, bigEndian);
    var data := pre + bs + rest;
    var r := Decode(d.form, env, bigEndian, data, |pre|);
    && r.ok && r.form == FinalForm(d) && r.value == ReadOf(d) && r.end == |pre| + |bs|
    && LengthComplete(d.form, env, data, |pre|)
  }

  lemma {:induction false} BlockReadsBack(pre: seq<Byte>, d: Datum, env: Env, bigEndian: bool, rest: seq<Byte>)
    requires Fits(d, env) && d.Bytes?
    ensures ReadsBack(pre, d, env, bigEndian, rest)
  {
    hide EncodeUleb, EncodeFixed, Uleb, Fixed, LayoutOf, Encode, Fits;
    LayoutFits(d, env, bigEndian);
    var bs, length, w := Encode(d, env, bigEndian), |d.content|, LengthWidth(d.form);
    if w > 0 {
      assert pre + bs + rest == pre + EncodeFixed(length, w, bigEndian) + (d.content + rest);
      FixedHere(pre, length, w, bigEndian, d.content + rest);
    } else {
      assert pre + bs + rest == pre + EncodeUleb(length) + (d.content + rest);
      UlebRoundTrip(pre, length, d.content + rest);
    }
  }

  lemma {:induction false} TextReadsBack(pre: seq<Byte>, d: Datum, env: Env, bigEndian: bool, rest: seq<Byte>)
    requires Fits(d, env) && d.Chars?
    ensures ReadsBack(pre, d, env, bigEndian, rest)
  {
    hide CString, StringLength, LayoutOf, Encode, Fits;
    LayoutFits(d, env, bigEndian);
    assert pre + Encode(d, env, bigEndian) + rest == pre + d.s + [0] + rest;
    StringHere(pre, d.s, rest, STRING_MAX);
    CStringHere(d.s);
  }

  lemma {:induction false} NumberReadsBack(pre: seq<Byte>, d: Datum, env: Env, bigEndian: bool, rest: seq<Byte>)
    requires Fits(d, env) && d.Number? && d.form !in {Udata, RefUdata}
    ensures ReadsBack(pre, d, env, bigEndian, rest)
  {
    hide EncodeFixed, Fixed, FixedAt, LayoutOf, Encode, Fits;
    LayoutFits(d, env, bigEndian);
    FixedHere(pre, d.n, Width(d.form, env), bigEndian, rest);
  }

  lemma EndIsNoMatter(r: Leb, end: nat)
    ensures SignExtend(r.(end := end)) == SignExtend(r)
  {
  }

  lemma {:induction false} LebReadsBack(pre: seq<Byte>, d: Datum, env: Env, bigEndian: bool, rest: seq<Byte>)
    requires Fits(d, env) && (d.SignedNumber? || (d.Number? && d.form in {Udata, RefUdata}))
    ensures ReadsBack(pre, d, env, bigEndian, rest)
  {
    hide EncodeUleb, EncodeSleb, Uleb, SignExtend, LayoutOf, Encode, Fits;
    LayoutFits(d, env, bigEndian);
    if d.SignedNumber? {
      UlebAnywhere(pre, EncodeSleb(d.i), rest);
      assert SignExtend(Uleb(pre + EncodeSleb(d.i) + rest, |pre|)) == SignExtend(Uleb(EncodeSleb(d.i), 0)) by {
        EndIsNoMatter(Uleb(EncodeSleb(d.i), 0), |pre| + |EncodeSleb(d.i)|);
      }
    } else {
      UlebAnywhere(pre, EncodeUleb(d.n), rest);
    }
  }

  lemma {:induction false} IndirectReadsBack(pre: seq<Byte>, d: Datum, env: Env, bigEndian: bool, rest: seq<Byte>)
    requires Fits(d, env) && d.Through? && Fits(d.inner, env) && !d.inner.form.Unknown?
    requires ReadsBack(pre + EncodeUleb(CodeOf(d.inner.form)), d.inner, env, bigEndian, rest)
    ensures ReadsBack(pre, d, env, bigEndian, rest)
  {
    hide EncodeUleb, Uleb, LayoutOf, Fits, Decode, Encode, LengthComplete, FinalForm, ReadOf, CodeOf, FormOf;
    IndirectParts(d, env, bigEndian);
    var code, inner := EncodeUleb(CodeOf(d.inner.form)), Encode(d.inner, env, bigEndian);
    assert pre + (code + inner) + rest == pre + code + (inner + rest) == (pre + code) + inner + rest;
    UlebRoundTrip(pre, CodeOf(d.inner.form), inner + rest);
    DecodeRedirect(d.form, env, bigEndian, pre + (code + inner) + rest, |pre|);
  }

  lemma IndirectParts(d: Datum, env: Env, bigEndian: bool)
    requires Fits(d, env) && d.Through?
    ensures !d.inner.form.Unknown? && Fits(d.inner, env) && LayoutOf(d.form, env) == Redirect
    ensures FormOf(CodeOf(d.inner.form)) == d.inner.form && CodeOf(d.inner.form) < WORD32
    ensures Encode(d, env, bigEndian) == EncodeUleb(CodeOf(d.inner.form)) + Encode(d.inner, env, bigEndian)
    ensures FinalForm(d) == FinalForm(d.inner) && ReadOf(d) == ReadOf(d.inner)
  {
    hide FormOf, CodeOf, EncodeUleb, LayoutOf, Fits, Encode;
    LayoutFits(d, env, bigEndian);
  }

  lemma DecodeRedirect(form: Form, env: Env, bigEndian: bool, data: seq<Byte>, pos: nat)
    requires pos < |data| && LayoutOf(form, env) == Redirect
    ensures
      var r := Uleb(data, pos);
      && Decode(form, env, bigEndian, data, pos) == Decode(FormOf(r.value), env, bigEndian, data, r.end)
      && LengthComplete(form, env, data, pos) == LengthComplete(FormOf(r.value), env, data, r.end)
  {
    hide LayoutOf, FormOf, Uleb;
  }

  lemma PresentReadsBack(pre: seq<Byte>, d: Datum, env: Env, bigEndian: bool, rest: seq<Byte>)
    requires Fits(d, env) && d.Present?
    ensures ReadsBack(pre, d, env, bigEndian, rest)
  {
    hide LayoutOf, Fits, Encode;
    LayoutFits(d, env, bigEndian);
  }

  lemma InnerFits(d: Datum, env: Env)
    requires Fits(d, env) && d.Through?
    ensures !d.inner.form.Unknown? && Fits(d.inner, env)
  {
  }

  /** Whatever stands around it, an encoded value is read back, to its last byte. */
  lemma {:induction false} ValueRoundTrip(pre: seq<Byte>, d: Datum, env: Env, bigEndian: bool, rest: seq<Byte>)
    requires Fits(d, env)
    ensures ReadsBack(pre, d, env, bigEndian, rest)
    decreases d
  {
    hide *;
    match d
    case Number(form, _) =>
      if form in {Udata, RefUdata} {
        LebReadsBack(pre, d, env, bigEndian, rest);
      } else {
        NumberReadsBack(pre, d, env, bigEndian, rest);
      }
    case SignedNumber(_, _) => LebReadsBack(pre, d, env, bigEndian, rest);
    case Bytes(_, _) => BlockReadsBack(pre, d, env, bigEndian, rest);
    case Chars(_, _) => TextReadsBack(pre, d, env, bigEndian, rest);
    case Present(_) => PresentReadsBack(pre, d, env, bigEndian, rest);
    case Through(_, inner) =>
      InnerFits(d, env);
      ValueRoundTrip(pre + EncodeUleb(CodeOf(inner.form)), inner, env, bigEndian, rest);
      IndirectReadsBack(pre, d, env, bigEndian, rest);
  }

  /** The reader that only moves past a value comes to its last byte as well, on a stream that a seek to
      the end takes there, and on any other if something follows. */
  lemma {:induction false} ValueSkipped(
      pre: seq<Byte>, d: Datum, env: Env, bigEndian: bool, rest: seq<Byte>, policy: SeekPolicy)
    requires Fits(d, env) && (policy.Clamp? || rest != [])
    ensures
      var bs := Encode(d, env, bigEndian);
      Skipped(d.form, env, bigEndian, policy, pre + bs + rest, |pre|) == (true, |pre| + |bs|)
  {
    hide Encode, Decode, Skipped, Fits, LengthComplete;
    ValueRoundTrip(pre, d, env, bigEndian, rest);
    SkipAgrees(d.form, env, bigEndian, policy, pre + Encode(d, env, bigEndian) + rest, |pre|);
  }

  /** In the 64-bit format an offset takes eight bytes, of which the reader takes four. */
  lemma {:induction false} LongOffsetCut(form: Form, env: Env, bigEndian: bool, data: seq<Byte>, pos: nat)
    requires form in {Strp, SecOffset} && pos + 8 <= |data|
    ensures Decode(form, env, bigEndian, data, pos).end == pos + 4
    ensures pos + Width(form, env) == Decode(form, env, bigEndian, data, pos).end <==> env.format == 32
  {
    hide FixedAt;
  }

  /** A string is read to its end if and only if it has at most two characters: the size passed
      for the buffer is that of an integer constant. */
  lemma {:induction false} StringExact(pre: seq<Byte>, s: seq<Byte>, env: Env, bigEndian: bool, rest: seq<Byte>)
    requires 0 !in s
    ensures
      var r := Decode(String, env, bigEndian, pre + s + [0] + rest, |pre|);
      && r.ok && (r.end == |pre| + |s| + 1 <==> |s| <= 2)
      && (|s| <= 2 ==> r.value == Text(s))
  {
    StringHere(pre, s, rest, STRING_MAX);
    if |s| <= 2 {
      CStringHere(s);
    }
  }

  lemma {:induction false} CStringWhole(s: seq<Byte>)
    requires 0 !in s
    ensures CString(s) == s
  {
    if s != [] {
      CStringWhole(s[1..]);
    }
  }

  /** "abcd" is read as "abc", and the next value is read from its last character on. */
  lemma LongString(env: Env, bigEndian: bool)
    ensures
      Decode(String, env, bigEndian, [0x61, 0x62, 0x63, 0x64, 0x00], 0) ==
      Decoded(true, String, Text([0x61, 0x62, 0x63]), 3, 3)
  {
    var data: seq<Byte> := [0x61, 0x62, 0x63, 0x64, 0x00];
    assert StringLength(data, 1, 2) == 1 + StringLength(data, 2, 1) == 2;
    assert data[0..3] == [0x61, 0x62, 0x63];
    CStringWhole([0x61, 0x62, 0x63]);
  }
}
