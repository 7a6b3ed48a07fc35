/** Attribute values (section 7.5.4 of DWARF 4): the reader that keeps the value and the
    reader that only moves past it. */
module FormValue {
  import opened Bytes
  import opened Input
  import opened Leb128

  datatype Form =
    | Addr | Block2 | Block4 | Data2 | Data4 | Data8 | String | Block | Block1 | Data1 | Flag | Sdata | Strp | Udata
    | RefAddr | Ref1 | Ref2 | Ref4 | Ref8 | RefUdata | Indirect | SecOffset | Exprloc | FlagPresent | RefSig8
    | Unknown(code: nat)

  function FormOf(code: nat): Form {
    match code
    case 0x01 => Addr
    case 0x03 => Block2
    case 0x04 => Block4
    case 0x05 => Data2
    case 0x06 => Data4
    case 0x07 => Data8
    case 0x08 => String
    case 0x09 => Block
    case 0x0a => Block1
    case 0x0b => Data1
    case 0x0c => Flag
    case 0x0d => Sdata
    case 0x0e => Strp
    case 0x0f => Udata
    case 0x10 => RefAddr
    case 0x11 => Ref1
    case 0x12 => Ref2
    case 0x13 => Ref4
    case 0x14 => Ref8
    case 0x15 => RefUdata
    case 0x16 => Indirect
    case 0x17 => SecOffset
    case 0x18 => Exprloc
    case 0x19 => FlagPresent
    case 0x20 => RefSig8
    case _ => Unknown(code)
  }

  /** What the compile unit says about the encoding. */
  datatype RawEnv = Env(addrSize: nat, format: nat, version: nat)
  type Env = e: RawEnv | e.addrSize in {4, 8} && e.format in {32, 64} && 2 <= e.version <= 4
    witness RawEnv.Env(4, 32, 2)

  /** How a value lies in the stream. */
  datatype Layout =
    | Plain(width: nat)      // a number of that many bytes
    | Sized(width: nat)      // a length of that many bytes, then so many bytes
    | LebSized               // a ULEB128 length, then so many bytes
    | LebNumber
    | ZeroTerminated
    | Absent
    | Redirect               // a ULEB128 form code, then a value of that form
    | Illegal

  function LayoutOf(form: Form, env: Env): Layout {
    match form
    case Data1 | Flag | Ref1 => Plain(1)
    case Data2 | Ref2 => Plain(2)
    case Data4 | Strp | Ref4 | SecOffset => Plain(4)
    case Data8 | Ref8 | RefSig8 => Plain(8)
    case Addr => Plain(env.addrSize)
    case RefAddr => Plain(if env.version > 2 then env.format / 8 else env.addrSize)
    case Block1 => Sized(1)
    case Block2 => Sized(2)
    case Block4 => Sized(4)
    case Block | Exprloc => LebSized
    case Sdata | Udata | RefUdata => LebNumber
    case String => ZeroTerminated
    case FlagPresent => Absent
    case Indirect => Redirect
    case Unknown(_) => Illegal
  }

  datatype Value = Unsigned(u: nat) | Signed(i: int) | Text(s: seq<Byte>)

  /** The buffer size passed for a string is `sizeof(8192) - 1`: the size of an `int`, less one. */
  const STRING_MAX := 3

  /** How many bytes a string read takes: up to the NUL, the end of the stream or `max`. */
  function StringLength(data: seq<Byte>, pos: nat, max: nat): (n: nat)
    requires pos <= |data| && max > 0
    ensures n <= |data| - pos && n <= max
    decreases max
  {
    if pos == |data| then 0
    else if data[pos] == 0 || max == 1 then 1
    else 1 + StringLength(data, pos + 1, max - 1)
  }

  /** The characters before the first NUL. */
  function CString(bs: seq<Byte>): seq<Byte> {
    if bs == [] || bs[0] == 0 then [] else [bs[0]] + CString(bs[1..])
  }

  /** A value read: the form it turned out to have, where the stream is left, and `mid`, the
      position from which the skipping reader has only to jump to `end`. */
  datatype Decoded = Decoded(ok: bool, form: Form, value: Value, mid: nat, end: nat)

  /** What the keeping reader does, on any bytes. */
  function Decode(form: Form, env: Env, bigEndian: bool, data: seq<Byte>, pos: nat): (d: Decoded)
    requires pos <= |data|
    ensures pos <= d.mid <= d.end <= |data|
    decreases |data| - pos
  {
    match LayoutOf(form, env)
    case Plain(w) => Decoded(true, form, Unsigned(FixedAt(data, pos, w, bigEndian, 0)), pos, Min(pos + w, |data|))
    case Sized(w) => DecodeBlock(form, data, FixedAt(data, pos, w, bigEndian, 0), Min(pos + w, |data|))
    case LebSized => var r := Uleb(data, pos); DecodeBlock(form, data, r.value, r.end)
    case LebNumber =>
      var r := Uleb(data, pos);
      Decoded(true, form, if form.Sdata? then Signed(SignExtend(r)) else Unsigned(r.value), r.end, r.end)
    case ZeroTerminated =>
      var end := pos + StringLength(data, pos, STRING_MAX);
      Decoded(true, form, Text(CString(data[pos..end])), end, end)
    case Absent => Decoded(true, form, Unsigned(1), pos, pos)
    case Redirect =>
      var r := Uleb(data, pos);
      if pos == |data| then Decoded(false, FormOf(r.value), Unsigned(0), pos, pos)
      else Decode(FormOf(r.value), env, bigEndian, data, r.end)
    case Illegal => Decoded(false, form, Unsigned(0), pos, pos)
  }

  function DecodeBlock(form: Form, data: seq<Byte>, length: nat, mid: nat): (d: Decoded)
    requires mid <= |data|
    ensures d.mid == mid <= d.end <= |data|
  {
    if mid + length <= |data| then Decoded(true, form, Unsigned(length), mid, mid + length)
    else Decoded(false, form, Unsigned(length), mid, mid)
  }

  /** The skipping reader leaves the length of a block unset when it is cut short. */
  predicate LengthComplete(form: Form, env: Env, data: seq<Byte>, pos: nat)
    requires pos <= |data|
    decreases |data| - pos
  {
    match LayoutOf(form, env)
    case Sized(w) => pos + w <= |data|
    case Redirect => pos < |data| ==> var r := Uleb(data, pos); LengthComplete(FormOf(r.value), env, data, r.end)
    case _ => true
  }

  /** What the skipping reader does: whether it succeeds, and where it leaves the stream. */
  function Skipped(form: Form, env: Env, bigEndian: bool, policy: SeekPolicy, data: seq<Byte>,
      pos: nat): (r: (bool, nat))
    requires pos <= |data|
    ensures r.1 <= |data|
    decreases |data| - pos
  {
    match LayoutOf(form, env)
    case Plain(w) => (true, SeekTo(policy, |data|, pos, pos + w))
    case Sized(w) => SkippedBlock(policy, data, FixedAt(data, pos, w, bigEndian, 0), Min(pos + w, |data|))
    case LebSized => var r := Uleb(data, pos); SkippedBlock(policy, data, r.value, r.end)
    case LebNumber => (true, Uleb(data, pos).end)
    case ZeroTerminated => (true, pos + StringLength(data, pos, STRING_MAX))
    case Absent => (true, pos)
    case Redirect =>
      var r := Uleb(data, pos);
      if pos == |data| then (false, pos) else Skipped(FormOf(r.value), env, bigEndian, policy, data, r.end)
    case Illegal => (false, pos)
  }

  function SkippedBlock(policy: SeekPolicy, data: seq<Byte>, length: nat, mid: nat): (bool, nat)
    requires mid <= |data|
  {
    if mid + length <= |data| then (true, SeekTo(policy, |data|, mid, mid + length)) else (false, mid)
  }

  /** The same for a value that is no indirection. */
  lemma {:induction false} SkipAgreesAtOnce(form: Form, env: Env, bigEndian: bool, policy: SeekPolicy,
      data: seq<Byte>, pos: nat)
    requires pos <= |data| && LayoutOf(form, env) != Redirect
    ensures
      var d := Decode(form, env, bigEndian, data, pos);
      (Skipped(form, env, bigEndian, policy, data, pos) == (d.ok, d.end)) ==
      (policy.Clamp? || !d.ok || d.mid == d.end || d.end < |data|)
  {
    hide FixedAt, Uleb, StringLength, CString, SignExtend, FormOf, LayoutOf, DecodeBlock, SkippedBlock;
    match LayoutOf(form, env)
    case Sized(w) => SkipBlockAgrees(form, policy, data, FixedAt(data, pos, w, bigEndian, 0), Min(pos + w, |data|));
    case LebSized => SkipBlockAgrees(form, policy, data, Uleb(data, pos).value, Uleb(data, pos).end);
    case _ =>
  }

  lemma SkipBlockAgrees(form: Form, policy: SeekPolicy, data: seq<Byte>, length: nat, mid: nat)
    requires mid <= |data|
    ensures
      var d := DecodeBlock(form, data, length, mid);
      (SkippedBlock(policy, data, length, mid) == (d.ok, d.end)) ==
      (policy.Clamp? || !d.ok || d.mid == d.end || d.end < |data|)
  {
  }

  /** The two readers succeed together and stop at the same place: always on the cached stream;
      on the others, unless the value ends at the very end of the stream after a jump. */
  lemma {:induction false} SkipAgrees(form: Form, env: Env, bigEndian: bool, policy: SeekPolicy, data: seq<Byte>,
      pos: nat)
    requires pos <= |data|
    ensures
      var d := Decode(form, env, bigEndian, data, pos);
      (Skipped(form, env, bigEndian, policy, data, pos) == (d.ok, d.end)) ==
      (policy.Clamp? || !d.ok || d.mid == d.end || d.end < |data|)
    decreases |data| - pos
  {
    hide FixedAt, Uleb, StringLength, CString, SignExtend, FormOf, LayoutOf;
    if LayoutOf(form, env) != Redirect {
      SkipAgreesAtOnce(form, env, bigEndian, policy, data, pos);
    } else if pos < |data| {
      var r := Uleb(data, pos);
      SkipAgrees(FormOf(r.value), env, bigEndian, policy, data, r.end);
    }
  }

  lemma AtEnd(data: seq<Byte>)
    ensures FormOf(Uleb(data, |data|).value) == Unknown(0)
  {
  }

  /** What one time through the switch of the keeping reader does. */
  datatype Read = Read(ok: bool, indirect: bool, isBlock: bool, storage: Value, form: Form)

  predicate ParsesOnce(form: Form, env: Env, bigEndian: bool, data: seq<Byte>, pos: nat, r: Read, end: nat)
    requires pos <= |data|
  {
    match LayoutOf(form, env)
    case Plain(w) =>
      r == Read(true, false, false, Unsigned(FixedAt(data, pos, w, bigEndian, 0)), form) && end == Min(pos + w, |data|)
    case Sized(w) =>
      r == Read(true, false, true, Unsigned(FixedAt(data, pos, w, bigEndian, 0)), form) && end == Min(pos + w, |data|)
    case LebSized => r == Read(true, false, true, Unsigned(Uleb(data, pos).value), form) && end == Uleb(data, pos).end
    case LebNumber =>
      var u := Uleb(data, pos);
      end == u.end &&
      r == Read(true, false, false, if form.Sdata? then Signed(SignExtend(u)) else Unsigned(u.value), form)
    case ZeroTerminated =>
      && end == pos + StringLength(data, pos, STRING_MAX)
      && r == Read(true, false, false, Text(CString(data[pos..end])), form)
    case Absent => r == Read(true, false, false, Unsigned(1), form) && end == pos
    case Redirect =>
      && r == Read(true, true, false, Unsigned(0), FormOf(Uleb(data, pos).value)) && end == Uleb(data, pos).end
      && (pos == |data| ==> r.form == Unknown(0))
    case Illegal => r == Read(false, false, false, Unsigned(0), form) && end == pos
  }

  /** What is left to read after one time through the switch. */
  lemma {:induction false} ParseStep(form: Form, env: Env, bigEndian: bool, data: seq<Byte>, pos: nat, r: Read,
      end: nat)
    requires pos <= |data| && end <= |data| && ParsesOnce(form, env, bigEndian, data, pos, r, end)
    ensures
      var d := Decode(form, env, bigEndian, data, pos);
      && (r.indirect ==>
            && r.ok && r.storage == Unsigned(0) && d == Decode(r.form, env, bigEndian, data, end)
            && (pos < end || (pos == end && r.form.Unknown? && !form.Unknown?)))
      && (!r.indirect && r.ok && !r.isBlock ==> d == Decoded(true, r.form, r.storage, d.mid, end))
      && (!r.indirect && r.ok && r.isBlock ==> r.storage.Unsigned? && d == DecodeBlock(r.form, data, r.storage.u, end))
      && (!r.ok ==> !r.indirect && r.storage == Unsigned(0) && d == Decoded(false, r.form, Unsigned(0), end, end))
  {
    hide FixedAt, Uleb, StringLength, CString, SignExtend, FormOf, DecodeBlock, LayoutOf;
    UnknownIsIllegal(form, env);
    UnknownIsIllegal(r.form, env);
  }

  /** What one time through the switch of the skipping reader does. */
  datatype Pass = Pass(ok: bool, indirect: bool, isBlock: bool, uval: nat, form: Form)

  predicate SkipsOnce(form: Form, env: Env, bigEndian: bool, policy: SeekPolicy, data: seq<Byte>, pos: nat, r: Pass,
      end: nat)
    requires pos <= |data|
  {
    match LayoutOf(form, env)
    case Plain(w) => r.ok && !r.indirect && !r.isBlock && end == SeekTo(policy, |data|, pos, pos + w)
    case Sized(w) =>
      && r.ok && !r.indirect && r.isBlock && end == Min(pos + w, |data|)
      && (pos + w <= |data| ==> r.uval == FixedAt(data, pos, w, bigEndian, 0))
    case LebSized =>
      r.ok && !r.indirect && r.isBlock && r.uval == Uleb(data, pos).value && end == Uleb(data, pos).end
    case LebNumber => r.ok && !r.indirect && !r.isBlock && end == Uleb(data, pos).end
    case ZeroTerminated => r.ok && !r.indirect && !r.isBlock && end == pos + StringLength(data, pos, STRING_MAX)
    case Absent => r.ok && !r.indirect && !r.isBlock && end == pos
    case Redirect =>
      && r.ok && r.indirect && !r.isBlock && r.form == FormOf(Uleb(data, pos).value) && end == Uleb(data, pos).end
      && (pos == |data| ==> r.form == Unknown(0))
    case Illegal => !r.ok && !r.indirect && !r.isBlock && end == pos
  }

  /** What is left to skip after one time through the switch. */
  lemma {:induction false} SkipStep(
      form: Form, env: Env, bigEndian: bool, policy: SeekPolicy, data: seq<Byte>, pos: nat, r: Pass, end: nat)
    requires pos <= |data| && end <= |data| && SkipsOnce(form, env, bigEndian, policy, data, pos, r, end)
    ensures
      var complete, d := LengthComplete(form, env, data, pos), Skipped(form, env, bigEndian, policy, data, pos);
      && (r.indirect ==>
            && r.ok && complete == LengthComplete(r.form, env, data, end)
            && d == Skipped(r.form, env, bigEndian, policy, data, end)
            && (pos < end || (pos == end && r.form.Unknown? && !form.Unknown?)))
      && (complete && !r.indirect && r.ok && !r.isBlock ==> d == (true, end))
      && (complete && !r.indirect && r.ok && r.isBlock ==> d == SkippedBlock(policy, data, r.uval, end))
      && (!r.ok ==> !r.indirect && (complete ==> d == (false, end)))
  {
    hide FixedAt, Uleb, StringLength, FormOf, SkippedBlock, LayoutOf;
    UnknownIsIllegal(form, env);
    UnknownIsIllegal(r.form, env);
  }

  lemma UnknownIsIllegal(form: Form, env: Env)
    ensures form.Unknown? ==> LayoutOf(form, env) == Illegal
  {
  }

  class FormValue {
    var form: Form
    var storage: Value

    constructor (form: Form)
      ensures this.form == form && storage == Unsigned(0)
    {
      this.form, storage := form, Unsigned(0);
    }

    /** Reads the value, following DW_FORM_indirect to the form that is in the stream. */
    method Parse(env: Env, stream: Stream) returns (ok: bool)
      requires stream.Valid() && storage == Unsigned(0)
      modifies this, stream
      ensures stream.Valid()
      ensures
        var d := Decode(old(form), env, stream.bigEndian, stream.data, old(stream.position));
        ok == d.ok && stream.position == d.end && form == d.form && storage == d.value
    {
      hide Decode, ParsesOnce;
      ok := true;
      var indirect, isBlock := true, false;
      ghost var data, be := stream.data, stream.bigEndian;
      ghost var d := Decode(form, env, be, data, stream.position);
      while indirect && ok
        invariant stream.Valid()
        invariant indirect ==> ok && storage == Unsigned(0) && d == Decode(form, env, be, data, stream.position)
        invariant !indirect && ok && !isBlock ==> d == Decoded(true, form, storage, d.mid, stream.position)
        invariant !indirect && ok && isBlock ==> storage.Unsigned?
        invariant !indirect && ok && isBlock ==> d == DecodeBlock(form, data, storage.u, stream.position)
        invariant !ok ==> !indirect && d == Decoded(false, form, Unsigned(0), stream.position, stream.position)
        invariant !ok ==> storage == Unsigned(0)
        decreases indirect && ok, |data| - stream.position, !form.Unknown?
      {
        ghost var form1, pos1 := form, stream.position;
        ok, indirect, isBlock := ParseOnce(env, stream);
        ParseStep(form1, env, be, data, pos1, Read(ok, indirect, isBlock, storage, form), stream.position);
      }
      if isBlock && ok {
        if stream.position + storage.u <= |stream.data| {
          SkipBytes(stream, storage.u);
        } else {
          ok := false;
        }
      }
    }

    /** One time through the switch. */
    method ParseOnce(env: Env, stream: Stream) returns (ok: bool, indirect: bool, isBlock: bool)
      requires stream.Valid() && storage == Unsigned(0)
      modifies this, stream
      ensures stream.Valid()
      ensures
        ParsesOnce(old(form), env, stream.bigEndian, stream.data, old(stream.position),
                   Read(ok, indirect, isBlock, storage, form), stream.position)
    {
      hide FixedAt, Uleb, StringLength, CString, SignExtend, FormOf;
      ok, indirect, isBlock := true, false, false;
      var val, count := 0, 0;
      match form {
        case Addr =>
          val, count := stream.ReadFixed(if env.addrSize == 4 then 4 else 8, 0);
          storage := Unsigned(val);
        case Data1 | Flag | Ref1 =>
          val, count := stream.ReadFixed(1, 0);
          storage := Unsigned(val);
        case Data2 | Ref2 =>
          val, count := stream.ReadFixed(2, 0);
          storage := Unsigned(val);
        case Data4 | Strp | Ref4 | SecOffset =>
          val, count := stream.ReadFixed(4, 0);
          storage := Unsigned(val);
        case Data8 | Ref8 | RefSig8 =>
          val, count := stream.ReadFixed(8, 0);
          storage := Unsigned(val);
        case Block1 =>
          val, count := stream.ReadFixed(1, 0);
          storage, isBlock := Unsigned(val), true;
        case Block2 =>
          val, count := stream.ReadFixed(2, 0);
          storage, isBlock := Unsigned(val), true;
        case Block4 =>
          val, count := stream.ReadFixed(4, 0);
          storage, isBlock := Unsigned(val), true;
        case Exprloc | Block =>
          val, count := ReadUleb128(stream);
          storage, isBlock := Unsigned(val), true;
        case String =>
          var s := ReadSz(stream, STRING_MAX);
          storage := Text(CString(s));
        case Sdata =>
          var sval;
          sval, count := ReadSleb128(stream);
          storage := Signed(sval);
        case Udata | RefUdata =>
          val, count := ReadUleb128(stream);
          storage := Unsigned(val);
        case RefAddr =>
          if env.version > 2 {
            val, count := stream.ReadFixed(if env.format == 32 then 4 else 8, 0);
          } else {
            val, count := stream.ReadFixed(if env.addrSize == 4 then 4 else 8, 0);
          }
          storage := Unsigned(val);
        case Indirect =>
          form := ReadForm(stream);
          indirect := true;
        case FlagPresent => storage := Unsigned(1);
        case Unknown(_) => ok := false;
      }
    }

    /** Moves past a value of the form without keeping it. */
    static method Skip(form0: Form, env: Env, stream: Stream) returns (ok: bool)
      requires stream.Valid()
      modifies stream
      ensures stream.Valid()
      ensures LengthComplete(form0, env, stream.data, old(stream.position)) ==>
        (ok, stream.position) == Skipped(form0, env, stream.bigEndian, stream.policy, stream.data, old(stream.position))
    {
      hide LengthComplete, Skipped, SkipsOnce;
      ok := true;
      var form, indirect, isBlock, uval := form0, true, false, 0;
      ghost var data, be, policy := stream.data, stream.bigEndian, stream.policy;
      ghost var complete := LengthComplete(form, env, data, stream.position);
      ghost var d := Skipped(form, env, be, policy, data, stream.position);
      while indirect && ok
        invariant stream.Valid()
        invariant indirect ==> ok && complete == LengthComplete(form, env, data, stream.position)
        invariant indirect ==> d == Skipped(form, env, be, policy, data, stream.position)
        invariant complete && !indirect && ok && !isBlock ==> d == (true, stream.position)
        invariant complete && !indirect && ok && isBlock ==> d == SkippedBlock(policy, data, uval, stream.position)
        invariant !ok ==> !indirect && (complete ==> d == (false, stream.position))
        decreases indirect && ok, |data| - stream.position, !form.Unknown?
      {
        ghost var form1, pos1 := form, stream.position;
        ok, indirect, isBlock, uval, form := SkipOnce(form, env, stream);
        SkipStep(form1, env, be, policy, data, pos1, Pass(ok, indirect, isBlock, uval, form), stream.position);
      }
      if isBlock && ok {
        if stream.position + uval <= |stream.data| {
          stream.Seek(stream.position + uval);
        } else {
          ok := false;
        }
      }
    }

    /** One time through the switch; `val` is not initialised, as in the original. */
    static method SkipOnce(form0: Form, env: Env, stream: Stream)
      returns (ok: bool, indirect: bool, isBlock: bool, uval: nat, form: Form)
      requires stream.Valid()
      modifies stream
      ensures stream.Valid()
      ensures
        SkipsOnce(form0, env, stream.bigEndian, stream.policy, stream.data, old(stream.position),
                  Pass(ok, indirect, isBlock, uval, form), stream.position)
    {
      hide Fixed, Uleb, StringLength, CString, SignExtend, FormOf;
      ok, indirect, isBlock, uval, form := true, false, false, 0, form0;
      var val: nat, count: nat := *, *;
      match form {
        case Addr => stream.Seek(stream.position + env.addrSize);
        case Data1 | Flag | Ref1 => stream.Seek(stream.position + 1);
        case Data2 | Ref2 => stream.Seek(stream.position + 2);
        case Data4 | Strp | Ref4 | SecOffset => stream.Seek(stream.position + 4);
        case Data8 | Ref8 | RefSig8 => stream.Seek(stream.position + 8);
        case Block1 =>
          val, count := stream.ReadFixed(1, val);
          uval, isBlock := val, true;
        case Block2 =>
          val, count := stream.ReadFixed(2, val);
          uval, isBlock := val, true;
        case Block4 =>
          val, count := stream.ReadFixed(4, val);
          uval, isBlock := val, true;
        case Exprloc | Block =>
          val, count := ReadUleb128(stream);
          uval, isBlock := val, true;
        case String =>
          var s := ReadSz(stream, STRING_MAX);
        case Sdata =>
          var sval;
          sval, count := ReadSleb128(stream);
        case Udata | RefUdata =>
          val, count := ReadUleb128(stream);
        case RefAddr =>
          if env.version > 2 {
            stream.Seek(stream.position + env.format / 8);
          } else {
            stream.Seek(stream.position + env.addrSize);
          }
        case Indirect =>
          form := ReadForm(stream);
          indirect := true;
        case FlagPresent =>
        case Unknown(_) => ok := false;
      }
    }
  }

  method ReadForm(stream: Stream) returns (form: Form)
    requires stream.Valid()
    modifies stream
    ensures stream.Valid() && stream.position == Uleb(stream.data, old(stream.position)).end
    ensures form == FormOf(Uleb(stream.data, old(stream.position)).value)
    ensures old(stream.position) == |stream.data| ==> form == Unknown(0)
  {
    AtEnd(stream.data);
    var code, count := ReadUleb128(stream);
    form := FormOf(code);
  }

  /** Reads `n` bytes that are there into a buffer that nothing uses afterwards. */
  method SkipBytes(stream: Stream, n: nat)
    requires stream.Valid() && stream.position + n <= |stream.data|
    modifies stream
    ensures stream.Valid() && stream.position == old(stream.position) + n
  {
    var temp, count := stream.ReadFixed(n, 0);
  }

  /** Reads characters until a NUL, which is read as well, or `max` of them. */
  method ReadSz(stream: Stream, max: nat) returns (s: seq<Byte>)
    requires stream.Valid() && max > 0
    modifies stream
    ensures stream.Valid()
    ensures stream.position == old(stream.position) + StringLength(stream.data, old(stream.position), max)
    ensures s == stream.data[old(stream.position)..stream.position]
  {
    s := [];
    var start := stream.position;
    while true
      invariant stream.Valid() && stream.position == start + |s| && |s| < max
      invariant s == stream.data[start..stream.position]
      invariant StringLength(stream.data, start, max) == |s| + StringLength(stream.data, stream.position, max - |s|)
      decreases max - |s|
    {
      var cur, count := stream.ReadByte();
      if count == 0 {
        break;
      }
      s := s + [cur];
      if |s| == max || cur == 0 {
        break;
      }
    }
  }
}
