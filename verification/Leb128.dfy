/** The variable-length numbers of section 7.6 of DWARF 4, as stream_base reads them: the
    groups of seven bits are shifted as 32-bit numbers. */
module Leb128 {
  import opened Bytes
  import opened Input

  /** `x << shift` on a 32-bit unsigned.  From 32 on the shift is undefined in the original; it is
      taken modulo 32 here, and no theorem below relies on it. */
  function Shl32(x: nat, shift: nat): nat {
    (x * Pow2(shift % 32)) % WORD32
  }

  /** What a read returns: the number, where the stream is left, and for the signed form the
      number of bits taken and whether the last byte carried the sign bit. */
  datatype Leb = Leb(value: nat, end: nat, shift: nat, sign: bool)

  function ReadFrom(data: seq<Byte>, pos: nat, shift: nat, out: nat): (r: Leb)
    requires pos <= |data|
    ensures pos <= r.end <= |data|
    ensures pos < |data| ==> pos < r.end
    decreases |data| - pos
  {
    if pos == |data| then Leb(out, pos, shift, false)
    else
      var b := data[pos];
      var out1 := BitOr(out, Shl32(b % 0x80, shift));
      if b < 0x80 then Leb(out1, pos + 1, shift + 7, b % 0x80 >= 0x40)
      else if pos + 1 == |data| then Leb(out1, pos + 1, shift + 7, b % 0x80 >= 0x40)
      else ReadFrom(data, pos + 1, shift + 7, out1)
  }

  function Uleb(data: seq<Byte>, pos: nat): (r: Leb)
    requires pos <= |data|
    ensures pos <= r.end <= |data| && (pos < |data| ==> pos < r.end)
  {
    ReadFrom(data, pos, 0, 0)
  }

  /** `out | -(1 << k)` in two's complement. */
  function SignExtend(r: Leb): int {
    if r.shift < 64 && r.sign then
      var k := Pow2(r.shift % 32);
      r.value % k - k
    else r.value
  }

  method ReadUleb128(stream: Stream) returns (out: nat, chk: nat)
    requires stream.Valid()
    modifies stream
    ensures stream.Valid()
    ensures out == Uleb(stream.data, old(stream.position)).value
    ensures stream.position == Uleb(stream.data, old(stream.position)).end == old(stream.position) + chk
  {
    hide BitOr, Shl32, Pow2;
    var shift, byte: Byte, count := 0, 0, 0;
    out, chk := 0, 0;
    while stream.position < |stream.data|
      invariant stream.Valid() && stream.position == old(stream.position) + chk
      invariant ReadFrom(stream.data, stream.position, shift, out).value
        == Uleb(stream.data, old(stream.position)).value
      invariant ReadFrom(stream.data, stream.position, shift, out).end == Uleb(stream.data, old(stream.position)).end
      decreases |stream.data| - stream.position
    {
      byte, count := stream.ReadByte();
      chk := chk + count;
      out := BitOr(out, Shl32(byte % 0x80, shift));
      shift := shift + 7;
      if byte < 0x80 {
        break;
      }
    }
  }

  method ReadSleb128(stream: Stream) returns (out: int, chk: nat)
    requires stream.Valid()
    modifies stream
    ensures stream.Valid()
    ensures out == SignExtend(Uleb(stream.data, old(stream.position)))
    ensures stream.position == Uleb(stream.data, old(stream.position)).end == old(stream.position) + chk
  {
    hide BitOr, Shl32, Pow2;
    ghost var whole := Uleb(stream.data, stream.position);
    var bits, shift, byte: Byte, count := 0, 0, 0, 0;
    chk := 0;
    while stream.position < |stream.data|
      invariant stream.Valid() && stream.position == old(stream.position) + chk
      invariant stream.position < |stream.data| ==> ReadFrom(stream.data, stream.position, shift, bits) == whole
      invariant stream.position == |stream.data| ==> whole == Leb(bits, stream.position, shift, byte % 0x80 >= 0x40)
      decreases |stream.data| - stream.position
    {
      byte, count := stream.ReadByte();
      chk := chk + count;
      bits := BitOr(bits, Shl32(byte % 0x80, shift));
      shift := shift + 7;
      if byte < 0x80 {
        break;
      }
    }
    assert whole == Leb(bits, stream.position, shift, byte % 0x80 >= 0x40);
    out := bits;
    if shift < 64 && byte % 0x80 >= 0x40 {
      var k: int := Pow2(shift % 32);
      var b: int := bits;
      out := b % k - k;
    }
  }

  // ---- Encoding, and reading back ----

  /** What the groups of seven bits say, least significant first. */
  function Meaning(bs: seq<Byte>): nat {
    if bs == [] then 0 else bs[0] % 0x80 + 0x80 * Meaning(bs[1..])
  }

  /** Every byte but the last has the continuation bit. */
  predicate Terminated(bs: seq<Byte>) {
    bs != [] && if |bs| == 1 then bs[0] < 0x80 else bs[0] >= 0x80 && Terminated(bs[1..])
  }

  function EncodeUleb(v: nat): (bs: seq<Byte>)
    ensures Terminated(bs) && Meaning(bs) == v
  {
    if v < 0x80 then [v] else [0x80 + v % 0x80] + EncodeUleb(v / 0x80)
  }

  /** The meaning of a signed encoding: the top bit of the last group is the sign. */
  function SignedMeaning(bs: seq<Byte>): int
    requires bs != []
  {
    if |bs| == 1 then bs[0] % 0x80 - (if bs[0] % 0x80 >= 0x40 then 0x80 else 0)
    else bs[0] % 0x80 + 0x80 * SignedMeaning(bs[1..])
  }

  function EncodeSleb(v: int): (bs: seq<Byte>)
    ensures Terminated(bs) && SignedMeaning(bs) == v
    decreases if v < 0 then -v else v
  {
    if 0 <= v < 0x40 then [v]
    else if -0x40 <= v < 0 then [v + 0x80]
    else [0x80 + v % 0x80] + EncodeSleb(v / 0x80)
  }

  /** The weights of the five places a 32-bit number has. */
  function Weight(i: nat): (w: nat)
    requires i < 5
    ensures w == Pow2(7 * i)
  {
    Pow2Sevens();
    if i == 0 then 1 else if i == 1 then 0x80 else if i == 2 then 0x4000 else if i == 3 then 0x20_0000 else 0x1000_0000
  }

  /** One more group does not meet the bits already read. */
  lemma {:induction false} Group(out: nat, x: nat, i: nat)
    requires i < 5 && out < Weight(i) && x < 0x80
    ensures BitOr(out, Shl32(x, 7 * i)) == out + (x * Weight(i)) % WORD32
    ensures i < 4 ==> (x * Weight(i)) % WORD32 == x * Weight(i) && out + x * Weight(i) < Weight(i + 1)
    ensures out + (x * Weight(i)) % WORD32 == (out + x * Weight(i)) % WORD32
  {
    hide Pow2, BitOr;
    var w := Weight(i);
    assert Shl32(x, 7 * i) == (x * w) % WORD32;
    if i < 4 {
      BitOrDisjoint(out, x, 7 * i);
      if i == 0 {} else if i == 1 {} else if i == 2 {} else {}
    } else {
      TopGroup(out, x);
      BitOrDisjoint(out, x % 16, 28);
    }
  }

  /** Of the fifth group only four bits fit. */
  lemma {:induction false} TopGroup(out: nat, x: nat)
    requires out < 0x1000_0000 && x < 0x80
    ensures (x * 0x1000_0000) % WORD32 == (x % 16) * 0x1000_0000
    ensures out + (x * 0x1000_0000) % WORD32 == (out + x * 0x1000_0000) % WORD32
  {
    assert x * 0x1000_0000 == (x / 16) * WORD32 + (x % 16) * 0x1000_0000;
  }

  /** Reading a terminated encoding of at most five bytes gives its meaning modulo 2^32, and
      takes exactly its bytes, whatever follows. */
  lemma {:induction false} ReadEncoding(data: seq<Byte>, pos: nat, bs: seq<Byte>, i: nat, out: nat)
    requires pos + |bs| <= |data| && data[pos..pos + |bs|] == bs
    requires Terminated(bs) && i + |bs| <= 5 && out < Weight(i)
    ensures
      var r := ReadFrom(data, pos, 7 * i, out);
      && r.end == pos + |bs| && r.shift == 7 * (i + |bs|)
      && r.sign == (bs[|bs| - 1] >= 0x40)
      && r.value == (out + Meaning(bs) * Weight(i)) % WORD32
    decreases |bs|
  {
    hide Pow2, BitOr, Shl32;
    var x, w := bs[0] % 0x80, Weight(i);
    assert data[pos] == bs[0];
    Group(out, x, i);
    var m := Meaning(bs[1..]);
    if |bs| == 1 {
      assert Meaning(bs) == x;
    } else {
      assert bs[1..] == data[pos + 1..pos + 1 + |bs[1..]|];
      ReadEncoding(data, pos + 1, bs[1..], i + 1, out + x * w);
      assert (x + 0x80 * m) * w == x * w + m * Weight(i + 1) by {
        assert Weight(i + 1) == 0x80 * w;
        assert m * (0x80 * w) == 0x80 * m * w;
      }
    }
  }

  lemma {:induction false} UlebSize(v: nat)
    requires v < WORD32
    ensures |EncodeUleb(v)| <= 5
  {
    var v1 := v / 0x80;
    var v2 := v1 / 0x80;
    var v3 := v2 / 0x80;
    assert |EncodeUleb(v3 / 0x80)| == 1;
    assert |EncodeUleb(v3)| <= 2;
    assert |EncodeUleb(v2)| <= 3;
    assert |EncodeUleb(v1)| <= 4;
  }

  lemma {:induction false} SlebSize(v: int)
    requires -0x800_0000 <= v < WORD32
    ensures |EncodeSleb(v)| <= 5
    ensures v < 0x800_0000 ==> |EncodeSleb(v)| <= 4
    ensures v >= 0 ==> var bs := EncodeSleb(v); bs[|bs| - 1] < 0x40
  {
    var v1 := v / 0x80;
    var v2 := v1 / 0x80;
    var v3 := v2 / 0x80;
    assert v < 0x800_0000 ==> |EncodeSleb(v3)| == 1;
    assert |EncodeSleb(v3)| <= 2;
    assert |EncodeSleb(v2)| <= 3;
    assert |EncodeSleb(v1)| <= 4;
    SlebPositive(v);
  }

  lemma {:induction false} SlebPositive(v: int)
    ensures var bs := EncodeSleb(v); v >= 0 <==> bs[|bs| - 1] < 0x40
    decreases if v < 0 then -v else v
  {
    if v >= 0x40 || v < -0x40 {
      SlebPositive(v / 0x80);
      assert EncodeSleb(v) == [0x80 + v % 0x80] + EncodeSleb(v / 0x80);
    }
  }

  lemma {:induction false} SignedFromUnsigned(bs: seq<Byte>)
    requires Terminated(bs) && |bs| <= 5
    ensures SignedMeaning(bs) == Meaning(bs) - (if bs[|bs| - 1] >= 0x40 then 0x80 * Weight(|bs| - 1) else 0)
    ensures Meaning(bs) < 0x80 * Weight(|bs| - 1)
  {
    hide *;
    MeaningUnfold(bs);
    WeightNext(|bs| - 1);
    if |bs| > 1 {
      SignedFromUnsigned(bs[1..]);
    }
  }

  lemma WeightNext(i: nat)
    requires i < 5
    ensures Weight(i) == if i == 0 then 1 else 0x80 * Weight(i - 1)
  {
    hide Pow2;
  }

  lemma MeaningUnfold(bs: seq<Byte>)
    requires Terminated(bs)
    ensures bs != [] && (|bs| > 1 ==> Terminated(bs[1..]))
    ensures Meaning(bs) == if |bs| == 1 then bs[0] as int else bs[0] % 0x80 + 0x80 * Meaning(bs[1..])
    ensures SignedMeaning(bs) ==
      if |bs| == 1 then bs[0] - (if bs[0] >= 0x40 then 0x80 else 0) else bs[0] % 0x80 + 0x80 * SignedMeaning(bs[1..])
    ensures |bs| == 1 ==> bs[0] < 0x80
  {
    assert |bs| == 1 ==> Meaning(bs[1..]) == 0;
  }

  lemma {:induction false} ReadWhole(pre: seq<Byte>, bs: seq<Byte>, rest: seq<Byte>)
    requires Terminated(bs) && |bs| <= 5
    ensures Uleb(pre + bs + rest, |pre|) == Leb(Meaning(bs) % WORD32, |pre| + |bs|, 7 * |bs|, bs[|bs| - 1] >= 0x40)
  {
    hide ReadFrom, Pow2, Terminated, Meaning;
    var data := pre + bs + rest;
    assert data[|pre|..|pre| + |bs|] == bs;
    ReadEncoding(data, |pre|, bs, 0, 0);
    assert Weight(0) == 1 && Meaning(bs) * 1 == Meaning(bs);
  }

  /** What is read of a terminated encoding, whatever its length, depends on its bytes only, and takes
      exactly these: a value that does not fit is read wrong, but never takes up too much or too little. */
  lemma {:induction false} ReadFromSame(data: seq<Byte>, pos: nat, bs: seq<Byte>, i: nat, shift: nat, out: nat)
    requires pos + |bs| <= |data| + i && i < |bs| && pos >= i
    requires forall k | i <= k < |bs| :: data[pos - i + k] == bs[k]
    requires Terminated(bs[i..])
    ensures ReadFrom(bs, i, shift, out).end == |bs|
    ensures ReadFrom(data, pos, shift, out) == ReadFrom(bs, i, shift, out).(end := pos + |bs| - i)
    decreases |bs| - i
  {
    hide BitOr, Shl32;
    assert data[pos] == bs[i] == bs[i..][0];
    if i + 1 < |bs| {
      assert bs[i..][1..] == bs[i + 1..];
      ReadFromSame(data, pos + 1, bs, i + 1, shift + 7, BitOr(out, Shl32(bs[i] % 0x80, shift)));
    }
  }

  lemma {:induction false} UlebAnywhere(pre: seq<Byte>, bs: seq<Byte>, rest: seq<Byte>)
    requires Terminated(bs)
    ensures Uleb(bs, 0).end == |bs|
    ensures Uleb(pre + bs + rest, |pre|) == Uleb(bs, 0).(end := |pre| + |bs|)
  {
    hide ReadFrom;
    assert bs[0..] == bs;
    ReadFromSame(pre + bs + rest, |pre|, bs, 0, 0, 0);
  }

  /** An encoding of at most five bytes, anywhere in a stream, is read as its meaning modulo 2^32:
      it is read right if and only if its meaning is below 2^32. */
  lemma {:induction false} UlebExact(pre: seq<Byte>, bs: seq<Byte>, rest: seq<Byte>)
    requires Terminated(bs) && |bs| <= 5
    ensures
      var r := Uleb(pre + bs + rest, |pre|);
      && r.end == |pre| + |bs| && r.value == Meaning(bs) % WORD32
      && (r.value == Meaning(bs) <==> Meaning(bs) < WORD32)
  {
    ReadWhole(pre, bs, rest);
  }

  lemma {:induction false} UlebRoundTrip(pre: seq<Byte>, v: nat, rest: seq<Byte>)
    requires v < WORD32
    ensures
      var r := Uleb(pre + EncodeUleb(v) + rest, |pre|);
      r.value == v && r.end == |pre| + |EncodeUleb(v)|
  {
    UlebSize(v);
    UlebExact(pre, EncodeUleb(v), rest);
  }

  /** A signed encoding of at most four bytes, or of five without the sign (a sign there is shifted
      by 35, which is undefined), is read right if and only if its meaning is below 2^32. */
  lemma {:induction false} SlebExact(pre: seq<Byte>, bs: seq<Byte>, rest: seq<Byte>)
    requires Terminated(bs) && |bs| <= 5
    requires |bs| == 5 ==> bs[4] < 0x40
    ensures
      var r := Uleb(pre + bs + rest, |pre|);
      && r.end == |pre| + |bs|
      && (SignExtend(r) == SignedMeaning(bs) <==> SignedMeaning(bs) < WORD32)
  {
    var r := Uleb(pre + bs + rest, |pre|);
    ReadWhole(pre, bs, rest);
    SignedFromUnsigned(bs);
    hide Uleb, Meaning, SignedMeaning;
    if |bs| < 5 {
      ExtendShort(r, Meaning(bs), |bs|);
    }
  }

  /** 2^32 in five bytes is read as 0, by both readers. */
  lemma FifthGroupCut()
    ensures
      var bs: seq<Byte> := [0x80, 0x80, 0x80, 0x80, 0x10];
      && Meaning(bs) == SignedMeaning(bs) == WORD32
      && Uleb(bs, 0).value == 0 && SignExtend(Uleb(bs, 0)) == 0
  {
    hide Uleb, Meaning, SignedMeaning, Terminated, SignExtend;
    var bs: seq<Byte> := [0x80, 0x80, 0x80, 0x80, 0x10];
    Fifth([0x10], 0x10);
    Fifth([0x80, 0x10], 0x800);
    Fifth([0x80, 0x80, 0x10], 0x4_0000);
    Fifth([0x80, 0x80, 0x80, 0x10], 0x200_0000);
    Fifth(bs, WORD32);
    ReadWhole([], bs, []);
    assert [] + bs + [] == bs;
    NoSign(Uleb(bs, 0));
  }

  lemma Fifth(bs: seq<Byte>, v: nat)
    requires if |bs| == 1 then bs[0] == v < 0x40
             else bs != [] && bs[0] == 0x80 && Terminated(bs[1..]) && v == 0x80 * Meaning(bs[1..])
                  && Meaning(bs[1..]) == SignedMeaning(bs[1..])
    ensures Terminated(bs) && Meaning(bs) == SignedMeaning(bs) == v
  {
    assert |bs| == 1 ==> Meaning(bs[1..]) == 0;
  }

  lemma NoSign(r: Leb)
    requires !r.sign
    ensures SignExtend(r) == r.value
  {
  }

  lemma {:induction false} ExtendShort(r: Leb, m: nat, n: nat)
    requires 1 <= n <= 4 && r.shift == 7 * n && m < 0x80 * Weight(n - 1) && r.value == m % WORD32
    ensures SignExtend(r) == m - if r.sign then 0x80 * Weight(n - 1) else 0
  {
    hide Pow2;
    assert Weight(n) == 0x80 * Weight(n - 1) == Pow2(7 * n);
    assert m < WORD32;
  }

  lemma {:induction false} SlebRoundTrip(pre: seq<Byte>, v: int, rest: seq<Byte>)
    requires -0x800_0000 <= v < WORD32
    ensures
      var r := Uleb(pre + EncodeSleb(v) + rest, |pre|);
      SignExtend(r) == v && r.end == |pre| + |EncodeSleb(v)|
  {
    SlebSize(v);
    SlebExact(pre, EncodeSleb(v), rest);
  }
}
