/** Bytes, powers of two and the bitwise `or` of natural numbers. */
module Bytes {
  type Byte = b: int | 0 <= b < 0x100

  const WORD32 := 0x1_0000_0000
  const WORD64 := 0x1_0000_0000_0000_0000

  function Pow2(k: nat): (r: nat)
    ensures r > 0
  {
    if k == 0 then 1 else 2 * Pow2(k - 1)
  }

  lemma {:induction false} Pow2Sevens()
    ensures Pow2(0) == 1 && Pow2(7) == 0x80 && Pow2(14) == 0x4000 && Pow2(21) == 0x20_0000 && Pow2(28) == 0x1000_0000
  {
    assert Pow2(4) == 16;
    assert Pow2(7) == 0x80;
    assert Pow2(11) == 0x800;
    assert Pow2(14) == 0x4000;
    assert Pow2(18) == 0x4_0000;
    assert Pow2(21) == 0x20_0000;
    assert Pow2(25) == 0x200_0000;
    assert Pow2(28) == 0x1000_0000;
  }

  function BitOr(a: nat, b: nat): nat {
    if a == 0 then b else if b == 0 then a
    else 2 * BitOr(a / 2, b / 2) + if a % 2 == 1 || b % 2 == 1 then 1 else 0
  }

  /** Numbers without a common bit are or-ed by adding them. */
  lemma {:induction false} BitOrDisjoint(a: nat, c: nat, k: nat)
    requires a < Pow2(k)
    ensures BitOr(a, c * Pow2(k)) == a + c * Pow2(k)
  {
    if k == 0 {
      assert c * 1 == c;
    } else if a > 0 && c * Pow2(k) > 0 {
      var b := c * Pow2(k);
      assert b == 2 * (c * Pow2(k - 1));
      BitOrDisjoint(a / 2, c, k - 1);
    }
  }

  /** The number that `bs` spells in the stream's byte order. */
  function Fixed(bs: seq<Byte>, bigEndian: bool): nat {
    if bs == [] then 0
    else if bigEndian then 0x100 * Fixed(bs[..|bs| - 1], bigEndian) + bs[|bs| - 1]
    else bs[0] + 0x100 * Fixed(bs[1..], bigEndian)
  }

  function Pow256(k: nat): (r: nat)
    ensures r > 0
  {
    if k == 0 then 1 else 0x100 * Pow256(k - 1)
  }

  function EncodeFixed(v: nat, width: nat, bigEndian: bool): (bs: seq<Byte>)
    ensures |bs| == width
  {
    if width == 0 then []
    else if bigEndian then EncodeFixed(v / 0x100, width - 1, bigEndian) + [v % 0x100]
    else [v % 0x100] + EncodeFixed(v / 0x100, width - 1, bigEndian)
  }

  lemma {:induction false} FixedRoundTrip(v: nat, width: nat, bigEndian: bool)
    requires v < Pow256(width)
    ensures Fixed(EncodeFixed(v, width, bigEndian), bigEndian) == v
    decreases width
  {
    if width > 0 {
      var bs := EncodeFixed(v, width, bigEndian);
      FixedRoundTrip(v / 0x100, width - 1, bigEndian);
      if bigEndian {
        assert bs[..|bs| - 1] == EncodeFixed(v / 0x100, width - 1, bigEndian);
      } else {
        assert bs[1..] == EncodeFixed(v / 0x100, width - 1, bigEndian);
      }
    }
  }

  lemma {:induction false} FixedBound(bs: seq<Byte>, bigEndian: bool)
    ensures Fixed(bs, bigEndian) < Pow256(|bs|)
  {
    if bs != [] {
      FixedBound(if bigEndian then bs[..|bs| - 1] else bs[1..], bigEndian);
    }
  }
}
