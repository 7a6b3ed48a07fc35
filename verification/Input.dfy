/** The reading side of a stream, as the DWARF parsers see it.  Module Streams proves of the cached
    and the uncached stream what is assumed here of seeks, and of reads whose bytes are all there.
    A read that the end cuts short gives what is left, as it does without the cache; with the cache,
    a hit reports bytes that are not there. */
module Input {
  import opened Bytes

  /** What a seek does with an offset that is not inside the stream: the cached stream goes to
      the end, the others stay where they are. */
  datatype SeekPolicy = Clamp | Ignore

  function SeekTo(policy: SeekPolicy, size: nat, position: nat, offset: nat): nat {
    if offset < size then offset
    else if policy.Clamp? then size
    else position
  }

  function Min(a: int, b: int): int {
    if a < b then a else b
  }

  /** The number read at `pos`, or `otherwise` when fewer than `width` bytes are left. */
  function FixedAt(data: seq<Byte>, pos: nat, width: nat, bigEndian: bool, otherwise: nat): nat
    requires pos <= |data|
  {
    if pos + width <= |data| then Fixed(data[pos..pos + width], bigEndian) else otherwise
  }

  /** A number encoded in the middle of the data is read back. */
  lemma {:induction false} FixedHere(pre: seq<Byte>, v: nat, width: nat, bigEndian: bool, rest: seq<Byte>)
    requires v < Pow256(width)
    ensures FixedAt(pre + EncodeFixed(v, width, bigEndian) + rest, |pre|, width, bigEndian, 0) == v
  {
    hide Fixed, EncodeFixed, Pow256;
    var data := pre + EncodeFixed(v, width, bigEndian) + rest;
    assert data[|pre|..|pre| + width] == EncodeFixed(v, width, bigEndian);
    FixedRoundTrip(v, width, bigEndian);
  }

  lemma {:induction false} PairHere(pre: seq<Byte>, a: nat, b: nat, width: nat, bigEndian: bool, rest: seq<Byte>)
    requires a < Pow256(width) && b < Pow256(width)
    ensures
      var data := pre + EncodeFixed(a, width, bigEndian) + EncodeFixed(b, width, bigEndian) + rest;
      && Fixed(data[|pre|..|pre| + width], bigEndian) == a
      && Fixed(data[|pre| + width..|pre| + 2 * width], bigEndian) == b
  {
    hide Fixed, EncodeFixed, Pow256;
    var x, y := EncodeFixed(a, width, bigEndian), EncodeFixed(b, width, bigEndian);
    var data := pre + x + y + rest;
    assert data[|pre|..|pre| + width] == x && data[|pre| + width..|pre| + 2 * width] == y;
    FixedRoundTrip(a, width, bigEndian);
    FixedRoundTrip(b, width, bigEndian);
  }

  class Stream {
    const data: seq<Byte>
    const policy: SeekPolicy
    const bigEndian: bool
    var position: nat

    ghost predicate Valid()
      reads this
    {
      position <= |data|
    }

    constructor (data: seq<Byte>, policy: SeekPolicy, bigEndian: bool)
      ensures this.data == data && this.policy == policy && this.bigEndian == bigEndian
      ensures Valid() && position == 0
    {
      this.data, this.policy, this.bigEndian := data, policy, bigEndian;
      position := 0;
    }

    method Seek(offset: nat)
      requires Valid()
      modifies this
      ensures Valid() && position == SeekTo(policy, |data|, old(position), offset)
    {
      if offset < |data| {
        position := offset;
      } else if policy.Clamp? {
        position := |data|;
      }
    }

    /** A fixed-width read: moves over what there is, and keeps `was` unless all of it was there. */
    method ReadFixed(width: nat, was: nat) returns (val: nat, count: nat)
      requires Valid()
      modifies this
      ensures Valid() && position == old(position) + count
      ensures count == Min(width, |data| - old(position))
      ensures val == FixedAt(data, old(position), width, bigEndian, was)
    {
      count := Min(width, |data| - position);
      val := if count == width then Fixed(data[position..position + width], bigEndian) else was;
      position := position + count;
    }

    method ReadByte() returns (val: Byte, count: nat)
      requires Valid()
      modifies this
      ensures Valid()
      ensures if old(position) < |data| then val == data[old(position)] && count == 1 && position == old(position) + 1
              else count == 0 && position == old(position)
    {
      if position < |data| {
        val, count := data[position], 1;
        position := position + 1;
      } else {
        val, count := 0, 0;
      }
    }
  }
}
