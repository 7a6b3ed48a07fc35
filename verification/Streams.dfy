/** A read cache over a window over memory: stream_cache, substream and stream_memory. */
module Streams {
  import opened Bytes
  import opened Input

  class StreamMemory {
    const buffer: array<Byte>
    var position: nat

    ghost predicate Valid()
      reads this
    {
      position <= buffer.Length
    }

    constructor (data: seq<Byte>)
      ensures Valid() && fresh(buffer) && buffer[..] == data && position == 0
    {
      var b := new Byte[|data|](i requires 0 <= i < |data| => data[i]);
      buffer, position := b, 0;
      assert b[..] == data;
    }

    method Seek(offset: nat) returns (at: nat)
      requires Valid()
      modifies this
      ensures Valid() && at == position == SeekTo(Ignore, buffer.Length, old(position), offset)
    {
      if offset < buffer.Length {
        position := offset;
      }
      at := position;
    }

    method Read(dst: array<Byte>, size: nat) returns (count: nat)
      requires Valid() && size <= dst.Length && dst != buffer
      modifies this, dst
      ensures Valid() && count == Min(buffer.Length - old(position), size) && position == old(position) + count
      ensures forall i | 0 <= i < dst.Length ::
        dst[i] == if i < count then buffer[old(position) + i] else old(dst[i])
    {
      count := size;
      if size > 0 {
        count := Min(buffer.Length - position, size);
        forall i | 0 <= i < count {
          dst[i] := buffer[position + i];
        }
        position := position + count;
      }
    }

    method Write(src: seq<Byte>) returns (count: nat)
      requires Valid()
      modifies this, buffer
      ensures Valid() && count == Min(buffer.Length - old(position), |src|) && position == old(position) + count
      ensures forall i | 0 <= i < buffer.Length ::
        buffer[i] == if old(position) <= i < old(position) + count then src[i - old(position)] else old(buffer[i])
    {
      count := |src|;
      if |src| > 0 {
        count := Min(buffer.Length - position, |src|);
        forall i | position <= i < position + count {
          buffer[i] := src[i - position];
        }
        position := position + count;
      }
    }
  }

  /** `size` bytes of the memory, from `start`. */
  class Substream {
    const parent: StreamMemory
    const start: nat
    const size: nat
    var position: nat

    ghost predicate Valid()
      reads this, parent
    {
      parent.Valid() && start + size <= parent.buffer.Length && position <= size
    }

    ghost function Window(): (w: seq<Byte>)
      reads parent, parent.buffer
      requires start + size <= parent.buffer.Length
      ensures |w| == size
    {
      parent.buffer[start..start + size]
    }

    constructor (parent: StreamMemory, start: nat, size: nat)
      requires parent.Valid() && start + size <= parent.buffer.Length
      ensures Valid() && this.parent == parent && this.start == start && this.size == size && position == 0
    {
      this.parent, this.start, this.size, position := parent, start, size, 0;
    }

    method Seek(offset: nat) returns (at: nat)
      requires Valid()
      modifies this
      ensures Valid() && at == position == SeekTo(Ignore, size, old(position), offset)
    {
      if offset < size {
        position := offset;
      }
      at := position;
    }

    method Read(dst: array<Byte>, n: nat) returns (count: nat)
      requires Valid() && n <= dst.Length && dst != parent.buffer
      modifies this, parent, dst
      ensures Valid() && count == Min(size - old(position), n) && position == old(position) + count
      ensures forall i | 0 <= i < dst.Length ::
        dst[i] == if i < count then Window()[old(position) + i] else old(dst[i])
    {
      count := 0;
      var want := Min(size - position, n);
      var at := parent.Seek(start + position);
      if at == start + position {
        count := parent.Read(dst, want);
        position := position + count;
      }
    }

    method Write(src: seq<Byte>) returns (count: nat)
      requires Valid()
      modifies this, parent, parent.buffer
      ensures Valid() && count == Min(size - old(position), |src|) && position == old(position) + count
      ensures forall i | 0 <= i < size ::
        Window()[i] == if old(position) <= i < old(position) + count then src[i - old(position)] else old(Window())[i]
    {
      count := 0;
      var want := Min(size - position, |src|);
      var at := parent.Seek(start + position);
      if at == start + position {
        count := parent.Write(src[..want]);
        position := position + count;
      }
    }
  }

  class StreamCache {
    const parent: Substream
    const buffer: array<Byte>
    var position: nat
    var cachePosition: nat
    var hasCache: bool

    /** The cached window agrees with the parent wherever it overlaps it. */
    ghost predicate Valid()
      reads this, buffer, parent, parent.parent, parent.parent.buffer
    {
      && parent.Valid() && buffer != parent.parent.buffer && buffer.Length > 0
      && position <= parent.size
      && (hasCache ==> forall i | 0 <= i < buffer.Length && cachePosition + i < parent.size ::
           buffer[i] == parent.Window()[cachePosition + i])
    }

    constructor (parent: Substream, kSize: nat)
      requires parent.Valid() && kSize > 0
      ensures Valid() && fresh(buffer) && buffer.Length == kSize && this.parent == parent && position == 0 && !hasCache
    {
      this.parent := parent;
      buffer := new Byte[kSize](_ => 0);
      position, cachePosition, hasCache := 0, 0, false;
    }

    method Seek(offset: nat) returns (at: nat)
      requires Valid()
      modifies this
      ensures Valid() && at == position == SeekTo(Clamp, parent.size, old(position), offset)
      ensures hasCache == old(hasCache)
    {
      position := Min(offset, parent.size);
      at := position;
    }

    predicate IsHit(size: nat)
      reads this
    {
      hasCache && position >= cachePosition && position + size < cachePosition + buffer.Length
    }

    /** Where the parent is after it was sent to the position of the cache: there, or, at the very end,
        which it ignores, where it stood. */
    ghost function Source(): (at: nat)
      reads this, parent
    {
      SeekTo(Ignore, parent.size, parent.position, position)
    }

    /** Refills the cache from there. */
    method Fill() returns (count: nat)
      requires Valid()
      modifies this`cachePosition, this`hasCache, buffer, parent, parent.parent
      ensures Valid() && hasCache && cachePosition == old(Source())
      ensures count == Min(parent.size - cachePosition, buffer.Length)
    {
      cachePosition := parent.Seek(position);
      var at := parent.Seek(position);
      count := parent.Read(buffer, buffer.Length);
      hasCache := true;
    }

    method CopyOut(dst: array<Byte>, from: nat, size: nat)
      requires from + size <= buffer.Length && size <= dst.Length && dst != buffer
      modifies dst
      ensures forall i | 0 <= i < dst.Length :: dst[i] == if i < size then buffer[from + i] else old(dst[i])
    {
      forall i | 0 <= i < size {
        dst[i] := buffer[from + i];
      }
    }

    /** Whether a read stays inside the buffer and the stream: not so only at the very end. */
    ghost predicate Inside(size: nat)
      reads this, parent
    {
      position < parent.size || IsHit(size) || position - Source() + size <= buffer.Length
    }

    /** The read of a size that fits the buffer. */
    method ReadBuffered(dst: array<Byte>, size: nat) returns (count: nat)
      requires Valid() && size <= dst.Length && dst != buffer && dst != parent.parent.buffer
      requires size <= buffer.Length && Inside(size)
      modifies this, buffer, dst, parent, parent.parent
      ensures Valid() && position == Min(old(position) + size, parent.size)
      ensures count == if old(IsHit(size)) then size else Min(size, parent.size - old(Source()))
      ensures parent.Window() == old(parent.Window())
      ensures forall i | 0 <= i < Min(size, parent.size - old(position)) :: dst[i] == parent.Window()[old(position) + i]
      ensures forall i | size <= i < dst.Length :: dst[i] == old(dst[i])
    {
      count := size;
      if !IsHit(size) {
        var filled := Fill();
        count := Min(filled, size);
      }
      CopyOut(dst, position - cachePosition, size);
      var at := Seek(position + count);
    }

    /** A read, whether or not the bytes are in the cache.  A miss reports the bytes from where the
        parent then is, a hit all that were asked for, also over the end. */
    method Read(dst: array<Byte>, size: nat) returns (count: nat)
      requires Valid() && size <= dst.Length && dst != buffer && dst != parent.parent.buffer
      requires Inside(size)
      modifies this, buffer, dst, parent, parent.parent
      ensures Valid() && position == Min(old(position) + size, parent.size)
      ensures count == if old(IsHit(size)) then size else Min(size, parent.size - old(Source()))
      ensures parent.Window() == old(parent.Window())
      ensures forall i | 0 <= i < Min(size, parent.size - old(position)) :: dst[i] == parent.Window()[old(position) + i]
      ensures forall i | size <= i < dst.Length :: dst[i] == old(dst[i])
    {
      if size <= buffer.Length {
        count := ReadBuffered(dst, size);
      } else {
        var at := parent.Seek(position);
        at := parent.Seek(position);
        count := parent.Read(dst, size);
        position := position + count;
      }
    }

    /** A write never leaves a stale hit, and does not move the cache's own position.  At the very end
        of the stream the bytes go where the parent stood. */
    method Write(src: seq<Byte>) returns (count: nat)
      requires Valid()
      modifies this, parent, parent.parent, parent.parent.buffer
      ensures Valid() && !hasCache && position == old(position)
      ensures count == Min(parent.size - old(Source()), |src|)
      ensures forall i | 0 <= i < parent.size ::
        parent.Window()[i] ==
        if old(Source()) <= i < old(Source()) + count then src[i - old(Source())] else old(parent.Window())[i]
    {
      hasCache := false;
      var at := parent.Seek(position);
      count := parent.Write(src);
    }
  }
}
