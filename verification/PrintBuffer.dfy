/** The output side of the printer: a fixed buffer that is flushed to a callback when it
    is full, and the doubling string that the callback feeds. */
module PrintBuffer {
  import opened Declarators

  /** The string the callback appends to: `buf` holds the characters, `alc` is the allocated size. */
  class GrowableString {
    var buf: string
    var alc: nat

    ghost predicate Valid()
      reads this
    {
      |buf| == 0 || |buf| < alc
    }

    constructor (estimate: nat)
      ensures Valid() && buf == "" && estimate <= alc
    {
      buf := "";
      alc := 0;
      new;
      if estimate > 0 {
        Resize(estimate);
      }
    }

    /** Doubles the allocation until it is large enough, and no further. */
    method Resize(need: nat)
      requires Valid()
      modifies this
      ensures Valid() && buf == old(buf)
      ensures need <= alc && old(alc) <= alc
      ensures alc == old(alc) || alc == 2 || alc < 2 * need
    {
      var newalc := if alc > 0 then alc else 2;
      while newalc < need
        invariant newalc > 0 && newalc >= alc
        invariant newalc == old(alc) || newalc == 2 || newalc < 2 * need
        decreases need - newalc
      {
        newalc := newalc * 2;
      }
      alc := newalc;
    }

    /** There is always room for the terminating NUL. */
    method AppendBuffer(s: string)
      requires Valid()
      modifies this
      ensures Valid() && buf == old(buf) + s && |buf| < alc
    {
      var need := |buf| + |s| + 1;
      if need > alc {
        Resize(need);
      }
      buf := buf + s;
    }
  }

  class PrintBuffer {
    const buf: array<char>
    const sink: GrowableString
    var len: nat
    var lastChar: char
    var flushCount: nat
    /** What an append-only printer would hold: the chunks the callback was given, then the
        live part of the buffer. */
    ghost var Shown: Output

    ghost predicate Valid()
      reads this, buf, sink
    {
      && buf.Length == BUFFER_LENGTH && len <= BUFFER_LENGTH - 1
      && sink.Valid()
      && |Shown.text| == |sink.buf| + len
      && (forall i | 0 <= i < |sink.buf| :: sink.buf[i] == Shown.text[i])
      && (forall i | 0 <= i < len :: buf[i] == Shown.text[|sink.buf| + i])
      && Shown.len == len && Shown.last == lastChar && Shown.flushes == flushCount
    }

    constructor (sink: GrowableString)
      requires sink.Valid()
      ensures Valid() && fresh(buf) && this.sink == sink && sink.buf == old(sink.buf)
      ensures Shown == RawOutput.Output(sink.buf, '\0', 0, 0)
    {
      buf := new char[BUFFER_LENGTH];
      this.sink := sink;
      len, lastChar, flushCount := 0, '\0', 0;
      Shown := RawOutput.Output(sink.buf, '\0', 0, 0);
    }

    method Flush()
      requires Valid()
      modifies this, buf, sink
      ensures Valid() && Shown == Declarators.Flush(old(Shown)) && sink.buf == Shown.text
    {
      buf[len] := '\0';
      assert buf[..len] == old(buf[..len]);
      sink.AppendBuffer(buf[..len]);
      len := 0;
      flushCount := flushCount + 1;
      Shown := Declarators.Flush(Shown);
    }

    method AppendChar(c: char)
      requires Valid()
      modifies this, buf, sink
      ensures Valid() && Shown == PutChar(old(Shown), c)
    {
      if len == BUFFER_LENGTH - 1 {
        Flush();
      }
      buf[len] := c;
      len := len + 1;
      lastChar := c;
      Shown := RawOutput.Output(Shown.text + [c], c, Shown.len + 1, Shown.flushes);
    }

    method AppendString(s: string)
      requires Valid()
      modifies this, buf, sink
      ensures Valid() && Shown == Put(old(Shown), s)
    {
      var i := 0;
      while i < |s|
        invariant i <= |s|
        invariant Valid()
        invariant Put(Shown, s[i..]) == Put(old(Shown), s)
      {
        assert s[i..][0] == s[i] && s[i..][1..] == s[i + 1..];
        AppendChar(s[i]);
        i := i + 1;
      }
    }

    /** `len -= 2`: un-prints the separator, if the buffer looks as it did just after it. */
    method TakeBack(len0: nat, flushCount0: nat, ghost before: Output)
      requires Valid()
      requires before.len == len0 && before.flushes == flushCount0 && len0 >= 2
      modifies this
      ensures Valid() && Shown == Retract(before, old(Shown))
    {
      if flushCount == flushCount0 && len == len0 {
        len := len - 2;
        Shown := Retract(before, Shown);
      }
    }
  }
}
