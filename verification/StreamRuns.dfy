/** Whole runs over a cached and over an uncached stream. */
module StreamRuns {
  import opened Bytes
  import opened Input
  import opened Streams

  datatype Op = DoRead(n: nat) | DoSeek(offset: nat) | DoWrite(src: seq<Byte>)

  /** The bytes underneath and the position: all that a caller can see of a stream. */
  datatype RawView = View(data: seq<Byte>, position: nat)
  type View = v: RawView | v.position <= |v.data| witness RawView.View([], 0)

  predicate InBounds(op: Op, v: View) {
    match op
    case DoRead(n) => 0 < n <= |v.data| - v.position
    case DoSeek(_) => true
    case DoWrite(src) => 0 < |src| <= |v.data| - v.position
  }

  function Patch(data: seq<Byte>, at: nat, src: seq<Byte>): (r: seq<Byte>)
    requires at + |src| <= |data|
    ensures |r| == |data|
  {
    data[..at] + src + data[at + |src|..]
  }

  /** One call: the view afterwards and the bytes it returned. */
  function Step(cached: bool, op: Op, v: View): (View, seq<Byte>)
    requires InBounds(op, v)
  {
    match op
    case DoRead(n) => (v.(position := v.position + n), v.data[v.position..v.position + n])
    case DoSeek(offset) => (v.(position := SeekTo(if cached then Clamp else Ignore, |v.data|, v.position, offset)), [])
    case DoWrite(src) =>
      (RawView.View(Patch(v.data, v.position, src), if cached then v.position else v.position + |src|), [])
  }

  predicate Runs(cached: bool, ops: seq<Op>, v: View) {
    ops == [] || (InBounds(ops[0], v) && Runs(cached, ops[1..], Step(cached, ops[0], v).0))
  }

  function Run(cached: bool, ops: seq<Op>, v: View): (View, seq<seq<Byte>>)
    requires Runs(cached, ops, v)
  {
    if ops == [] then (v, [])
    else
      var (v1, out) := Step(cached, ops[0], v);
      var (v2, outs) := Run(cached, ops[1..], v1);
      (v2, [out] + outs)
  }

  ghost function CacheView(c: StreamCache): View
    reads c, c.buffer, c.parent, c.parent.parent, c.parent.parent.buffer
    requires c.Valid()
  {
    RawView.View(c.parent.Window(), c.position)
  }

  ghost function PlainView(s: Substream): View
    reads s, s.parent, s.parent.buffer
    requires s.Valid()
  {
    RawView.View(s.Window(), s.position)
  }

  method StepCache(c: StreamCache, op: Op) returns (out: seq<Byte>)
    requires c.Valid() && InBounds(op, CacheView(c))
    modifies c, c.buffer, c.parent, c.parent.parent, c.parent.parent.buffer
    ensures c.Valid() && (CacheView(c), out) == Step(true, op, old(CacheView(c)))
  {
    out := [];
    match op {
      case DoRead(n) =>
        var dst := new Byte[n];
        var count := c.Read(dst, n);
        out := dst[..];
        assert out == old(c.parent.Window())[old(c.position)..old(c.position) + n];
      case DoSeek(offset) =>
        var at := c.Seek(offset);
      case DoWrite(src) =>
        var count := c.Write(src);
        assert c.parent.Window() == Patch(old(c.parent.Window()), c.position, src);
    }
  }

  method StepPlain(s: Substream, op: Op) returns (out: seq<Byte>)
    requires s.Valid() && InBounds(op, PlainView(s))
    modifies s, s.parent, s.parent.buffer
    ensures s.Valid() && (PlainView(s), out) == Step(false, op, old(PlainView(s)))
  {
    out := [];
    match op {
      case DoRead(n) =>
        var dst := new Byte[n];
        var count := s.Read(dst, n);
        out := dst[..];
        assert out == old(s.Window())[old(s.position)..old(s.position) + n];
      case DoSeek(offset) =>
        var at := s.Seek(offset);
      case DoWrite(src) =>
        var was := s.position;
        var count := s.Write(src);
        assert s.Window() == Patch(old(s.Window()), was, src);
    }
  }

  /** Every run of in-bounds calls on a cache shows the bytes underneath. */
  method RunCache(c: StreamCache, ops: seq<Op>) returns (outs: seq<seq<Byte>>)
    requires c.Valid() && Runs(true, ops, CacheView(c))
    modifies c, c.buffer, c.parent, c.parent.parent, c.parent.parent.buffer
    ensures c.Valid() && (CacheView(c), outs) == Run(true, ops, old(CacheView(c)))
  {
    outs := [];
    var i := 0;
    ghost var whole := Run(true, ops, CacheView(c));
    while i < |ops|
      invariant i <= |ops| && c.Valid() && Runs(true, ops[i..], CacheView(c))
      invariant whole.0 == Run(true, ops[i..], CacheView(c)).0
      invariant whole.1 == outs + Run(true, ops[i..], CacheView(c)).1
    {
      assert ops[i..][1..] == ops[i + 1..];
      var out := StepCache(c, ops[i]);
      outs := outs + [out];
      i := i + 1;
    }
    assert ops[i..] == [] && outs + [] == outs;
  }

  /** And every run on the stream without the cache. */
  method RunPlain(s: Substream, ops: seq<Op>) returns (outs: seq<seq<Byte>>)
    requires s.Valid() && Runs(false, ops, PlainView(s))
    modifies s, s.parent, s.parent.buffer
    ensures s.Valid() && (PlainView(s), outs) == Run(false, ops, old(PlainView(s)))
  {
    outs := [];
    var i := 0;
    ghost var whole := Run(false, ops, PlainView(s));
    while i < |ops|
      invariant i <= |ops| && s.Valid() && Runs(false, ops[i..], PlainView(s))
      invariant whole.0 == Run(false, ops[i..], PlainView(s)).0
      invariant whole.1 == outs + Run(false, ops[i..], PlainView(s)).1
    {
      assert ops[i..][1..] == ops[i + 1..];
      var out := StepPlain(s, ops[i]);
      outs := outs + [out];
      i := i + 1;
    }
    assert ops[i..] == [] && outs + [] == outs;
  }

  /** A seek to the end and a non-empty write are where the two differ, and only there. */
  lemma StepsAgree(op: Op, v: View)
    requires InBounds(op, v)
    ensures Step(true, op, v) == Step(false, op, v) <==>
      match op
      case DoRead(_) => true
      case DoSeek(offset) => offset < |v.data| || v.position == |v.data|
      case DoWrite(_) => false
  {
  }

  /** Seeks stay inside, and after a write comes a seek (or nothing). */
  predicate Positioned(ops: seq<Op>, size: nat) {
    ops == [] ||
    match ops[0]
    case DoRead(_) => Positioned(ops[1..], size)
    case DoSeek(offset) => offset < size && Positioned(ops[1..], size)
    case DoWrite(_) => (|ops| > 1 ==> ops[1].DoSeek?) && Positioned(ops[1..], size)
  }

  /** A caller that positions itself after every write cannot tell the cache from the stream. */
  lemma {:induction false} CacheInvisible(ops: seq<Op>, v: View)
    requires Positioned(ops, |v.data|) && Runs(true, ops, v)
    ensures Runs(false, ops, v)
    ensures Run(true, ops, v).1 == Run(false, ops, v).1
    ensures Run(true, ops, v).0.data == Run(false, ops, v).0.data
    ensures ops != [] && !ops[|ops| - 1].DoWrite? ==> Run(true, ops, v).0 == Run(false, ops, v).0
    decreases |ops|
  {
    if ops != [] {
      var v1 := Step(true, ops[0], v).0;
      if ops[0].DoWrite? && |ops| > 1 {
        assert ops[1..][0] == ops[1] && ops[1..][1..] == ops[2..];
        var u1 := Step(false, ops[0], v).0;
        var v2 := Step(true, ops[1], v1).0;
        assert v2 == Step(false, ops[1], u1).0;
        assert Positioned(ops[1..], |v.data|);
        CacheInvisible(ops[2..], v2);
        assert Run(false, ops[1..], u1) == (Run(false, ops[2..], v2).0, [[]] + Run(false, ops[2..], v2).1);
        assert Run(true, ops[1..], v1) == (Run(true, ops[2..], v2).0, [[]] + Run(true, ops[2..], v2).1);
        if |ops| == 2 {
          assert ops[2..] == [];
        } else {
          assert ops[2..][|ops| - 3] == ops[|ops| - 1];
        }
      } else {
        CacheInvisible(ops[1..], v1);
        if |ops| > 1 {
          assert ops[1..][|ops| - 2] == ops[|ops| - 1];
        }
      }
    }
  }

  // ---- Exactly which callers cannot tell the two apart ----

  /** The cached stream at `p`, the other at `u`: whenever bytes are read or written the two stand at
      the same place.  A caller can check this from sizes and offsets alone. */
  predicate Unseen(ops: seq<Op>, p: nat, u: nat, size: nat) {
    ops == [] ||
    match ops[0]
    case DoRead(n) => p == u && Unseen(ops[1..], p + n, u + n, size)
    case DoSeek(offset) => Unseen(ops[1..], SeekTo(Clamp, size, p, offset), SeekTo(Ignore, size, u, offset), size)
    case DoWrite(src) => p == u && Unseen(ops[1..], p, u + |src|, size)
  }

  /** What each call shows: the bytes underneath afterwards, and those it returned. */
  function Trace(cached: bool, ops: seq<Op>, v: View): seq<(seq<Byte>, seq<Byte>)>
    requires Runs(cached, ops, v)
  {
    if ops == [] then []
    else
      var (v1, out) := Step(cached, ops[0], v);
      [(v1.data, out)] + Trace(cached, ops[1..], v1)
  }

  /** The same calls, but for the bytes that are written. */
  predicate SameCall(a: Op, b: Op) {
    if a.DoWrite? then b.DoWrite? && |b.src| == |a.src| else b == a
  }

  predicate SameShape(a: seq<Op>, b: seq<Op>) {
    if a == [] then b == [] else b != [] && SameCall(a[0], b[0]) && SameShape(a[1..], b[1..])
  }

  /** Both streams do these calls from `p` and `u` on, and show the same. */
  predicate SeenAlike(ops: seq<Op>, data: seq<Byte>, p: nat, u: nat)
    requires p <= |data| && u <= |data|
  {
    && Runs(true, ops, RawView.View(data, p)) && Runs(false, ops, RawView.View(data, u))
    && Trace(true, ops, RawView.View(data, p)) == Trace(false, ops, RawView.View(data, u))
  }

  /** Whether a run stays in bounds depends on sizes only. */
  lemma {:induction false} ShapeRuns(cached: bool, a: seq<Op>, b: seq<Op>, v: View, w: View)
    requires SameShape(a, b) && |v.data| == |w.data| && v.position == w.position
    ensures Runs(cached, a, v) <==> Runs(cached, b, w)
    decreases |a|
  {
    if a != [] && InBounds(a[0], v) {
      ShapeRuns(cached, a[1..], b[1..], Step(cached, a[0], v).0, Step(cached, b[0], w).0);
    }
  }

  lemma {:induction false} ShapeUnseen(a: seq<Op>, b: seq<Op>, p: nat, u: nat, size: nat)
    requires SameShape(a, b) && Unseen(a, p, u, size)
    ensures Unseen(b, p, u, size)
    decreases |a|
  {
    if a != [] {
      match a[0]
      case DoRead(n) => ShapeUnseen(a[1..], b[1..], p + n, u + n, size);
      case DoSeek(offset) =>
        ShapeUnseen(a[1..], b[1..], SeekTo(Clamp, size, p, offset), SeekTo(Ignore, size, u, offset), size);
      case DoWrite(src) => ShapeUnseen(a[1..], b[1..], p, u + |src|, size);
    }
  }

  lemma {:induction false} UnseenAlike(ops: seq<Op>, data: seq<Byte>, p: nat, u: nat)
    requires p <= |data| && u <= |data| && Unseen(ops, p, u, |data|) && Runs(true, ops, RawView.View(data, p))
    ensures SeenAlike(ops, data, p, u)
    decreases |ops|
  {
    if ops != [] {
      var v1 := Step(true, ops[0], RawView.View(data, p)).0;
      var w1 := Step(false, ops[0], RawView.View(data, u)).0;
      assert v1.data == w1.data;
      UnseenAlike(ops[1..], v1.data, v1.position, w1.position);
    }
  }

  /** A one among zeros. */
  function Marked(size: nat, at: nat): (data: seq<Byte>)
    ensures |data| == size && forall i | 0 <= i < size :: data[i] == if i == at then 1 else 0
  {
    seq(size, i => if i == at then 1 else 0)
  }

  /** A caller that reads or writes where the two stand apart can tell them apart: there are contents,
      and bytes to write, for which they show different things. */
  lemma {:induction false} Telling(ops: seq<Op>, p: nat, u: nat, size: nat) returns (ops1: seq<Op>, data: seq<Byte>)
    requires p <= size && u <= size && !Unseen(ops, p, u, size)
    requires Runs(true, ops, RawView.View(Marked(size, 0), p)) && Runs(false, ops, RawView.View(Marked(size, 0), u))
    ensures SameShape(ops, ops1) && |data| == size && !SeenAlike(ops1, data, p, u)
    decreases |ops|
  {
    var zeros := Marked(size, 0);
    var v1 := Step(true, ops[0], RawView.View(zeros, p)).0;
    var w1 := Step(false, ops[0], RawView.View(zeros, u)).0;
    var tail: seq<Op>;
    if p == u || ops[0].DoSeek? {
      ShapeRefl(ops[1..]);
      ShapeRuns(true, ops[1..], ops[1..], v1, RawView.View(zeros, v1.position));
      ShapeRuns(false, ops[1..], ops[1..], w1, RawView.View(zeros, w1.position));
      tail, data := Telling(ops[1..], v1.position, w1.position, size);
      var first := if ops[0].DoWrite? then DoWrite(data[p..p + |ops[0].src|]) else ops[0];
      ops1 := [first] + tail;
      FirstAlike(first, tail, data, p, u);
    } else {
      data, tail := Marked(size, if ops[0].DoRead? then p else size), ops[1..];
      var first := if ops[0].DoWrite? then DoWrite(seq(|ops[0].src|, _ => 1)) else ops[0];
      ops1 := [first] + tail;
      ShapeRefl(tail);
      FirstApart(first, tail, data, p, u);
    }
  }

  lemma {:induction false} ShapeRefl(ops: seq<Op>)
    ensures SameShape(ops, ops)
    decreases |ops|
  {
    if ops != [] {
      ShapeRefl(ops[1..]);
    }
  }

  /** The first call shows the same and changes nothing. */
  lemma {:induction false} FirstAlike(first: Op, tail: seq<Op>, data: seq<Byte>, p: nat, u: nat)
    requires p <= |data| && u <= |data| && InBounds(first, RawView.View(data, p))
      && InBounds(first, RawView.View(data, u))
    requires first.DoWrite? ==> first.src == data[p..p + |first.src|]
    requires p == u || first.DoSeek?
    requires
      var v1, w1 := Step(true, first, RawView.View(data, p)).0, Step(false, first, RawView.View(data, u)).0;
      !SeenAlike(tail, data, v1.position, w1.position)
    ensures !SeenAlike([first] + tail, data, p, u)
  {
    var ops := [first] + tail;
    assert ops[0] == first && ops[1..] == tail;
    if first.DoWrite? {
      assert Patch(data, p, first.src) == data;
    }
    if SeenAlike(ops, data, p, u) {
      assert Trace(true, ops, RawView.View(data, p))[1..] == Trace(false, ops, RawView.View(data, u))[1..];
    }
  }

  lemma TraceHead(cached: bool, ops: seq<Op>, v: View)
    requires Runs(cached, ops, v) && ops != []
    ensures
      var (v1, out) := Step(cached, ops[0], v);
      Trace(cached, ops, v) != [] && Trace(cached, ops, v)[0] == (v1.data, out)
  {
  }

  /** The first call shows something else. */
  lemma {:induction false} FirstApart(first: Op, tail: seq<Op>, data: seq<Byte>, p: nat, u: nat)
    requires p <= |data| && u <= |data| && InBounds(first, RawView.View(data, p))
      && InBounds(first, RawView.View(data, u))
    requires p != u && !first.DoSeek?
    requires first.DoRead? ==> data == Marked(|data|, p)
    requires first.DoWrite? ==> data == Marked(|data|, |data|) && first.src == seq(|first.src|, _ => 1)
    ensures !SeenAlike([first] + tail, data, p, u)
  {
    var ops := [first] + tail;
    assert ops[0] == first && ops[1..] == tail;
    var (v1, out) := Step(true, first, RawView.View(data, p));
    var (w1, out1) := Step(false, first, RawView.View(data, u));
    if first.DoRead? {
      assert out[0] == 1 && out1[0] == 0;
    } else {
      var at := if p < u then p else u;
      assert v1.data[at] != w1.data[at];
    }
    if Runs(true, ops, RawView.View(data, p)) && Runs(false, ops, RawView.View(data, u)) {
      TraceHead(true, ops, RawView.View(data, p));
      TraceHead(false, ops, RawView.View(data, u));
    }
  }

  /** A caller cannot tell the cache from the stream, whatever the bytes underneath and the bytes it
      writes, if and only if the two stand at the same place whenever it reads or writes. */
  lemma {:induction false} CacheExact(ops: seq<Op>, size: nat, at: nat)
    requires at <= size && Runs(true, ops, RawView.View(Marked(size, 0), at))
    ensures Unseen(ops, at, at, size) <==>
      forall ops1, data | SameShape(ops, ops1) && |data| == size :: SeenAlike(ops1, data, at, at)
  {
    var zeros := Marked(size, 0);
    if Unseen(ops, at, at, size) {
      forall ops1, data | SameShape(ops, ops1) && |data| == size ensures SeenAlike(ops1, data, at, at) {
        ShapeRuns(true, ops, ops1, RawView.View(zeros, at), RawView.View(data, at));
        ShapeUnseen(ops, ops1, at, at, size);
        UnseenAlike(ops1, data, at, at);
      }
    } else if Runs(false, ops, RawView.View(zeros, at)) {
      var ops1, data := Telling(ops, at, at, size);
    } else {
      ShapeRefl(ops);
      assert !SeenAlike(ops, zeros, at, at);
    }
  }

  /** A caller that positions itself after every write is one of them, and so is one that seeks outside
      and then inside. */
  lemma {:induction false} PositionedUnseen(ops: seq<Op>, p: nat, u: nat, size: nat)
    requires Positioned(ops, size) && (p == u || (ops != [] && ops[0].DoSeek?) || ops == [])
    ensures Unseen(ops, p, u, size)
    decreases |ops|
  {
    if ops != [] {
      match ops[0]
      case DoRead(n) => PositionedUnseen(ops[1..], p + n, u + n, size);
      case DoSeek(offset) => PositionedUnseen(ops[1..], offset, offset, size);
      case DoWrite(src) => PositionedUnseen(ops[1..], p, u + |src|, size);
    }
  }

  lemma OutsideThenInside(p: nat, u: nat, outside: nat, inside: nat, size: nat)
    requires inside < size <= outside
    ensures Unseen([DoSeek(outside), DoSeek(inside)], p, u, size)
    ensures !Positioned([DoSeek(outside), DoSeek(inside)], size)
  {
  }

  /** A write at the very end of three bytes: it lands on the first, where the parent stood. */
  method EndWrite() returns (after: seq<Byte>, count: nat)
    ensures count == 1 && after == [9, 2, 3]
  {
    var memory := new StreamMemory([1, 2, 3]);
    var window := new Substream(memory, 0, 3);
    var cache := new StreamCache(window, 16);
    var at := cache.Seek(3);
    count := cache.Write([9]);
    after := memory.buffer[..];
    assert after == window.Window();
  }
}
