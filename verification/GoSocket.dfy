/**
 The Go AF_XDP socket (go-approach/xdp.go) against an arbitrary kernel: four masked rings over
 uint32 counters that wrap around, two lists of free frames, and the counts of frames in flight.
 The kernel acts between any two steps of the socket that it could notice.

 A frame travels along one of two pipelines: FILL ring, kernel, RX ring; or TX ring, kernel,
 COMPLETION ring. A free list says which frames are outside its pipeline.
 */
module GoSocket {
  import opened Machine
  import opened Rings

  // ----- one ring -----

  /** umemRing and rxTxRing. One side writes slots and then publishes the producer; the other reads
      slots and then publishes the consumer. */
  class Ring<T> {
    const bits: nat
    const descs: array<T>
    var producer: uint32
    var consumer: uint32
    ghost var produced: nat   // everything published by the producer
    ghost var consumed: nat   // everything published by the consumer
    ghost var written: nat    // slots written, published or not
    ghost var taken: nat      // slots read, published or not
    ghost var puts: seq<T>    // everything ever written
    ghost var gets: seq<T>    // everything ever read

    ghost predicate Valid()
      reads this, descs
    {
      && bits <= 31 && descs.Length == Pow2(bits)
      && producer == Wrap(produced) && consumer == Wrap(consumed)
      && consumed <= taken <= produced <= written <= consumed + Pow2(bits)
    }

    /** What is written and not read yet, oldest first. */
    ghost function Queue(): (q: seq<T>)
      requires Valid()
      reads this, descs
      ensures |q| == written - taken
    {
      Window(descs[..], bits, taken, written)
    }

    /** The ring is a FIFO queue: what was read, then what it holds, is what was written. */
    ghost predicate Fifo()
      requires Valid()
      reads this, descs
    {
      puts == gets + Queue()
    }

    constructor (bits: nat, descs: array<T>, start: nat)
      requires bits <= 31 && descs.Length == Pow2(bits)
      ensures Valid() && Queue() == [] && Fifo() && puts == [] && this.bits == bits && this.descs == descs
      ensures written == produced && taken == consumed && produced == consumed == start
    {
      this.bits, this.descs := bits, descs;
      producer, consumer := Wrap(start), Wrap(start);
      produced, consumed, written, taken := start, start, start, start;
      puts, gets := [], [];
    }

    /** NumFreeFillSlots, NumFreeTxSlots: exact for any counters, so the clamp never applies. */
    method NumFree() returns (n: nat)
      requires Valid()
      ensures n == Pow2(bits) - (produced - consumed)
    {
      RingFits(bits);
      WrapDiff(consumed, produced);
      WrapSmall(Pow2(bits) - (produced - consumed));
      hide Pow2, Wrap;
      n := Wrap(Pow2(bits) - Wrap(producer - consumer));
      if n > Pow2(bits) { n := Pow2(bits); }
    }

    /** NumReceived, NumCompleted: exact for any counters of a ring in order, so the clamp never applies then. */
    method NumUsed() returns (n: nat)
      ensures n == Min(Wrap(producer - consumer), Pow2(bits))
      ensures Valid() ==> n == produced - consumed
    {
      if bits <= 31 { RingFits(bits); }
      if consumed <= produced < consumed + WORD32 { WrapDiff(consumed, produced); }
      n := Wrap(producer - consumer);
      if n > Pow2(bits) { n := Pow2(bits); }
    }

    /** Writes the next slot; nothing that is still unread is overwritten. */
    method Put(idx: uint32, v: T)
      requires Valid() && Fifo() && idx == Wrap(written) && written < consumed + Pow2(bits)
      modifies descs, `written, `puts
      ensures Valid() && Fifo() && Queue() == old(Queue()) + [v]
      ensures written == old(written) + 1 && puts == old(puts) + [v] && Wrap(idx + 1) == Wrap(written)
      ensures descs[..] == old(descs[..])[Low(old(written), bits) := v]
    {
      SlotOf(written, bits);
      WriteOutside(descs[..], bits, taken, written, written, v);
      WrapAdd(written, 1);
      ghost var was, q := descs[..], Queue();
      hide Pow2, Window, Wrap;
      var slot := BitAnd(idx, Pow2(bits) - 1);
      descs[slot] := v;
      assert descs[..] == was[slot := v];
      WindowSplit(descs[..], bits, taken, written, written + 1);
      WindowOne(descs[..], bits, written);
      written := written + 1;
      puts := puts + [v];
    }

    method PublishPuts(idx: uint32)
      requires Valid() && Fifo() && idx == Wrap(written)
      modifies `producer, `produced
      ensures Valid() && Fifo() && Queue() == old(Queue()) && produced == written
    {
      producer := idx;
      produced := written;
    }

    /** Reads the next slot, whatever it holds; it is the oldest entry if there is one. */
    method Get(idx: uint32) returns (v: T)
      requires bits <= 31 && descs.Length == Pow2(bits) && idx == Wrap(taken)
      modifies `taken, `gets
      ensures v == descs[Low(old(taken), bits)]
      ensures taken == old(taken) + 1 && gets == old(gets) + [v] && Wrap(idx + 1) == Wrap(taken)
      ensures old(Valid() && Fifo() && taken < produced) ==> Valid() && Fifo() && old(Queue()) == [v] + Queue()
    {
      SlotOf(taken, bits);
      if taken < written { WindowFirst(descs[..], bits, taken, written); }
      WrapAdd(taken, 1);
      hide Pow2, Window, Wrap;
      v := descs[BitAnd(idx, Pow2(bits) - 1)];
      taken := taken + 1;
      gets := gets + [v];
    }

    /** Reads the oldest entry. */
    method GetNext(idx: uint32) returns (v: T)
      requires Valid() && Fifo() && idx == Wrap(taken) && taken < produced
      modifies `taken, `gets
      ensures Valid() && Fifo() && old(Queue()) == [v] + Queue()
      ensures taken == old(taken) + 1 && gets == old(gets) + [v] && Wrap(idx + 1) == Wrap(taken)
    {
      v := Get(idx);
    }

    method PublishGets(idx: uint32)
      requires idx == Wrap(taken)
      modifies `consumer, `consumed
      ensures consumer == Wrap(consumed) && consumed == taken
      ensures old(Valid() && Fifo()) ==> Valid() && Fifo() && Queue() == old(Queue())
    {
      consumer := idx;
      consumed := taken;
    }

    /** The kernel takes the oldest entry. */
    method KernelGet() returns (v: T)
      requires Valid() && Fifo() && taken == consumed < produced
      modifies `consumer, `consumed, `taken, `gets
      ensures Valid() && Fifo() && old(Queue()) == [v] + Queue() && taken == consumed > old(consumed)
    {
      var idx: uint32 := consumer;
      v := GetNext(idx);
      PublishGets(Wrap(idx + 1));
    }

    /** The kernel adds an entry. */
    method KernelPut(v: T)
      requires Valid() && Fifo() && written == produced < consumed + Pow2(bits)
      modifies `producer, `produced, `written, `puts, descs
      ensures Valid() && Fifo() && Queue() == old(Queue()) + [v] && written == produced > old(produced)
      ensures descs[..] == old(descs[..])[Low(old(written), bits) := v]
    {
      var idx: uint32 := producer;
      Put(idx, v);
      PublishPuts(Wrap(idx + 1));
    }
  }

  lemma WrapSmall(x: int)
    requires 0 <= x < WORD32
    ensures Wrap(x) == x
  {
  }

  lemma WindowOne<T>(ring: seq<T>, k: nat, at: nat)
    requires |ring| == Pow2(k)
    ensures Window(ring, k, at, at + 1) == [ring[Low(at, k)]]
  {
  }

  // ----- a pipeline: frames going in, frames held by the kernel, frames coming out -----

  /** The frames of a pipeline, each as often as it is there. */
  ghost function Pipe(into: seq<nat>, held: multiset<nat>, out: seq<nat>): multiset<nat> {
    multiset(into) + held + multiset(out)
  }

  /** A free list is exact: the frames marked as not free are in the pipeline once, and no others are. */
  ghost predicate Exact(free: seq<bool>, pipe: multiset<nat>) {
    forall f: nat :: pipe[f] == if f < |free| && !free[f] then 1 else 0
  }

  lemma PipeSubmitted(into: seq<nat>, held: multiset<nat>, out: seq<nat>, f: nat)
    ensures Pipe(into + [f], held, out) == Pipe(into, held, out) + multiset{f}
  {
  }

  lemma PipeTaken(into: seq<nat>, held: multiset<nat>, out: seq<nat>, f: nat, rest: seq<nat>)
    requires into == [f] + rest
    ensures Pipe(rest, held + multiset{f}, out) == Pipe(into, held, out)
  {
  }

  lemma PipeGiven(into: seq<nat>, held: multiset<nat>, out: seq<nat>, f: nat)
    requires f in held
    ensures f in Pipe(into, held, out) && Pipe(into, held - multiset{f}, out + [f]) == Pipe(into, held, out)
  {
  }

  lemma PipeReturned(into: seq<nat>, held: multiset<nat>, out: seq<nat>, f: nat, rest: seq<nat>)
    requires out == [f] + rest
    ensures f in Pipe(into, held, out) && Pipe(into, held, out) == Pipe(into, held, rest) + multiset{f}
  {
  }

  lemma NothingInFlight(free: seq<bool>)
    requires forall f :: 0 <= f < |free| ==> free[f]
    ensures Exact(free, Pipe([], multiset{}, []))
  {
  }

  // ----- frames of addresses -----

  function Frame(addr: nat, frameSize: nat): nat
    requires frameSize > 0
  {
    addr / frameSize
  }

  ghost function Frames(addrs: seq<nat>, frameSize: nat): (s: seq<nat>)
    requires frameSize > 0
    ensures |s| == |addrs|
  {
    seq(|addrs|, i requires 0 <= i < |addrs| => Frame(addrs[i], frameSize))
  }

  lemma FramesSnoc(s: seq<nat>, a: nat, frameSize: nat)
    requires frameSize > 0
    ensures Frames(s + [a], frameSize) == Frames(s, frameSize) + [Frame(a, frameSize)]
  {
  }

  lemma FramesCons(a: nat, s: seq<nat>, frameSize: nat)
    requires frameSize > 0
    ensures Frames([a] + s, frameSize) == [Frame(a, frameSize)] + Frames(s, frameSize)
  {
  }

  lemma FrameStart(f: nat, frameSize: nat, offset: nat)
    requires offset < frameSize
    ensures Frame(f * frameSize + offset, frameSize) == f
  {
    var x := f * frameSize + offset;
    var q, r := x / frameSize, x % frameSize;
    assert x == q * frameSize + r;
    if q < f { Scaled(q, f, frameSize); } else if q > f { Scaled(f, q, frameSize); }
  }

  lemma Scaled(a: nat, b: nat, k: nat)
    requires a < b
    ensures a * k + k <= b * k
  {
    assert b * k == a * k + (b - a) * k;
    assert (b - a) * k == k + (b - a - 1) * k;
  }

  /** Descriptors an application may submit: of different frames, all marked free. */
  predicate Usable(ds: seq<Desc>, free: seq<bool>, frameSize: nat)
    requires frameSize > 0
  {
    && (forall i :: 0 <= i < |ds| ==> Frame(ds[i].addr, frameSize) < |free| && free[Frame(ds[i].addr, frameSize)])
    && (forall i, j :: 0 <= i < j < |ds| ==> Frame(ds[i].addr, frameSize) != Frame(ds[j].addr, frameSize))
  }

  ghost predicate Holds(ds: seq<Desc>, f: nat, frameSize: nat)
    requires frameSize > 0
  {
    exists i :: 0 <= i < |ds| && Frame(ds[i].addr, frameSize) == f
  }

  /** `free'` marks the frames of `ds` as used and is otherwise `free`. */
  ghost predicate MarkedUsed(free: seq<bool>, free': seq<bool>, ds: seq<Desc>, frameSize: nat)
    requires frameSize > 0
  {
    |free'| == |free| && forall f :: 0 <= f < |free| ==> (free'[f] <==> free[f] && !Holds(ds, f, frameSize))
  }

  /** `free'` marks the frames of `ds` as free and is otherwise `free`. */
  ghost predicate MarkedFree(free: seq<bool>, free': seq<bool>, ds: seq<Desc>, frameSize: nat)
    requires frameSize > 0
  {
    |free'| == |free| && forall f :: 0 <= f < |free| ==> (free'[f] <==> free[f] || Holds(ds, f, frameSize))
  }

  lemma HoldsSnoc(ds: seq<Desc>, d: Desc, f: nat, frameSize: nat)
    requires frameSize > 0
    ensures Holds(ds + [d], f, frameSize) <==> Holds(ds, f, frameSize) || f == Frame(d.addr, frameSize)
  {
    var s := ds + [d];
    assert s[|ds|] == d;
    if Holds(ds, f, frameSize) {
      var i :| 0 <= i < |ds| && Frame(ds[i].addr, frameSize) == f;
      assert s[i] == ds[i];
    }
  }

  lemma MarkOne(free: seq<bool>, free': seq<bool>, ds: seq<Desc>, d: Desc, frameSize: nat)
    requires frameSize > 0 && MarkedUsed(free, free', ds, frameSize) && Frame(d.addr, frameSize) < |free|
    ensures MarkedUsed(free, free'[Frame(d.addr, frameSize) := false], ds + [d], frameSize)
  {
    forall f | 0 <= f < |free|
      ensures free'[Frame(d.addr, frameSize) := false][f] <==> free[f] && !Holds(ds + [d], f, frameSize)
    {
      HoldsSnoc(ds, d, f, frameSize);
    }
  }

  lemma FreeOne(free: seq<bool>, free': seq<bool>, ds: seq<Desc>, d: Desc, frameSize: nat)
    requires frameSize > 0 && MarkedFree(free, free', ds, frameSize) && Frame(d.addr, frameSize) < |free|
    ensures MarkedFree(free, free'[Frame(d.addr, frameSize) := true], ds + [d], frameSize)
  {
    forall f | 0 <= f < |free|
      ensures free'[Frame(d.addr, frameSize) := true][f] <==> free[f] || Holds(ds + [d], f, frameSize)
    {
      HoldsSnoc(ds, d, f, frameSize);
    }
  }

  /** The frames of some descriptors, each as often as it occurs. */
  ghost function Bag(ds: seq<Desc>, frameSize: nat): multiset<nat>
    requires frameSize > 0
  {
    multiset(Frames(Addrs(ds), frameSize))
  }

  predicate InRange(ds: seq<Desc>, numFrames: nat, frameSize: nat)
    requires frameSize > 0
  {
    forall i :: 0 <= i < |ds| ==> Frame(ds[i].addr, frameSize) < numFrames
  }

  lemma BagSnoc(ds: seq<Desc>, d: Desc, frameSize: nat)
    requires frameSize > 0
    ensures Bag(ds + [d], frameSize) == Bag(ds, frameSize) + multiset{Frame(d.addr, frameSize)}
  {
    hide Frames, Frame, Addrs;
    AddrsSnoc(ds, d);
    FramesSnoc(Addrs(ds), d.addr, frameSize);
  }

  lemma BagAt(ds: seq<Desc>, frameSize: nat)
    requires frameSize > 0
    ensures |Frames(Addrs(ds), frameSize)| == |ds|
    ensures forall i :: 0 <= i < |ds| ==> Frames(Addrs(ds), frameSize)[i] == Frame(ds[i].addr, frameSize)
  {
    hide Frame;
  }

  lemma BagHolds(ds: seq<Desc>, frameSize: nat, f: nat)
    requires frameSize > 0
    ensures f in Bag(ds, frameSize) <==> Holds(ds, f, frameSize)
  {
    BagAt(ds, frameSize);
    hide Frame, Frames, Addrs;
    var fs := Frames(Addrs(ds), frameSize);
    assert f in multiset(fs) <==> f in fs;
    if Holds(ds, f, frameSize) {
      var i :| 0 <= i < |ds| && Frame(ds[i].addr, frameSize) == f;
      assert fs[i] == f;
    }
  }

  lemma {:induction false} DistinctOnce(s: seq<nat>, x: nat)
    requires forall i, j :: 0 <= i < j < |s| ==> s[i] != s[j]
    ensures multiset(s)[x] <= 1
    decreases |s|
  {
    if s != [] {
      var n := |s| - 1;
      assert s == s[..n] + [s[n]];
      DistinctOnce(s[..n], x);
      if x == s[n] { assert x !in s[..n]; }
    }
  }

  lemma RepeatedTwice(s: seq<nat>, i: nat, j: nat)
    requires i < j < |s| && s[i] == s[j]
    ensures multiset(s)[s[i]] >= 2
  {
    assert s == s[..j] + [s[j]] + s[j + 1..];
    assert s[i] in s[..j];
    assert s[i] in multiset(s[..j]);
  }

  lemma UsableBag(ds: seq<Desc>, free: seq<bool>, frameSize: nat)
    requires frameSize > 0 && InRange(ds, |free|, frameSize)
    ensures Usable(ds, free, frameSize) <==>
            forall f: nat :: f in Bag(ds, frameSize) ==> Bag(ds, frameSize)[f] == 1 && f < |free| && free[f]
  {
    BagAt(ds, frameSize);
    hide Frame, Frames, Addrs;
    var fs := Frames(Addrs(ds), frameSize);
    if Usable(ds, free, frameSize) {
      forall f: nat | f in Bag(ds, frameSize) ensures Bag(ds, frameSize)[f] == 1 && f < |free| && free[f] {
        DistinctOnce(fs, f);
        BagHolds(ds, frameSize, f);
      }
    } else if forall f: nat :: f in Bag(ds, frameSize) ==> Bag(ds, frameSize)[f] == 1 && f < |free| && free[f] {
      forall i | 0 <= i < |ds| ensures free[Frame(ds[i].addr, frameSize)] {
        assert fs[i] in fs && fs[i] in multiset(fs);
      }
      forall i, j | 0 <= i < j < |ds| ensures Frame(ds[i].addr, frameSize) != Frame(ds[j].addr, frameSize) {
        if fs[i] == fs[j] { RepeatedTwice(fs, i, j); }
      }
    }
  }

  /** Submitting descriptors keeps a free list exact if and only if they are of different frames, all free. */
  lemma SubmitExactly(free: seq<bool>, free': seq<bool>, pipe: multiset<nat>, ds: seq<Desc>, frameSize: nat)
    requires frameSize > 0 && InRange(ds, |free|, frameSize) && Exact(free, pipe) && MarkedUsed(free, free', ds, frameSize)
    ensures Exact(free', pipe + Bag(ds, frameSize)) <==> Usable(ds, free, frameSize)
  {
    hide Bag, Usable, Frame, Holds, InRange;
    var bag := Bag(ds, frameSize);
    UsableBag(ds, free, frameSize);
    forall f: nat ensures f in bag <==> Holds(ds, f, frameSize) { BagHolds(ds, frameSize, f); }
    if Usable(ds, free, frameSize) {
      forall f: nat ensures (pipe + bag)[f] == if f < |free'| && !free'[f] then 1 else 0 {
        assert pipe[f] == if f < |free| && !free[f] then 1 else 0;
        assert f in bag ==> bag[f] == 1;
      }
    }
    if Exact(free', pipe + bag) {
      forall f: nat | f in bag ensures bag[f] == 1 && f < |free| && free[f] {
        assert pipe[f] == if f < |free| && !free[f] then 1 else 0;
        assert (pipe + bag)[f] == if f < |free'| && !free'[f] then 1 else 0;
      }
    }
  }

  /** What comes back was marked used; marking it free keeps the list exact and the descriptors usable again. */
  lemma ReturnExactly(free: seq<bool>, free': seq<bool>, pipe: multiset<nat>, ds: seq<Desc>, frameSize: nat)
    requires frameSize > 0 && Exact(free, pipe + Bag(ds, frameSize)) && MarkedFree(free, free', ds, frameSize)
    ensures Exact(free', pipe) && Usable(ds, free', frameSize)
    ensures forall i :: 0 <= i < |ds| ==> Frame(ds[i].addr, frameSize) < |free| && !free[Frame(ds[i].addr, frameSize)]
  {
    hide Bag, Usable, Frame;
    var bag := Bag(ds, frameSize);
    forall f: nat ensures f in bag <==> Holds(ds, f, frameSize) { BagHolds(ds, frameSize, f); }
    forall f: nat ensures pipe[f] == if f < |free'| && !free'[f] then 1 else 0 {
      assert (pipe + bag)[f] == if f < |free| && !free[f] then 1 else 0;
    }
    forall i | 0 <= i < |ds| ensures Frame(ds[i].addr, frameSize) < |free| && !free[Frame(ds[i].addr, frameSize)] {
      var f := Frame(ds[i].addr, frameSize);
      assert Holds(ds, f, frameSize);
      assert (pipe + bag)[f] == if f < |free| && !free[f] then 1 else 0;
    }
    forall f: nat | f in bag ensures bag[f] == 1 && f < |free'| && free'[f] {
      assert (pipe + bag)[f] == if f < |free| && !free[f] then 1 else 0;
    }
    UsableBag(ds, free', frameSize);
  }

  // ----- looking for free frames -----

  /** `ds` describes the lowest free frames from `from` up to but not including `to`, at most `limit` of them, each once. */
  ghost predicate LowestFree(ds: seq<Desc>, free: seq<bool>, from: nat, to: nat, limit: nat, frameSize: nat)
    requires frameSize > 0 && to <= |free|
  {
    && |ds| <= limit
    && (forall k :: 0 <= k < |ds| ==> IsFree(ds[k], free, from, to, frameSize))
    && (forall j, k :: 0 <= j < k < |ds| ==> Frame(ds[j].addr, frameSize) < Frame(ds[k].addr, frameSize))
    && (forall f :: from <= f < to && free[f] ==> Holds(ds, f, frameSize) || (|ds| == limit && Above(f, ds, frameSize)))
  }

  ghost predicate IsFree(d: Desc, free: seq<bool>, from: nat, to: nat, frameSize: nat)
    requires frameSize > 0 && to <= |free|
  {
    var f := Frame(d.addr, frameSize);
    from <= f < to && free[f] && d == Desc(f * frameSize, frameSize)
  }

  ghost predicate Above(f: nat, ds: seq<Desc>, frameSize: nat)
    requires frameSize > 0
  {
    forall k :: 0 <= k < |ds| ==> Frame(ds[k].addr, frameSize) < f
  }

  lemma LowestSkip(ds: seq<Desc>, free: seq<bool>, from: nat, to: nat, limit: nat, frameSize: nat)
    requires frameSize > 0 && to < |free| && LowestFree(ds, free, from, to, limit, frameSize) && !free[to]
    ensures LowestFree(ds, free, from, to + 1, limit, frameSize)
  {
    hide Frame, Holds, Above;
  }

  lemma LowestTake(ds: seq<Desc>, free: seq<bool>, from: nat, to: nat, limit: nat, frameSize: nat)
    requires frameSize > 0 && from <= to < |free| && LowestFree(ds, free, from, to, limit, frameSize) && free[to] && |ds| < limit
    ensures LowestFree(ds + [Desc(to * frameSize, frameSize)], free, from, to + 1, limit, frameSize)
  {
    FrameStart(to, frameSize, 0);
    hide Frame;
    var d := Desc(to * frameSize, frameSize);
    var s := ds + [d];
    forall k | 0 <= k < |s| ensures IsFree(s[k], free, from, to + 1, frameSize) {
      assert k < |ds| ==> s[k] == ds[k] && IsFree(ds[k], free, from, to, frameSize);
    }
    forall f | from <= f < to + 1 && free[f] ensures Holds(s, f, frameSize) { HoldsSnoc(ds, d, f, frameSize); }
  }

  lemma LowestFull(ds: seq<Desc>, free: seq<bool>, from: nat, to: nat, end: nat, limit: nat, frameSize: nat)
    requires frameSize > 0 && to <= end <= |free| && LowestFree(ds, free, from, to, limit, frameSize) && (|ds| == limit || to == end)
    ensures LowestFree(ds, free, from, end, limit, frameSize)
  {
    hide Frame, Holds;
    forall k | 0 <= k < |ds| ensures IsFree(ds[k], free, from, end, frameSize) {
      assert IsFree(ds[k], free, from, to, frameSize);
    }
    forall f | to <= f < end ensures |ds| == limit && Above(f, ds, frameSize) {
      forall k | 0 <= k < |ds| ensures Frame(ds[k].addr, frameSize) < f { assert IsFree(ds[k], free, from, to, frameSize); }
    }
  }

  lemma LowestUsable(ds: seq<Desc>, free: seq<bool>, from: nat, to: nat, limit: nat, frameSize: nat)
    requires frameSize > 0 && to <= |free| && LowestFree(ds, free, from, to, limit, frameSize)
    ensures Usable(ds, free, frameSize)
  {
    hide Holds, Above;
    forall k | 0 <= k < |ds| ensures Frame(ds[k].addr, frameSize) < |free| && free[Frame(ds[k].addr, frameSize)] {
      assert IsFree(ds[k], free, from, to, frameSize);
    }
  }

  lemma {:induction false} IndexBelowFrame(ds: seq<Desc>, free: seq<bool>, from: nat, to: nat, limit: nat, frameSize: nat, k: nat)
    requires frameSize > 0 && to <= |free| && LowestFree(ds, free, from, to, limit, frameSize) && k < |ds|
    ensures Frame(ds[k].addr, frameSize) >= k
    decreases k
  {
    hide Frame, Holds, Above, IsFree;
    if k > 0 { IndexBelowFrame(ds, free, from, to, limit, frameSize, k - 1); }
  }

  /** Asking for as many as there are gives all. */
  lemma AllFree(ds: seq<Desc>, free: seq<bool>, to: nat, frameSize: nat, f: nat)
    requires frameSize > 0 && f < to <= |free| && LowestFree(ds, free, 0, to, to, frameSize) && free[f]
    ensures Holds(ds, f, frameSize)
  {
    hide Frame, Holds, IsFree;
    if |ds| == to { IndexBelowFrame(ds, free, 0, to, to, frameSize, to - 1); }
  }

  /** How many frames of a range are free. */
  ghost function CountFree(free: seq<bool>, from: nat, end: nat): nat
    requires end <= |free|
    decreases end
  {
    if end <= from then 0 else CountFree(free, from, end - 1) + if free[end - 1] then 1 else 0
  }

  lemma {:induction false} CountMonotone(free: seq<bool>, from: nat, a: nat, b: nat)
    requires a <= b <= |free|
    ensures CountFree(free, from, a) <= CountFree(free, from, b)
    decreases b
  {
    if a < b { CountMonotone(free, from, a, b - 1); }
  }

  /** The first `n` free frames of a range; None is the index panic, exactly when the range goes past the end of
      the list and too few frames before that are free. */
  method FindFree(free: array<bool>, start: nat, end: nat, n: int, frameSize: nat) returns (r: Option<seq<Desc>>)
    requires frameSize > 0
    ensures r.None? <==> start < end && free.Length < end && CountFree(free[..], start, free.Length) < n
    ensures r.Some? ==> LowestFree(r.value, free[..], start, Min(end, free.Length), if n < 0 then 0 else n, frameSize)
  {
    hide LowestFree, Frame;
    ghost var limit: nat := if n < 0 then 0 else n;
    var i, j, descs := start, 0, [];
    LowestNone(free[..], start, Min(start, free.Length), limit, frameSize);
    while i < end && j < n
      invariant start <= i && (start < end ==> i <= end) && (start >= end ==> i == start) && (i <= free.Length || i == start)
      invariant j == |descs| == CountFree(free[..], start, Min(i, free.Length)) && (n >= 0 ==> j <= n) && (n < 0 ==> j == 0)
      invariant LowestFree(descs, free[..], start, Min(i, free.Length), limit, frameSize)
    {
      if i >= free.Length { return None; }
      if free[i] {
        LowestTake(descs, free[..], start, i, limit, frameSize);
        descs := descs + [Desc(i * frameSize, frameSize)];
        j := j + 1;
      } else {
        LowestSkip(descs, free[..], start, i, limit, frameSize);
      }
      i := i + 1;
    }
    if start >= end {
      LowestNone(free[..], start, Min(end, free.Length), limit, frameSize);
      assert descs == [];
    } else {
      LowestFull(descs, free[..], start, Min(i, free.Length), Min(end, free.Length), limit, frameSize);
      CountMonotone(free[..], start, Min(i, free.Length), free.Length);
    }
    r := Some(descs);
  }

  lemma LowestNone(free: seq<bool>, from: nat, to: nat, limit: nat, frameSize: nat)
    requires frameSize > 0 && to <= from && to <= |free|
    ensures LowestFree([], free, from, to, limit, frameSize)
  {
  }

  predicate Below(ds: seq<Desc>, side: nat, frameSize: nat)
    requires frameSize > 0
  {
    forall i :: 0 <= i < |ds| ==> Frame(ds[i].addr, frameSize) < side
  }

  predicate NotBelow(ds: seq<Desc>, side: nat, frameSize: nat)
    requires frameSize > 0
  {
    forall i :: 0 <= i < |ds| ==> Frame(ds[i].addr, frameSize) >= side
  }

  /** What a ring holds at `n` slots from a counter on, published or not. */
  ghost function SlotDescs(slots: seq<nat>, bits: nat, start: nat, n: nat): seq<Desc>
    requires |slots| == Pow2(bits)
  {
    seq(n, i requires 0 <= i < n => Desc(slots[Low(start + i, bits)], 0))
  }

  lemma SlotSnoc(slots: seq<nat>, bits: nat, start: nat, n: nat)
    requires |slots| == Pow2(bits)
    ensures SlotDescs(slots, bits, start, n + 1) == SlotDescs(slots, bits, start, n) + [Desc(slots[Low(start + n, bits)], 0)]
  {
  }

  /** Only frames below `side` are in use for reception, only the others for transmission. */
  ghost predicate OnSides(freeRX: seq<bool>, freeTX: seq<bool>, side: nat) {
    && (forall f :: 0 <= f < |freeRX| && !freeRX[f] ==> f < side)
    && (forall f :: 0 <= f < |freeTX| && !freeTX[f] ==> f >= side)
  }

  /** Calls of an application with any arguments. */
  datatype AppStep = FillStep(descs: seq<Desc>) | ReceiveStep(num: int) | TransmitStep(descs: seq<Desc>) | CompleteStep(n: int)

  /** What a call found and did: whether its arguments keep to the rules, how many slots or entries were ready for it, and
      the descriptors it moved. */
  datatype Done = Done(allowed: bool, ready: nat, descs: seq<Desc>)

  /** All that was ever filled, received, transmitted and completed. */
  datatype Logs = Logs(filled: seq<nat>, received: seq<Desc>, sent: seq<Desc>, completed: seq<nat>)

  /** What one call adds to the logs: as many descriptors as are given and ready, none if they break the rules, and exactly
      the completions asked for, if there are so many. */
  ghost predicate StepDone(step: AppStep, r: Done, a: Logs, b: Logs) {
    match step
    case FillStep(descs) => r.descs == (if r.allowed then descs[..Min(|descs|, r.ready)] else []) && b == a.(filled := a.filled + Addrs(r.descs))
    case ReceiveStep(num) => |r.descs| == (if num < 0 then 0 else Min(num, r.ready)) && b == a.(received := a.received + r.descs)
    case TransmitStep(descs) => r.descs == (if r.allowed then descs[..Min(|descs|, r.ready)] else []) && b == a.(sent := a.sent + r.descs)
    case CompleteStep(n) =>
      (r.allowed <==> 0 <= n <= r.ready) && b == a.(completed := b.completed) && a.completed <= b.completed &&
      |b.completed| == |a.completed| + if r.allowed then n else 0
  }

  /** The calls of a script, one after the other. */
  ghost predicate ScriptDone(script: seq<AppStep>, results: seq<Done>, trace: seq<Logs>) {
    |results| == |script| && |trace| == |script| + 1 && forall i :: 0 <= i < |script| ==> StepDone(script[i], results[i], trace[i], trace[i + 1])
  }

  lemma ScriptNext(script: seq<AppStep>, i: nat, results: seq<Done>, trace: seq<Logs>, r: Done, log: Logs)
    requires i < |script| && ScriptDone(script[..i], results, trace) && StepDone(script[i], r, trace[i], log)
    ensures ScriptDone(script[..i + 1], results + [r], trace + [log])
  {
    hide StepDone;
    var rs, t := results + [r], trace + [log];
    forall k | 0 <= k < i + 1 ensures StepDone(script[..i + 1][k], rs[k], t[k], t[k + 1]) {
      if k < i { assert StepDone(script[..i][k], results[k], trace[k], trace[k + 1]); }
    }
  }

  class Socket {
    const numFrames: nat
    const frameSize: nat
    const fill: Ring<nat>
    const rx: Ring<Desc>
    const tx: Ring<Desc>
    const comp: Ring<nat>
    const freeRX: array<bool>
    const freeTX: array<bool>
    var numFilled: int
    var numTransmitted: int

    const kernel: nat -> seq<KernelStep>   // what the kernel does at each interleaving point
    var clock: nat
    var kernelRx: multiset<nat>            // frames the kernel holds for reception
    var kernelTx: multiset<nat>            // frames the kernel is sending

    ghost var filling: int    // frames in flight for reception that numFilled does not count yet
    ghost var sending: int

    ghost predicate Separate() {
      && fill != comp && rx != tx && fill.descs != comp.descs && rx.descs != tx.descs && freeRX != freeTX
      && (fill as object) != rx && (fill as object) != tx && (comp as object) != rx && (comp as object) != tx
      && (fill.descs as object) != rx.descs && (fill.descs as object) != tx.descs
      && (comp.descs as object) != rx.descs && (comp.descs as object) != tx.descs
      && (freeRX as object) != fill.descs && (freeRX as object) != comp.descs
      && (freeRX as object) != rx.descs && (freeRX as object) != tx.descs
      && (freeTX as object) != fill.descs && (freeTX as object) != comp.descs
      && (freeTX as object) != rx.descs && (freeTX as object) != tx.descs
    }

    ghost predicate RingsOk()
      reads fill, rx, tx, comp, fill.descs, rx.descs, tx.descs, comp.descs
    {
      && fill.Valid() && rx.Valid() && tx.Valid() && comp.Valid()
      && fill.Fifo() && rx.Fifo() && tx.Fifo() && comp.Fifo()
      && fill.taken == fill.consumed && tx.taken == tx.consumed
      && rx.written == rx.produced && comp.written == comp.produced
      && freeRX.Length == freeTX.Length == numFrames && frameSize > 0
    }

    /** The frames between the application's FILL and the application's RECEIVE. */
    ghost function RxPipe(): multiset<nat>
      requires fill.Valid() && rx.Valid() && frameSize > 0
      reads `kernelRx, fill, rx, fill.descs, rx.descs
    {
      Pipe(Frames(fill.Queue(), frameSize), kernelRx, Frames(Addrs(rx.Queue()), frameSize))
    }

    /** The frames between the application's TRANSMIT and the application's COMPLETE. */
    ghost function TxPipe(): multiset<nat>
      requires tx.Valid() && comp.Valid() && frameSize > 0
      reads `kernelTx, tx, comp, tx.descs, comp.descs
    {
      Pipe(Frames(Addrs(tx.Queue()), frameSize), kernelTx, Frames(comp.Queue(), frameSize))
    }

    ghost predicate RxExact()
      requires fill.Valid() && rx.Valid() && frameSize > 0
      reads `kernelRx, fill, rx, fill.descs, rx.descs, freeRX
    {
      Exact(freeRX[..], RxPipe())
    }

    ghost predicate TxExact()
      requires tx.Valid() && comp.Valid() && frameSize > 0
      reads `kernelTx, tx, comp, tx.descs, comp.descs, freeTX
    {
      Exact(freeTX[..], TxPipe())
    }

    ghost predicate Real(pipe: multiset<nat>) { forall f: nat :: f in pipe ==> f < numFrames }

    lemma RealMore(pipe: multiset<nat>, f: nat)
      requires Real(pipe) && f < numFrames
      ensures Real(pipe + multiset{f})
    {
    }

    lemma RealLess(pipe: multiset<nat>, f: nat)
      requires Real(pipe + multiset{f})
      ensures Real(pipe) && f < numFrames
    {
      assert f in pipe + multiset{f};
      forall g: nat | g in pipe ensures g < numFrames { assert g in pipe + multiset{f}; }
    }

    /** Every slot of the COMPLETION ring holds an address of some frame, be it stale. */
    ghost predicate SlotsReal()
      requires frameSize > 0
      reads comp.descs
    {
      forall i :: 0 <= i < comp.descs.Length ==> Frame(comp.descs[i], frameSize) < numFrames
    }

    /** The rings are in order and both counts are the numbers of frames in flight, whatever the free lists say. */
    ghost predicate Ok()
      reads `numFilled, `numTransmitted, `filling, `sending, `kernelRx, `kernelTx
      reads fill, rx, tx, comp, fill.descs, rx.descs, tx.descs, comp.descs
    {
      && Separate() && RingsOk() && Real(RxPipe()) && Real(TxPipe()) && SlotsReal()
      && numFilled + filling == |fill.Queue()| + |kernelRx| + |rx.Queue()|
      && numTransmitted + sending == |tx.Queue()| + |kernelTx| + |comp.Queue()|
    }

    /** Moreover both free lists are exact. */
    ghost predicate Valid()
      reads `numFilled, `numTransmitted, `filling, `sending, `kernelRx, `kernelTx
      reads fill, rx, tx, comp, fill.descs, rx.descs, tx.descs, comp.descs, freeRX, freeTX
    {
      Ok() && RxExact() && TxExact()
    }

    /** Over four empty rings, whatever their counters, every frame is free. */
    constructor (numFrames: nat, frameSize: nat, fill: Ring<nat>, rx: Ring<Desc>, tx: Ring<Desc>, comp: Ring<nat>,
                 kernel: nat -> seq<KernelStep>)
      requires frameSize > 0 && fill.Valid() && rx.Valid() && tx.Valid() && comp.Valid()
      requires fill.Fifo() && rx.Fifo() && tx.Fifo() && comp.Fifo()
      requires fill.Queue() == [] && rx.Queue() == [] && tx.Queue() == [] && comp.Queue() == []
      requires fill.taken == fill.consumed && tx.taken == tx.consumed && rx.taken == rx.consumed && comp.taken == comp.consumed
      requires fill.written == fill.produced && tx.written == tx.produced
      requires rx.written == rx.produced && comp.written == comp.produced
      requires fill != comp && rx != tx && fill.descs != comp.descs && rx.descs != tx.descs
      requires (fill as object) != rx && (fill as object) != tx && (comp as object) != rx && (comp as object) != tx
      requires (fill.descs as object) != rx.descs && (fill.descs as object) != tx.descs
      requires (comp.descs as object) != rx.descs && (comp.descs as object) != tx.descs
      requires forall i :: 0 <= i < comp.descs.Length ==> Frame(comp.descs[i], frameSize) < numFrames
      ensures Valid() && Settled() && Sided() && numFilled == numTransmitted == 0
      ensures this.fill == fill && this.rx == rx && this.tx == tx && this.comp == comp
      ensures this.numFrames == numFrames && this.frameSize == frameSize && this.kernel == kernel && fresh(freeRX) && fresh(freeTX)
      ensures forall f :: 0 <= f < numFrames ==> freeRX[f] && freeTX[f]
    {
      this.numFrames, this.frameSize := numFrames, frameSize;
      this.fill, this.rx, this.tx, this.comp := fill, rx, tx, comp;
      freeRX, freeTX := new bool[numFrames](_ => true), new bool[numFrames](_ => true);
      numFilled, numTransmitted, filling, sending := 0, 0, 0, 0;
      this.kernel, clock, kernelRx, kernelTx := kernel, 0, multiset{}, multiset{};
      new;
      hide Frames, Frame, Addrs, Pow2, Window, Wrap, Ring.Valid, Ring.Fifo, RxPipe, TxPipe, RxExact, TxExact, Real, SlotsReal, OnSides, Ring.Queue;
      assert SlotsReal() by { SlotsAre(comp.descs, numFrames, frameSize); }
      Started();
    }

    lemma SlotsAre(slots: array<nat>, numFrames: nat, frameSize: nat)
      requires slots == comp.descs && numFrames == this.numFrames && frameSize == this.frameSize > 0
      requires forall i :: 0 <= i < slots.Length ==> Frame(slots[i], frameSize) < numFrames
      ensures SlotsReal()
    {
    }

    lemma Started()
      requires RingsOk() && kernelRx == multiset{} && kernelTx == multiset{}
      requires fill.Queue() == [] && rx.Queue() == [] && tx.Queue() == [] && comp.Queue() == []
      requires forall f :: 0 <= f < numFrames ==> freeRX[f] && freeTX[f]
      ensures RxExact() && TxExact() && Real(RxPipe()) && Real(TxPipe()) && Sided()
    {
      hide Exact, Frames, Frame, Addrs, Pow2, Window, Wrap, Ring.Valid, Ring.Fifo, Pipe, Real;
      NothingInFlight(freeRX[..]);
      NothingInFlight(freeTX[..]);
      NoFrames(frameSize);
      RealNone();
    }

    lemma RealNone()
      ensures Real(Pipe([], multiset{}, []))
    {
    }

    /** No call is under way: everything written or read is published and counted. */
    ghost predicate Settled()
      reads `filling, `sending, fill, rx, tx, comp
    {
      && fill.written == fill.produced && tx.written == tx.produced
      && rx.taken == rx.consumed && comp.taken == comp.consumed && filling == sending == 0
    }

    // ----- the kernel moves frames along the pipelines -----

    method KernelTakeFill()
      requires Ok() && fill.produced > fill.consumed
      modifies fill`consumer, fill`consumed, fill`taken, fill`gets, `kernelRx
      ensures Ok() && RxPipe() == old(RxPipe()) && fill.consumed > old(fill.consumed)
    {
      hide Frames, Frame, Addrs, Pow2, Low, Window, Wrap, Ring.Valid, Ring.Fifo, Pipe, TxPipe, Real;
      ghost var q := fill.Queue();
      var a := fill.KernelGet();
      FramesCons(a, fill.Queue(), frameSize);
      PipeTaken(Frames(q, frameSize), kernelRx, Frames(Addrs(rx.Queue()), frameSize),
                Frame(a, frameSize), Frames(fill.Queue(), frameSize));
      kernelRx := kernelRx + multiset{Frame(a, frameSize)};
    }

    method KernelDeliver(frame: nat, offset: nat, len: nat)
      requires Ok() && frame in kernelRx && offset < frameSize && rx.written < rx.consumed + Pow2(rx.bits)
      modifies rx`producer, rx`produced, rx`written, rx`puts, rx.descs, `kernelRx
      ensures Ok() && RxPipe() == old(RxPipe()) && rx.produced > old(rx.produced)
    {
      hide Frames, Frame, Addrs, Pow2, Low, Window, Wrap, Ring.Valid, Ring.Fifo, Pipe, TxPipe, Real;
      ghost var q := rx.Queue();
      var d := Desc(frame * frameSize + offset, len);
      rx.KernelPut(d);
      FrameStart(frame, frameSize, offset);
      AddrsSnoc(q, d);
      FramesSnoc(Addrs(q), d.addr, frameSize);
      PipeGiven(Frames(fill.Queue(), frameSize), kernelRx, Frames(Addrs(q), frameSize), frame);
      kernelRx := kernelRx - multiset{frame};
    }

    method KernelTakeTx()
      requires Ok() && tx.produced > tx.consumed
      modifies tx`consumer, tx`consumed, tx`taken, tx`gets, `kernelTx
      ensures Ok() && TxPipe() == old(TxPipe()) && tx.consumed > old(tx.consumed)
    {
      hide Frames, Frame, Addrs, Pow2, Low, Window, Wrap, Ring.Valid, Ring.Fifo, Pipe, RxPipe, Real;
      ghost var q := tx.Queue();
      var d := tx.KernelGet();
      AddrsCons(d, tx.Queue());
      FramesCons(d.addr, Addrs(tx.Queue()), frameSize);
      PipeTaken(Frames(Addrs(q), frameSize), kernelTx, Frames(comp.Queue(), frameSize),
                Frame(d.addr, frameSize), Frames(Addrs(tx.Queue()), frameSize));
      kernelTx := kernelTx + multiset{Frame(d.addr, frameSize)};
    }

    method KernelComplete(frame: nat, offset: nat)
      requires Ok() && frame in kernelTx && offset < frameSize && comp.written < comp.consumed + Pow2(comp.bits)
      modifies comp`producer, comp`produced, comp`written, comp`puts, comp.descs, `kernelTx
      ensures Ok() && TxPipe() == old(TxPipe()) && comp.produced > old(comp.produced)
    {
      hide Frames, Frame, Addrs, Pow2, Low, Window, Wrap, Ring.Valid, Ring.Fifo, Pipe, RxPipe;
      ghost var q, slots := comp.Queue(), comp.descs[..];
      var a := frame * frameSize + offset;
      PipeGiven(Frames(Addrs(tx.Queue()), frameSize), kernelTx, Frames(q, frameSize), frame);
      FrameStart(frame, frameSize, offset);
      comp.KernelPut(a);
      FramesSnoc(q, a, frameSize);
      kernelTx := kernelTx - multiset{frame};
      forall i | 0 <= i < comp.descs.Length ensures Frame(comp.descs[i], frameSize) < numFrames {
        assert comp.descs[i] == comp.descs[..][i];
        assert slots[i] == old(comp.descs[i]);
      }
    }

    /** One kernel step, if it is possible now. */
    method KernelDo(step: KernelStep)
      requires Ok()
      modifies fill`consumer, fill`consumed, fill`taken, fill`gets, rx`producer, rx`produced, rx`written, rx`puts, rx.descs,
        tx`consumer, tx`consumed, tx`taken, tx`gets, comp`producer, comp`produced, comp`written, comp`puts, comp.descs,
        `kernelRx, `kernelTx
      ensures Ok() && RxPipe() == old(RxPipe()) && TxPipe() == old(TxPipe())
      ensures fill.consumed >= old(fill.consumed) && tx.consumed >= old(tx.consumed)
      ensures rx.produced >= old(rx.produced) && comp.produced >= old(comp.produced)
    {
      hide Frames, Frame, Addrs, Pow2, Low, Window, Wrap, Ring.Valid, Ring.Fifo, RxPipe, TxPipe, Real, SlotsReal;
      match step
      case TakeFill =>
        var n := fill.NumUsed();
        if n > 0 { KernelTakeFill(); }
      case Deliver(frame, offset, len) =>
        var n := rx.NumFree();
        if n > 0 && frame in kernelRx && offset < frameSize { KernelDeliver(frame, offset, len); }
      case TakeTx =>
        var n := tx.NumUsed();
        if n > 0 { KernelTakeTx(); }
      case Complete(frame, offset) =>
        var n := comp.NumFree();
        if n > 0 && frame in kernelTx && offset < frameSize { KernelComplete(frame, offset); }
    }

    method Kernel()
      requires Ok()
      modifies fill`consumer, fill`consumed, fill`taken, fill`gets, rx`producer, rx`produced, rx`written, rx`puts, rx.descs,
        tx`consumer, tx`consumed, tx`taken, tx`gets, comp`producer, comp`produced, comp`written, comp`puts, comp.descs,
        `kernelRx, `kernelTx, `clock
      ensures Ok() && RxPipe() == old(RxPipe()) && TxPipe() == old(TxPipe())
      ensures fill.consumed >= old(fill.consumed) && tx.consumed >= old(tx.consumed)
      ensures rx.produced >= old(rx.produced) && comp.produced >= old(comp.produced) && clock == old(clock) + 1
    {
      hide Frames, Frame, Addrs, Pow2, Low, Window, Wrap, Ring.Valid, Ring.Fifo, RxPipe, TxPipe, Real, SlotsReal, Separate;
      var steps := kernel(clock);
      clock := clock + 1;
      var i := 0;
      while i < |steps|
        invariant 0 <= i <= |steps| && Ok() && RxPipe() == old(RxPipe()) && TxPipe() == old(TxPipe())
        invariant fill.consumed >= old(fill.consumed) && tx.consumed >= old(tx.consumed)
        invariant rx.produced >= old(rx.produced) && comp.produced >= old(comp.produced) && clock == old(clock) + 1
      {
        KernelDo(steps[i]);
        i := i + 1;
      }
    }

    // ----- Fill -----

    method FillOne(idx: uint32, d: Desc)
      requires Ok() && idx == Wrap(fill.written) && fill.written < fill.consumed + Pow2(fill.bits)
      requires Frame(d.addr, frameSize) < numFrames
      modifies freeRX, fill.descs, fill`written, fill`puts, `filling
      ensures Ok() && fill.written == old(fill.written) + 1 && Wrap(idx + 1) == Wrap(fill.written)
      ensures RxPipe() == old(RxPipe()) + multiset{Frame(d.addr, frameSize)} && TxPipe() == old(TxPipe())
      ensures fill.puts == old(fill.puts) + [d.addr] && filling == old(filling) + 1
      ensures freeRX[..] == old(freeRX[..])[Frame(d.addr, frameSize) := false]
    {
      hide Frames, Frame, Addrs, Pow2, Low, Window, Wrap, Ring.Valid, Ring.Fifo, Pipe, TxPipe, Real, SlotsReal;
      ghost var q, free := fill.Queue(), freeRX[..];
      fill.Put(idx, d.addr);
      var f := Frame(d.addr, frameSize);
      freeRX[f] := false;
      assert freeRX[..] == free[f := false];
      FramesSnoc(q, d.addr, frameSize);
      PipeSubmitted(Frames(q, frameSize), kernelRx, Frames(Addrs(rx.Queue()), frameSize), f);
      RealMore(old(RxPipe()), f);
      filling := filling + 1;
    }

    /** `i` of `n` descriptors are written and marked, none is published. */
    ghost predicate FillUnderway(free: seq<bool>, puts: seq<nat>, pipe: multiset<nat>, descs: seq<Desc>, n: nat, i: nat)
      requires i <= n <= |descs| && RingsOk()
      reads `filling, `kernelRx, fill, rx, tx, comp, fill.descs, rx.descs, tx.descs, comp.descs, freeRX
    {
      && fill.written == fill.produced + i && n <= Pow2(fill.bits) - (fill.produced - fill.consumed) && filling == i
      && fill.puts == puts + Addrs(descs[..i]) && MarkedUsed(free, freeRX[..], descs[..i], frameSize)
      && RxPipe() == pipe + Bag(descs[..i], frameSize)
    }

    /** One iteration, and whatever the kernel does meanwhile. */
    method FillStep(idx: uint32, descs: seq<Desc>, n: nat, i: nat, ghost free: seq<bool>, ghost puts: seq<nat>, ghost pipe: multiset<nat>)
      returns (next: uint32)
      requires Ok() && idx == Wrap(fill.written) && i < n <= |descs| && InRange(descs, numFrames, frameSize) && |free| == numFrames
      requires FillUnderway(free, puts, pipe, descs, n, i)
      modifies freeRX, fill.descs, fill`written, fill`puts, `filling, fill`consumer, fill`consumed, fill`taken, fill`gets, rx`producer, rx`produced, rx`written, rx`puts, rx.descs,
        tx`consumer, tx`consumed, tx`taken, tx`gets, comp`producer, comp`produced, comp`written, comp`puts, comp.descs,
        `kernelRx, `kernelTx, `clock
      ensures Ok() && next == Wrap(fill.written) && FillUnderway(free, puts, pipe, descs, n, i + 1) && TxPipe() == old(TxPipe())
    {
      hide Bag, MarkedUsed, Holds, Frames, Frame, Addrs, Pow2, Low, Window, Wrap, Ring.Valid, Ring.Fifo, RxPipe, TxPipe, Real, SlotsReal;
      assert descs[..i + 1] == descs[..i] + [descs[i]];
      MarkOne(free, freeRX[..], descs[..i], descs[i], frameSize);
      AddrsSnoc(descs[..i], descs[i]);
      BagSnoc(descs[..i], descs[i], frameSize);
      FillOne(idx, descs[i]);
      next := Wrap(idx + 1);
      Kernel();
    }

    method FillEach(descs: seq<Desc>, n: nat) returns (prod: uint32)
      requires Ok() && Settled() && InRange(descs, numFrames, frameSize)
      requires n <= |descs| && n <= Pow2(fill.bits) - (fill.produced - fill.consumed)
      modifies freeRX, fill.descs, fill`written, fill`puts, `filling, fill`consumer, fill`consumed, fill`taken, fill`gets, rx`producer, rx`produced, rx`written, rx`puts, rx.descs,
        tx`consumer, tx`consumed, tx`taken, tx`gets, comp`producer, comp`produced, comp`written, comp`puts, comp.descs,
        `kernelRx, `kernelTx, `clock
      ensures Ok() && prod == Wrap(fill.written) && TxPipe() == old(TxPipe())
      ensures FillUnderway(old(freeRX[..]), old(fill.puts), old(RxPipe()), descs, n, n)
    {
      ghost var free, puts, pipe := freeRX[..], fill.puts, RxPipe();
      NoneMarked(free, frameSize);
      hide Bag, InRange, MarkedUsed, Holds, Frames, Frame, Addrs, Pow2, Low, Window, Wrap, Ring.Valid, Ring.Fifo, RxPipe, TxPipe, Real, SlotsReal, Separate;
      prod := fill.producer;
      ProducerIs(fill);
      var i := 0;
      while i < n
        invariant 0 <= i <= n && Ok() && prod == Wrap(fill.written) && FillUnderway(free, puts, pipe, descs, n, i)
        invariant TxPipe() == old(TxPipe())
      {
        hide FillUnderway;
        prod := FillStep(prod, descs, n, i, free, puts, pipe);
        i := i + 1;
      }
    }

    method PublishFill(prod: uint32, n: nat)
      requires Ok() && prod == Wrap(fill.written) && filling == n
      modifies fill`producer, fill`produced, `numFilled, `filling
      ensures Ok() && fill.written == fill.produced && numFilled == old(numFilled) + n && filling == 0
      ensures RxPipe() == old(RxPipe()) && TxPipe() == old(TxPipe())
    {
      hide Frames, Frame, Addrs, Pow2, Low, Window, Wrap, Ring.Valid, Ring.Fifo, TxPipe, Pipe, Real, SlotsReal;
      fill.PublishPuts(prod);
      numFilled, filling := numFilled + n, 0;
    }

    method FillSlots(descs: seq<Desc>) returns (n: nat)
      requires Ok() && Settled() && InRange(descs, numFrames, frameSize)
      modifies freeRX, fill.descs, fill`written, fill`puts, `filling, fill`consumer, fill`consumed, fill`taken, fill`gets, rx`producer, rx`produced, rx`written, rx`puts, rx.descs,
        tx`consumer, tx`consumed, tx`taken, tx`gets, comp`producer, comp`produced, comp`written, comp`puts, comp.descs,
        `kernelRx, `kernelTx, `clock, fill`producer, fill`produced, `numFilled
      ensures Ok() && Settled() && numFilled == old(numFilled) + n
      ensures n == Min(|descs|, old(Pow2(fill.bits) - (fill.produced - fill.consumed)))
      ensures fill.puts == old(fill.puts) + Addrs(descs[..n]) && MarkedUsed(old(freeRX[..]), freeRX[..], descs[..n], frameSize)
      ensures RxPipe() == old(RxPipe()) + Bag(descs[..n], frameSize) && TxPipe() == old(TxPipe())
    {
      hide Bag, InRange, MarkedUsed, Holds, Frames, Frame, Addrs, Pow2, Low, Window, Wrap, Ring.Valid, Ring.Fifo, RxPipe, TxPipe, Real, SlotsReal, Separate;
      var slots := fill.NumFree();
      n := Min(|descs|, slots);
      var prod := FillEach(descs, n);
      PublishFill(prod, n);
    }

    /** Puts descriptors on the FILL ring as long as there are free slots, in order; the rest is left alone.
        The free list stays exact if and only if they are of different frames, all free. */
    method Fill(descs: seq<Desc>) returns (n: nat)
      requires Ok() && Settled() && InRange(descs, numFrames, frameSize)
      modifies freeRX, fill.descs, fill`written, fill`puts, `filling, fill`consumer, fill`consumed, fill`taken, fill`gets, rx`producer, rx`produced, rx`written, rx`puts, rx.descs,
        tx`consumer, tx`consumed, tx`taken, tx`gets, comp`producer, comp`produced, comp`written, comp`puts, comp.descs,
        `kernelRx, `kernelTx, `clock, fill`producer, fill`produced, `numFilled
      ensures Ok() && Settled() && numFilled == old(numFilled) + n
      ensures n == Min(|descs|, old(Pow2(fill.bits) - (fill.produced - fill.consumed)))
      ensures fill.puts == old(fill.puts) + Addrs(descs[..n]) && MarkedUsed(old(freeRX[..]), freeRX[..], descs[..n], frameSize)
      ensures RxPipe() == old(RxPipe()) + Bag(descs[..n], frameSize) && TxPipe() == old(TxPipe())
      ensures old(RxExact()) ==> (RxExact() <==> Usable(descs[..n], old(freeRX[..]), frameSize))
    {
      hide Bag, InRange, Usable, Exact, MarkedUsed, Holds, Frames, Frame, Addrs, Pow2, Low, Window, Wrap, Ring.Valid, Ring.Fifo, RxPipe, TxPipe, Real, SlotsReal, Separate;
      n := FillSlots(descs);
      if old(RxExact()) {
        PrefixInRange(descs, n, numFrames, frameSize);
        SubmitExactly(old(freeRX[..]), freeRX[..], old(RxPipe()), descs[..n], frameSize);
      }
    }

    // ----- Transmit -----

    method TransmitOne(idx: uint32, d: Desc)
      requires Ok() && idx == Wrap(tx.written) && tx.written < tx.consumed + Pow2(tx.bits)
      requires Frame(d.addr, frameSize) < numFrames
      modifies freeTX, tx.descs, tx`written, tx`puts, `sending
      ensures Ok() && tx.written == old(tx.written) + 1 && Wrap(idx + 1) == Wrap(tx.written)
      ensures TxPipe() == old(TxPipe()) + multiset{Frame(d.addr, frameSize)} && RxPipe() == old(RxPipe())
      ensures tx.puts == old(tx.puts) + [d] && sending == old(sending) + 1
      ensures freeTX[..] == old(freeTX[..])[Frame(d.addr, frameSize) := false]
    {
      hide Frames, Frame, Addrs, Pow2, Low, Window, Wrap, Ring.Valid, Ring.Fifo, Pipe, RxPipe, Real, SlotsReal;
      ghost var q, free := tx.Queue(), freeTX[..];
      tx.Put(idx, d);
      var f := Frame(d.addr, frameSize);
      freeTX[f] := false;
      assert freeTX[..] == free[f := false];
      AddrsSnoc(q, d);
      FramesSnoc(Addrs(q), d.addr, frameSize);
      PipeSubmitted(Frames(Addrs(q), frameSize), kernelTx, Frames(comp.Queue(), frameSize), f);
      RealMore(old(TxPipe()), f);
      sending := sending + 1;
    }

    /** `i` of `n` descriptors are written and marked, none is published. */
    ghost predicate TransmitUnderway(free: seq<bool>, puts: seq<Desc>, pipe: multiset<nat>, descs: seq<Desc>, n: nat, i: nat)
      requires i <= n <= |descs| && RingsOk()
      reads `sending, `kernelTx, fill, rx, tx, comp, fill.descs, rx.descs, tx.descs, comp.descs, freeTX
    {
      && tx.written == tx.produced + i && n <= Pow2(tx.bits) - (tx.produced - tx.consumed) && sending == i
      && tx.puts == puts + descs[..i] && MarkedUsed(free, freeTX[..], descs[..i], frameSize)
      && TxPipe() == pipe + Bag(descs[..i], frameSize)
    }

    /** One iteration, and whatever the kernel does meanwhile. */
    method TransmitStep(idx: uint32, descs: seq<Desc>, n: nat, i: nat, ghost free: seq<bool>, ghost puts: seq<Desc>, ghost pipe: multiset<nat>)
      returns (next: uint32)
      requires Ok() && idx == Wrap(tx.written) && i < n <= |descs| && InRange(descs, numFrames, frameSize) && |free| == numFrames
      requires TransmitUnderway(free, puts, pipe, descs, n, i)
      modifies freeTX, tx.descs, tx`written, tx`puts, `sending, fill`consumer, fill`consumed, fill`taken, fill`gets, rx`producer, rx`produced, rx`written, rx`puts, rx.descs,
        tx`consumer, tx`consumed, tx`taken, tx`gets, comp`producer, comp`produced, comp`written, comp`puts, comp.descs,
        `kernelRx, `kernelTx, `clock
      ensures Ok() && next == Wrap(tx.written) && TransmitUnderway(free, puts, pipe, descs, n, i + 1) && RxPipe() == old(RxPipe())
    {
      hide Bag, MarkedUsed, Holds, Frames, Frame, Addrs, Pow2, Low, Window, Wrap, Ring.Valid, Ring.Fifo, RxPipe, TxPipe, Real, SlotsReal;
      assert descs[..i + 1] == descs[..i] + [descs[i]];
      MarkOne(free, freeTX[..], descs[..i], descs[i], frameSize);
      BagSnoc(descs[..i], descs[i], frameSize);
      TransmitOne(idx, descs[i]);
      next := Wrap(idx + 1);
      Kernel();
    }

    method TransmitEach(descs: seq<Desc>, n: nat) returns (prod: uint32)
      requires Ok() && Settled() && InRange(descs, numFrames, frameSize)
      requires n <= |descs| && n <= Pow2(tx.bits) - (tx.produced - tx.consumed)
      modifies freeTX, tx.descs, tx`written, tx`puts, `sending, fill`consumer, fill`consumed, fill`taken, fill`gets, rx`producer, rx`produced, rx`written, rx`puts, rx.descs,
        tx`consumer, tx`consumed, tx`taken, tx`gets, comp`producer, comp`produced, comp`written, comp`puts, comp.descs,
        `kernelRx, `kernelTx, `clock
      ensures Ok() && prod == Wrap(tx.written) && RxPipe() == old(RxPipe())
      ensures TransmitUnderway(old(freeTX[..]), old(tx.puts), old(TxPipe()), descs, n, n)
    {
      ghost var free, puts, pipe := freeTX[..], tx.puts, TxPipe();
      NoneMarked(free, frameSize);
      hide Bag, InRange, MarkedUsed, Holds, Frames, Frame, Addrs, Pow2, Low, Window, Wrap, Ring.Valid, Ring.Fifo, RxPipe, TxPipe, Real, SlotsReal, Separate;
      prod := tx.producer;
      ProducerIs(tx);
      var i := 0;
      while i < n
        invariant 0 <= i <= n && Ok() && prod == Wrap(tx.written) && TransmitUnderway(free, puts, pipe, descs, n, i)
        invariant RxPipe() == old(RxPipe())
      {
        hide TransmitUnderway;
        prod := TransmitStep(prod, descs, n, i, free, puts, pipe);
        i := i + 1;
      }
    }

    method PublishTransmit(prod: uint32, n: nat)
      requires Ok() && prod == Wrap(tx.written) && sending == n
      modifies tx`producer, tx`produced, `numTransmitted, `sending
      ensures Ok() && tx.written == tx.produced && numTransmitted == old(numTransmitted) + n && sending == 0
      ensures RxPipe() == old(RxPipe()) && TxPipe() == old(TxPipe())
    {
      hide Frames, Frame, Addrs, Pow2, Low, Window, Wrap, Ring.Valid, Ring.Fifo, RxPipe, Pipe, Real, SlotsReal;
      tx.PublishPuts(prod);
      numTransmitted, sending := numTransmitted + n, 0;
    }

    method TransmitSlots(descs: seq<Desc>) returns (n: nat)
      requires Ok() && Settled() && InRange(descs, numFrames, frameSize)
      modifies freeTX, tx.descs, tx`written, tx`puts, `sending, fill`consumer, fill`consumed, fill`taken, fill`gets, rx`producer, rx`produced, rx`written, rx`puts, rx.descs,
        tx`consumer, tx`consumed, tx`taken, tx`gets, comp`producer, comp`produced, comp`written, comp`puts, comp.descs,
        `kernelRx, `kernelTx, `clock, tx`producer, tx`produced, `numTransmitted
      ensures Ok() && Settled() && numTransmitted == old(numTransmitted) + n
      ensures n == Min(|descs|, old(Pow2(tx.bits) - (tx.produced - tx.consumed)))
      ensures tx.puts == old(tx.puts) + descs[..n] && MarkedUsed(old(freeTX[..]), freeTX[..], descs[..n], frameSize)
      ensures TxPipe() == old(TxPipe()) + Bag(descs[..n], frameSize) && RxPipe() == old(RxPipe())
    {
      hide Bag, InRange, MarkedUsed, Holds, Frames, Frame, Addrs, Pow2, Low, Window, Wrap, Ring.Valid, Ring.Fifo, RxPipe, TxPipe, Real, SlotsReal, Separate;
      var slots := tx.NumFree();
      n := Min(|descs|, slots);
      var prod := TransmitEach(descs, n);
      PublishTransmit(prod, n);
    }

    /** Puts descriptors on the TX ring as long as there are free slots, in order; the rest is left alone.
        The free list stays exact if and only if they are of different frames, all free. */
    method Transmit(descs: seq<Desc>) returns (n: nat)
      requires Ok() && Settled() && InRange(descs, numFrames, frameSize)
      modifies freeTX, tx.descs, tx`written, tx`puts, `sending, fill`consumer, fill`consumed, fill`taken, fill`gets, rx`producer, rx`produced, rx`written, rx`puts, rx.descs,
        tx`consumer, tx`consumed, tx`taken, tx`gets, comp`producer, comp`produced, comp`written, comp`puts, comp.descs,
        `kernelRx, `kernelTx, `clock, tx`producer, tx`produced, `numTransmitted
      ensures Ok() && Settled() && numTransmitted == old(numTransmitted) + n
      ensures n == Min(|descs|, old(Pow2(tx.bits) - (tx.produced - tx.consumed)))
      ensures tx.puts == old(tx.puts) + descs[..n] && MarkedUsed(old(freeTX[..]), freeTX[..], descs[..n], frameSize)
      ensures TxPipe() == old(TxPipe()) + Bag(descs[..n], frameSize) && RxPipe() == old(RxPipe())
      ensures old(TxExact()) ==> (TxExact() <==> Usable(descs[..n], old(freeTX[..]), frameSize))
    {
      hide Bag, InRange, Usable, Exact, MarkedUsed, Holds, Frames, Frame, Addrs, Pow2, Low, Window, Wrap, Ring.Valid, Ring.Fifo, RxPipe, TxPipe, Real, SlotsReal, Separate;
      n := TransmitSlots(descs);
      if old(TxExact()) {
        PrefixInRange(descs, n, numFrames, frameSize);
        SubmitExactly(old(freeTX[..]), freeTX[..], old(TxPipe()), descs[..n], frameSize);
      }
    }

    // ----- Receive -----

    method TakeRx(idx: uint32) returns (d: Desc)
      requires Ok() && idx == Wrap(rx.taken) && rx.taken < rx.produced
      modifies rx`taken, rx`gets, `filling
      ensures Ok() && rx.taken == old(rx.taken) + 1 && Wrap(idx + 1) == Wrap(rx.taken)
      ensures rx.gets == old(rx.gets) + [d] && filling == old(filling) - 1 && Frame(d.addr, frameSize) < numFrames
      ensures old(RxPipe()) == RxPipe() + multiset{Frame(d.addr, frameSize)}
    {
      hide Frames, Frame, Addrs, Pow2, Low, Window, Wrap, Ring.Valid, Ring.Fifo, Pipe, TxPipe, Real, SlotsReal;
      ghost var q := rx.Queue();
      d := rx.GetNext(idx);
      AddrsCons(d, rx.Queue());
      FramesCons(d.addr, Addrs(rx.Queue()), frameSize);
      PipeReturned(Frames(fill.Queue(), frameSize), kernelRx, Frames(Addrs(q), frameSize), Frame(d.addr, frameSize),
                   Frames(Addrs(rx.Queue()), frameSize));
      RealLess(RxPipe(), Frame(d.addr, frameSize));
      filling := filling - 1;
    }

    /** Reads one entry and frees its frame. */
    method ReceiveOne(idx: uint32) returns (d: Desc)
      requires Ok() && idx == Wrap(rx.taken) && rx.taken < rx.produced
      modifies freeRX, rx`taken, rx`gets, `filling
      ensures Ok() && rx.taken == old(rx.taken) + 1 && Wrap(idx + 1) == Wrap(rx.taken)
      ensures rx.gets == old(rx.gets) + [d] && filling == old(filling) - 1 && Frame(d.addr, frameSize) < numFrames
      ensures old(RxPipe()) == RxPipe() + multiset{Frame(d.addr, frameSize)} && TxPipe() == old(TxPipe())
      ensures freeRX[..] == old(freeRX[..])[Frame(d.addr, frameSize) := true]
    {
      hide Frames, Frame, Addrs, Pow2, Low, Window, Wrap, Ring.Valid, Ring.Fifo, RxPipe, TxPipe, Real, SlotsReal;
      d := TakeRx(idx);
      freeRX[Frame(d.addr, frameSize)] := true;
    }

    /** The entries of `got` are read and their frames marked free; nothing is published. */
    ghost predicate ReceiveUnderway(free: seq<bool>, gets: seq<Desc>, pipe: multiset<nat>, n: nat, got: seq<Desc>)
      requires RingsOk()
      reads `filling, `kernelRx, fill, rx, tx, comp, fill.descs, rx.descs, tx.descs, comp.descs, freeRX
    {
      && |got| <= n && rx.taken == rx.consumed + |got| && rx.consumed + n <= rx.produced && filling == -|got|
      && rx.gets == gets + got && MarkedFree(free, freeRX[..], got, frameSize)
      && pipe == RxPipe() + Bag(got, frameSize)
    }

    /** One iteration, and whatever the kernel does meanwhile. */
    method ReceiveStep(idx: uint32, n: nat, got: seq<Desc>, ghost free: seq<bool>, ghost gets: seq<Desc>, ghost pipe: multiset<nat>)
      returns (next: uint32, more: seq<Desc>)
      requires Ok() && idx == Wrap(rx.taken) && |got| < n && |free| == numFrames && ReceiveUnderway(free, gets, pipe, n, got)
      modifies freeRX, rx`taken, rx`gets, `filling, fill`consumer, fill`consumed, fill`taken, fill`gets, rx`producer, rx`produced, rx`written, rx`puts, rx.descs,
        tx`consumer, tx`consumed, tx`taken, tx`gets, comp`producer, comp`produced, comp`written, comp`puts, comp.descs,
        `kernelRx, `kernelTx, `clock
      ensures Ok() && next == Wrap(rx.taken) && |more| == |got| + 1 && ReceiveUnderway(free, gets, pipe, n, more)
      ensures TxPipe() == old(TxPipe())
    {
      hide Bag, MarkedFree, Holds, Frames, Frame, Addrs, Pow2, Low, Window, Wrap, Ring.Valid, Ring.Fifo, RxPipe, TxPipe, Real, SlotsReal;
      ghost var was := freeRX[..];
      var d := ReceiveOne(idx);
      FreeOne(free, was, got, d, frameSize);
      BagSnoc(got, d, frameSize);
      next, more := Wrap(idx + 1), got + [d];
      Kernel();
    }

    method ReceiveLoop(n: nat, start: uint32, ghost free: seq<bool>, ghost gets: seq<Desc>, ghost pipe: multiset<nat>)
      returns (cons: uint32, got: seq<Desc>)
      requires Ok() && start == Wrap(rx.taken) && |free| == numFrames && ReceiveUnderway(free, gets, pipe, n, [])
      modifies freeRX, rx`taken, rx`gets, `filling, fill`consumer, fill`consumed, fill`taken, fill`gets, rx`producer, rx`produced, rx`written, rx`puts, rx.descs,
        tx`consumer, tx`consumed, tx`taken, tx`gets, comp`producer, comp`produced, comp`written, comp`puts, comp.descs,
        `kernelRx, `kernelTx, `clock
      ensures Ok() && cons == Wrap(rx.taken) && |got| == n && TxPipe() == old(TxPipe())
      ensures ReceiveUnderway(free, gets, pipe, n, got)
    {
      hide Bag, MarkedFree, Holds, Frames, Frame, Addrs, Pow2, Low, Window, Wrap, Ring.Valid, Ring.Fifo, RxPipe, TxPipe, Real, SlotsReal, Separate, ReceiveUnderway;
      cons, got := start, [];
      var i := 0;
      while i < n
        invariant 0 <= i <= n && |got| == i && Ok() && cons == Wrap(rx.taken) && ReceiveUnderway(free, gets, pipe, n, got)
        invariant TxPipe() == old(TxPipe())
      {
        cons, got := ReceiveStep(cons, n, got, free, gets, pipe);
        i := i + 1;
      }
    }

    method ReceiveEach(n: nat) returns (cons: uint32, got: seq<Desc>)
      requires Ok() && Settled() && n <= rx.produced - rx.consumed
      modifies freeRX, rx`taken, rx`gets, `filling, fill`consumer, fill`consumed, fill`taken, fill`gets, rx`producer, rx`produced, rx`written, rx`puts, rx.descs,
        tx`consumer, tx`consumed, tx`taken, tx`gets, comp`producer, comp`produced, comp`written, comp`puts, comp.descs,
        `kernelRx, `kernelTx, `clock
      ensures Ok() && cons == Wrap(rx.taken) && |got| == n && TxPipe() == old(TxPipe())
      ensures ReceiveUnderway(old(freeRX[..]), old(rx.gets), old(RxPipe()), n, got)
    {
      NoneMarked(freeRX[..], frameSize);
      hide Bag, MarkedFree, Holds, Frames, Frame, Addrs, Pow2, Low, Window, Wrap, Ring.Valid, Ring.Fifo, RxPipe, TxPipe, Real, SlotsReal, Separate;
      ConsumerIs(rx);
      cons, got := ReceiveLoop(n, rx.consumer, freeRX[..], rx.gets, RxPipe());
    }

    method PublishReceive(cons: uint32, n: nat)
      requires Ok() && cons == Wrap(rx.taken) && filling == 0 - n
      modifies rx`consumer, rx`consumed, `numFilled, `filling
      ensures Ok() && rx.taken == rx.consumed && numFilled == old(numFilled) - n && filling == 0
      ensures RxPipe() == old(RxPipe()) && TxPipe() == old(TxPipe())
    {
      hide Frames, Frame, Addrs, Pow2, Low, Window, Wrap, Ring.Valid, Ring.Fifo, TxPipe, Pipe, Real, SlotsReal;
      rx.PublishGets(cons);
      numFilled, filling := numFilled - n, 0;
    }

    method ReceiveSlots(num: int) returns (descs: seq<Desc>)
      requires Ok() && Settled()
      modifies freeRX, rx`taken, rx`gets, `filling, fill`consumer, fill`consumed, fill`taken, fill`gets, rx`producer, rx`produced, rx`written, rx`puts, rx.descs,
        tx`consumer, tx`consumed, tx`taken, tx`gets, comp`producer, comp`produced, comp`written, comp`puts, comp.descs,
        `kernelRx, `kernelTx, `clock, rx`consumer, rx`consumed, `numFilled
      ensures Ok() && Settled() && numFilled == old(numFilled) - |descs|
      ensures |descs| == if num < 0 then 0 else Min(num, old(rx.produced - rx.consumed))
      ensures rx.gets == old(rx.gets) + descs && MarkedFree(old(freeRX[..]), freeRX[..], descs, frameSize)
      ensures old(RxPipe()) == RxPipe() + Bag(descs, frameSize) && TxPipe() == old(TxPipe())
    {
      hide Bag, MarkedFree, Holds, Frames, Frame, Addrs, Pow2, Low, Window, Wrap, Ring.Valid, Ring.Fifo, RxPipe, TxPipe, Real, SlotsReal, Separate;
      var available := rx.NumUsed();
      var n := if num > available then available else num;
      if n < 0 { n := 0; }
      var cons;
      cons, descs := ReceiveEach(n);
      PublishReceive(cons, n);
    }

    /** Takes up to `num` received descriptors, the oldest, and marks their frames free. If the list was exact they
        were in use, are of different frames and can be filled again. */
    method Receive(num: int) returns (descs: seq<Desc>)
      requires Ok() && Settled()
      modifies freeRX, rx`taken, rx`gets, `filling, fill`consumer, fill`consumed, fill`taken, fill`gets, rx`producer, rx`produced, rx`written, rx`puts, rx.descs,
        tx`consumer, tx`consumed, tx`taken, tx`gets, comp`producer, comp`produced, comp`written, comp`puts, comp.descs,
        `kernelRx, `kernelTx, `clock, rx`consumer, rx`consumed, `numFilled
      ensures Ok() && Settled() && numFilled == old(numFilled) - |descs|
      ensures |descs| == if num < 0 then 0 else Min(num, old(rx.produced - rx.consumed))
      ensures rx.gets == old(rx.gets) + descs && MarkedFree(old(freeRX[..]), freeRX[..], descs, frameSize)
      ensures old(RxPipe()) == RxPipe() + Bag(descs, frameSize) && TxPipe() == old(TxPipe())
      ensures old(RxExact()) ==> RxExact() && Usable(descs, freeRX[..], frameSize)
      ensures old(RxExact() && Sided()) ==> Sided() && Below(descs, Pow2(fill.bits), frameSize)
    {
      hide Bag, Usable, Exact, MarkedFree, Holds, Frames, Frame, Addrs, Pow2, Low, Window, Wrap, Ring.Valid, Ring.Fifo, RxPipe, TxPipe, Real, SlotsReal, Below, OnSides;
      ghost var other := freeTX[..];
      descs := ReceiveSlots(num);
      assert freeTX[..] == other;
      if old(RxExact()) {
        ReturnExactly(old(freeRX[..]), freeRX[..], RxPipe(), descs, frameSize);
        if old(Sided()) { RxFreed(old(freeRX[..]), freeRX[..], freeTX[..], descs, Pow2(fill.bits), frameSize); }
      }
    }

    // ----- Complete -----

    method TakeComp(idx: uint32) returns (a: nat)
      requires comp.bits <= 31 && comp.descs.Length == Pow2(comp.bits) && idx == Wrap(comp.taken)
      modifies comp`taken, comp`gets, `sending
      ensures a == comp.descs[Low(old(comp.taken), comp.bits)]
      ensures comp.taken == old(comp.taken) + 1 && Wrap(idx + 1) == Wrap(comp.taken)
      ensures comp.gets == old(comp.gets) + [a] && sending == old(sending) - 1
      ensures old(Ok() && comp.taken < comp.produced) ==> Ok() && old(TxPipe()) == TxPipe() + multiset{Frame(a, frameSize)}
    {
      hide Frames, Frame, Addrs, Pow2, Low, Window, Wrap, Ring.Valid, Ring.Fifo, Pipe, RxPipe, Real, SlotsReal;
      a := comp.Get(idx);
      sending := sending - 1;
      if old(Ok() && comp.taken < comp.produced) {
        ghost var f := Frame(a, frameSize);
        FramesCons(a, comp.Queue(), frameSize);
        PipeReturned(Frames(Addrs(tx.Queue()), frameSize), kernelTx, Frames(old(comp.Queue()), frameSize), f, Frames(comp.Queue(), frameSize));
        RealLess(TxPipe(), f);
      }
    }

    /** Reads one slot, published or not, and frees the frame of whatever it holds. */
    method CompleteOne(idx: uint32) returns (a: nat)
      requires Separate() && frameSize > 0 && freeTX.Length == numFrames && SlotsReal()
      requires comp.bits <= 31 && comp.descs.Length == Pow2(comp.bits) && idx == Wrap(comp.taken)
      modifies freeTX, comp`taken, comp`gets, `sending
      ensures a == comp.descs[Low(old(comp.taken), comp.bits)] && Frame(a, frameSize) < numFrames
      ensures comp.taken == old(comp.taken) + 1 && Wrap(idx + 1) == Wrap(comp.taken)
      ensures comp.gets == old(comp.gets) + [a] && sending == old(sending) - 1
      ensures freeTX[..] == old(freeTX[..])[Frame(a, frameSize) := true]
      ensures old(Ok() && comp.taken < comp.produced) ==>
                Ok() && old(TxPipe()) == TxPipe() + multiset{Frame(a, frameSize)} && RxPipe() == old(RxPipe())
    {
      hide Frames, Frame, Addrs, Pow2, Low, Window, Wrap, Ring.Valid, Ring.Fifo, RxPipe, TxPipe, Real;
      a := TakeComp(idx);
      freeTX[Frame(a, frameSize)] := true;
    }

    /** The entries of `got` are read and their frames marked free; nothing is published. */
    ghost predicate CompleteUnderway(free: seq<bool>, gets: seq<nat>, pipe: multiset<nat>, n: nat, got: seq<Desc>)
      requires RingsOk()
      reads `sending, `kernelTx, fill, rx, tx, comp, fill.descs, rx.descs, tx.descs, comp.descs, freeTX
    {
      && |got| <= n && comp.taken == comp.consumed + |got| && comp.consumed + n <= comp.produced && sending == -|got|
      && comp.gets == gets + Addrs(got) && MarkedFree(free, freeTX[..], got, frameSize)
      && pipe == TxPipe() + Bag(got, frameSize)
    }

    /** Nothing but the free list has changed while the slots from `start` on were read, whether published or not. */
    ghost predicate ReadOn(free: seq<bool>, slots: seq<nat>, produced: nat, start: nat, got: seq<Desc>)
      reads comp, comp.descs, freeTX
    {
      && Separate() && frameSize > 0 && freeTX.Length == numFrames && SlotsReal()
      && comp.bits <= 31 && comp.descs.Length == Pow2(comp.bits) && comp.descs[..] == slots
      && comp.produced == produced && comp.producer == Wrap(produced)
      && comp.consumed == start && comp.taken == start + |got|
      && got == SlotDescs(slots, comp.bits, start, |got|) && MarkedFree(free, freeTX[..], got, frameSize)
    }

    /** The kernel acts, unless it rests now. */
    method KernelOrRest()
      requires Ok() || kernel(clock) == []
      modifies fill`consumer, fill`consumed, fill`taken, fill`gets, rx`producer, rx`produced, rx`written, rx`puts, rx.descs,
        tx`consumer, tx`consumed, tx`taken, tx`gets, comp`producer, comp`produced, comp`written, comp`puts, comp.descs,
        `kernelRx, `kernelTx, `clock
      ensures clock == old(clock) + 1
      ensures old(Ok()) ==> Ok() && RxPipe() == old(RxPipe()) && TxPipe() == old(TxPipe()) && comp.produced >= old(comp.produced)
      ensures kernel(old(clock)) == [] ==> unchanged(fill, rx, tx, comp, fill.descs, rx.descs, tx.descs, comp.descs, `kernelRx, `kernelTx)
    {
      hide Frames, Frame, Addrs, Pow2, Low, Window, Wrap, Ring.Valid, Ring.Fifo, RxPipe, TxPipe, Real, SlotsReal;
      if kernel(clock) == [] { clock := clock + 1; } else { Kernel(); }
    }

    /** The kernel rests at the next `n` interleaving points. */
    ghost predicate RestsFor(n: int)
      reads `clock
    {
      forall t: nat :: clock <= t < clock + n ==> kernel(t) == []
    }

    method CompleteNext(idx: uint32, n: nat, ghost got: seq<Desc>, ghost free: seq<bool>, ghost gets: seq<nat>, ghost pipe: multiset<nat>,
                        ghost slots: seq<nat>, ghost produced: nat, ghost start: nat, ghost ordered: bool, ghost resting: bool)
      returns (next: uint32, ghost more: seq<Desc>)
      requires idx == Wrap(comp.taken) && |got| < n && |free| == numFrames && (ordered || resting)
      requires ordered ==> Ok() && CompleteUnderway(free, gets, pipe, n, got)
      requires resting ==> ReadOn(free, slots, produced, start, got)
      modifies freeTX, comp`taken, comp`gets, `sending
      ensures next == Wrap(comp.taken) && |more| == |got| + 1 && comp.taken == old(comp.taken) + 1
      ensures ordered ==> Ok() && CompleteUnderway(free, gets, pipe, n, more) && RxPipe() == old(RxPipe())
      ensures resting ==> ReadOn(free, slots, produced, start, more)
    {
      hide Bag, MarkedFree, Holds, Frames, Frame, Addrs, Pow2, Low, Window, Wrap, Ring.Valid, Ring.Fifo, RxPipe, TxPipe, Real, SlotsReal, SlotDescs;
      if ordered { RingHasSlots(comp); }
      ghost var was := freeTX[..];
      var a := CompleteOne(idx);
      ghost var d := Desc(a, 0);
      FreeOne(free, was, got, d, frameSize);
      AddrsSnoc(got, d);
      BagSnoc(got, d, frameSize);
      if resting { SlotSnoc(slots, comp.bits, start, |got|); }
      next, more := Wrap(idx + 1), got + [d];
    }

    /** One iteration, and whatever the kernel does meanwhile: in order while there are completions left, and
        also beyond them if the kernel rests. */
    method CompleteStep(idx: uint32, n: nat, ghost got: seq<Desc>, ghost free: seq<bool>, ghost gets: seq<nat>, ghost pipe: multiset<nat>,
                        ghost slots: seq<nat>, ghost produced: nat, ghost start: nat, ghost ordered: bool, ghost resting: bool)
      returns (next: uint32, ghost more: seq<Desc>)
      requires idx == Wrap(comp.taken) && |got| < n && |free| == numFrames && (ordered || resting)
      requires ordered ==> Ok() && CompleteUnderway(free, gets, pipe, n, got)
      requires resting ==> kernel(clock) == [] && ReadOn(free, slots, produced, start, got)
      modifies freeTX, comp`taken, comp`gets, `sending, fill`consumer, fill`consumed, fill`taken, fill`gets, rx`producer, rx`produced, rx`written, rx`puts, rx.descs,
        tx`consumer, tx`consumed, tx`taken, tx`gets, comp`producer, comp`produced, comp`written, comp`puts, comp.descs,
        `kernelRx, `kernelTx, `clock
      ensures clock == old(clock) + 1 && next == Wrap(comp.taken) && |more| == |got| + 1 && comp.taken == old(comp.taken) + 1
      ensures ordered ==> Ok() && CompleteUnderway(free, gets, pipe, n, more) && RxPipe() == old(RxPipe())
      ensures resting ==> ReadOn(free, slots, produced, start, more)
    {
      hide Bag, MarkedFree, Holds, Frames, Frame, Addrs, Pow2, Low, Window, Wrap, Ring.Valid, Ring.Fifo, RxPipe, TxPipe, Real, SlotsReal, SlotDescs;
      next, more := CompleteNext(idx, n, got, free, gets, pipe, slots, produced, start, ordered, resting);
      KernelOrRest();
    }

    method CompleteEach(n: int) returns (cons: uint32, ghost got: seq<Desc>)
      requires Ok() && Settled() && (0 <= n <= comp.produced - comp.consumed || RestsFor(n))
      modifies freeTX, comp`taken, comp`gets, `sending, fill`consumer, fill`consumed, fill`taken, fill`gets, rx`producer, rx`produced, rx`written, rx`puts, rx.descs,
        tx`consumer, tx`consumed, tx`taken, tx`gets, comp`producer, comp`produced, comp`written, comp`puts, comp.descs,
        `kernelRx, `kernelTx, `clock
      ensures cons == Wrap(comp.taken) && comp.taken == old(comp.consumed) + |got| && |got| == if n < 0 then 0 else n
      ensures n <= old(comp.produced - comp.consumed) ==> Ok() && RxPipe() == old(RxPipe())
      ensures n <= old(comp.produced - comp.consumed) ==> CompleteUnderway(old(freeTX[..]), old(comp.gets), old(TxPipe()), |got|, got)
      ensures old(RestsFor(n)) ==> ReadOn(old(freeTX[..]), old(comp.descs[..]), old(comp.produced), old(comp.consumed), got)
    {
      ghost var free, gets, pipe, slots, produced, start := freeTX[..], comp.gets, TxPipe(), comp.descs[..], comp.produced, comp.consumed;
      ghost var ordered, resting := n <= comp.produced - comp.consumed, RestsFor(n);
      ghost var most := if n < 0 then 0 else n;
      NoneMarked(free, frameSize);
      RingHasSlots(comp);
      NoSlots(slots, comp.bits, start);
      ProducerIs(comp);
      hide Bag, MarkedFree, Holds, Frames, Frame, Addrs, Pow2, Low, Window, Wrap, Ring.Valid, Ring.Fifo, RxPipe, TxPipe, Real, SlotsReal, Separate, SlotDescs;
      cons, got := comp.consumer, [];
      ConsumerIs(comp);
      var i := 0;
      while i < n
        invariant 0 <= i <= most && |got| == i && cons == Wrap(comp.taken) && comp.taken == start + i && clock == old(clock) + i
        invariant ordered ==> Ok() && CompleteUnderway(free, gets, pipe, most, got) && RxPipe() == old(RxPipe())
        invariant resting ==> ReadOn(free, slots, produced, start, got)
      {
        hide CompleteUnderway, ReadOn, RingsOk;
        cons, got := CompleteStep(cons, n, got, free, gets, pipe, slots, produced, start, ordered, resting);
        i := i + 1;
      }
    }

    method PublishComplete(cons: uint32, n: int)
      requires cons == Wrap(comp.taken)
      modifies comp`consumer, comp`consumed, `numTransmitted, `sending
      ensures comp.consumer == Wrap(comp.consumed) && comp.consumed == comp.taken
      ensures numTransmitted == old(numTransmitted) - n && sending == 0
      ensures old(Ok()) ==> RingsOk() && RxPipe() == old(RxPipe()) && TxPipe() == old(TxPipe()) && (Ok() <==> old(sending) == 0 - n)
    {
      hide Frames, Frame, Addrs, Pow2, Low, Window, Wrap, Ring.Valid, Ring.Fifo, RxPipe, Pipe, Real, SlotsReal;
      comp.PublishGets(cons);
      numTransmitted, sending := numTransmitted - n, 0;
    }

    method CompleteSlots(n: int) returns (ghost got: seq<Desc>)
      requires Ok() && Settled() && (0 <= n <= comp.produced - comp.consumed || RestsFor(n))
      modifies freeTX, comp`taken, comp`gets, `sending, fill`consumer, fill`consumed, fill`taken, fill`gets, rx`producer, rx`produced, rx`written, rx`puts, rx.descs,
        tx`consumer, tx`consumed, tx`taken, tx`gets, comp`producer, comp`produced, comp`written, comp`puts, comp.descs,
        `kernelRx, `kernelTx, `clock, comp`consumer, comp`consumed, `numTransmitted
      ensures numTransmitted == old(numTransmitted) - n && comp.consumer == Wrap(comp.consumed) && |got| == if n < 0 then 0 else n
      ensures comp.consumed == old(comp.consumed) + |got| && frameSize > 0
      ensures 0 <= n <= old(comp.produced - comp.consumed) ==>
                && Ok() && Settled() && RxPipe() == old(RxPipe()) && comp.gets == old(comp.gets) + Addrs(got)
                && MarkedFree(old(freeTX[..]), freeTX[..], got, frameSize) && old(TxPipe()) == TxPipe() + Bag(got, frameSize)
      ensures old(RestsFor(n)) ==>
                && comp.producer == old(comp.producer) && |old(comp.descs[..])| == Pow2(comp.bits)
                && got == SlotDescs(old(comp.descs[..]), comp.bits, old(comp.consumed), |got|)
                && MarkedFree(old(freeTX[..]), freeTX[..], got, frameSize)
      ensures old(RestsFor(n)) ==> (Ok() <==> 0 <= n <= old(comp.produced - comp.consumed))
    {
      hide Bag, MarkedFree, Holds, Frames, Frame, Addrs, Pow2, Low, Window, Wrap, Ring.Valid, Ring.Fifo, RxPipe, TxPipe, Real, SlotsReal, SlotDescs, RestsFor, Separate;
      ProducerIs(comp);
      var cons;
      cons, got := CompleteEach(n);
      PublishComplete(cons, n);
      if n > old(comp.produced - comp.consumed) { PastProducer(comp); }
    }

    /** Reads `n` slots and marks their frames free; the code does not check that there are so many completions.
        For any kernel this is right if there are. If the kernel rests meanwhile, it is right only then: a negative
        number spoils the count, too large a number takes the consumer past the producer and frees stale frames. */
    method Complete(n: int)
      requires Ok() && Settled() && (0 <= n <= comp.produced - comp.consumed || RestsFor(n))
      modifies freeTX, comp`taken, comp`gets, `sending, fill`consumer, fill`consumed, fill`taken, fill`gets, rx`producer, rx`produced, rx`written, rx`puts, rx.descs,
        tx`consumer, tx`consumed, tx`taken, tx`gets, comp`producer, comp`produced, comp`written, comp`puts, comp.descs,
        `kernelRx, `kernelTx, `clock, comp`consumer, comp`consumed, `numTransmitted
      ensures numTransmitted == old(numTransmitted) - n && comp.consumer == Wrap(comp.consumed)
      ensures comp.consumed == old(comp.consumed) + if n < 0 then 0 else n
      ensures 0 <= n <= old(comp.produced - comp.consumed) ==>
                && Ok() && Settled() && RxPipe() == old(RxPipe())
                && exists got: seq<Desc> :: |got| == n && comp.gets == old(comp.gets) + Addrs(got)
                     && MarkedFree(old(freeTX[..]), freeTX[..], got, frameSize) && old(TxPipe()) == TxPipe() + Bag(got, frameSize)
      ensures 0 <= n <= old(comp.produced - comp.consumed) && old(TxExact()) ==> TxExact()
      ensures 0 <= n <= old(comp.produced - comp.consumed) && old(TxExact() && Sided()) ==> Sided()
      ensures old(RestsFor(n)) ==>
                && comp.producer == old(comp.producer) && frameSize > 0 && |old(comp.descs[..])| == Pow2(comp.bits)
                && MarkedFree(old(freeTX[..]), freeTX[..],
                              SlotDescs(old(comp.descs[..]), comp.bits, old(comp.consumed), if n < 0 then 0 else n), frameSize)
      ensures old(RestsFor(n)) ==> (Ok() <==> 0 <= n <= old(comp.produced - comp.consumed))
    {
      hide Bag, Usable, Exact, MarkedFree, Holds, Frames, Frame, Addrs, Pow2, Low, Window, Wrap, Ring.Valid, Ring.Fifo, RxPipe, TxPipe, Real, SlotsReal, OnSides, SlotDescs, RestsFor;
      ghost var other := freeRX[..];
      ghost var got := CompleteSlots(n);
      assert freeRX[..] == other;
      if 0 <= n <= old(comp.produced - comp.consumed) && old(TxExact()) {
        ReturnExactly(old(freeTX[..]), freeTX[..], TxPipe(), got, frameSize);
        TxFreed(freeRX[..], old(freeTX[..]), freeTX[..], got, Pow2(fill.bits), frameSize);
      }
    }

    /** Asking for more completions than there are, though not more than 2^32 less the ring size too many: the ring
        then reports to be full of completions, and the stale frames count as free even if the kernel is sending them. */
    method CompleteTooMany(n: int) returns (completed: nat)
      requires Ok() && Settled() && RestsFor(n)
      requires comp.produced - comp.consumed < n <= comp.produced - comp.consumed + WORD32 - Pow2(comp.bits)
      modifies freeTX, comp`taken, comp`gets, `sending, fill`consumer, fill`consumed, fill`taken, fill`gets, rx`producer, rx`produced, rx`written, rx`puts, rx.descs,
        tx`consumer, tx`consumed, tx`taken, tx`gets, comp`producer, comp`produced, comp`written, comp`puts, comp.descs,
        `kernelRx, `kernelTx, `clock, comp`consumer, comp`consumed, `numTransmitted
      ensures completed == Pow2(comp.bits) && frameSize > 0 && |old(comp.descs[..])| == Pow2(comp.bits)
      ensures forall d :: d in SlotDescs(old(comp.descs[..]), comp.bits, old(comp.consumed), n) ==>
                Frame(d.addr, frameSize) < numFrames && freeTX[Frame(d.addr, frameSize)]
    {
      RingHasSlots(comp);
      hide Bag, Usable, Exact, Frames, Frame, Addrs, Pow2, Low, Window, Wrap, Ring.Valid, Ring.Fifo, RxPipe, TxPipe, Real, OnSides, MarkedFree, SlotDescs;
      ghost var slots, start, bits, free := comp.descs[..], comp.consumed, comp.bits, freeTX[..];
      ghost var p, ahead := comp.produced, n - (comp.produced - comp.consumed);
      ProducerIs(comp);
      SlotDescsInRange(slots, bits, start, n, numFrames, frameSize);
      AheadWraps(p, ahead, bits);
      Complete(n);
      completed := comp.NumUsed();
      AllMarked(free, freeTX[..], SlotDescs(slots, bits, start, n), frameSize);
    }

    // ----- ownership -----

    /** In how many places on the kernel's side a frame is. */
    ghost function KernelCopies(f: nat): nat
      requires RingsOk()
      reads `kernelRx, `kernelTx, fill, rx, tx, comp, fill.descs, rx.descs, tx.descs, comp.descs
    {
      RxPipe()[f] + TxPipe()[f]
    }

    /** Only frames below the size of the FILL ring are out for reception, only the others for transmission. */
    ghost predicate Sided()
      reads freeRX, freeTX
    {
      OnSides(freeRX[..], freeTX[..], Pow2(fill.bits))
    }

    lemma Ownership(f: nat)
      requires Valid()
      ensures f < numFrames ==> KernelCopies(f) == (if freeRX[f] then 0 else 1) + (if freeTX[f] then 0 else 1)
      ensures f >= numFrames ==> KernelCopies(f) == 0
      ensures Sided() ==> KernelCopies(f) <= 1
    {
      hide Frames, Frame, Addrs, Pow2, Low, Window, Wrap, Ring.Valid, Ring.Fifo, RxPipe, TxPipe, Real, SlotsReal;
      assert RxPipe()[f] == if f < numFrames && !freeRX[..][f] then 1 else 0;
      assert TxPipe()[f] == if f < numFrames && !freeTX[..][f] then 1 else 0;
    }

    // ----- GetDescs -----

    ghost function From(forRx: bool): nat { if forRx then 0 else Pow2(fill.bits) }

    ghost function To(forRx: bool): nat { if forRx then Min(Pow2(fill.bits), numFrames) else numFrames }

    /** The lowest free frames of one side. The kernel owns one of them exactly when the other list has it in use,
        which never happens as long as both sides keep to their frames. None is the index panic: for reception, with
        fewer frames than FILL slots, and too few of them free. */
    method GetDescs(n: int, forRx: bool) returns (r: Option<seq<Desc>>)
      requires Valid()
      ensures r.None? <==> forRx && numFrames < Pow2(fill.bits) && CountFree(freeRX[..], 0, numFrames) < Limit(n, true)
      ensures r.Some? ==>
                && LowestFree(r.value, if forRx then freeRX[..] else freeTX[..], From(forRx), To(forRx), Limit(n, forRx), frameSize)
                && Usable(r.value, if forRx then freeRX[..] else freeTX[..], frameSize)
                && forall k :: 0 <= k < |r.value| ==> Offered(r.value[k], forRx)
    {
      hide Frames, Frame, Addrs, Pow2, Low, Window, Wrap, Ring.Valid, Ring.Fifo, LowestFree, Usable, Exact, RxPipe, TxPipe, Real, SlotsReal, Sided, KernelCopies, CountFree;
      var m := Limit(n, forRx);
      if forRx {
        r := FindFree(freeRX, 0, Pow2(fill.bits), m, frameSize);
        if r == None { return; }
        LowestUsable(r.value, freeRX[..], 0, To(true), m, frameSize);
      } else {
        r := FindFree(freeTX, Pow2(fill.bits), numFrames, m, frameSize);
        LowestUsable(r.value, freeTX[..], Pow2(fill.bits), numFrames, m, frameSize);
      }
      forall k | 0 <= k < |r.value| ensures Offered(r.value[k], forRx) { OfferedDesc(r.value, k, n, forRx); }
    }

    function Limit(n: int, forRx: bool): nat {
      var m := Min(n, Pow2(fill.bits));
      var l := if forRx then m else Min(m, Pow2(comp.bits));
      if l < 0 then 0 else l
    }

    ghost predicate Offered(d: Desc, forRx: bool)
      requires RingsOk()
      reads `kernelRx, `kernelTx, fill, rx, tx, comp, fill.descs, rx.descs, tx.descs, comp.descs, freeRX, freeTX
    {
      var f := Frame(d.addr, frameSize);
      && f < numFrames && (if forRx then f < Pow2(fill.bits) else f >= Pow2(fill.bits))
      && (KernelCopies(f) == 0 <==> if forRx then freeTX[f] else freeRX[f])
      && (Sided() ==> KernelCopies(f) == 0)
    }

    lemma OfferedDesc(descs: seq<Desc>, k: nat, n: int, forRx: bool)
      requires Valid() && k < |descs|
      requires LowestFree(descs, if forRx then freeRX[..] else freeTX[..], From(forRx), To(forRx), Limit(n, forRx), frameSize)
      ensures Offered(descs[k], forRx)
    {
      hide Frames, Frame, Addrs, Pow2, Low, Window, Wrap, Ring.Valid, Ring.Fifo, Holds, Above, Exact, RxPipe, TxPipe, Real, SlotsReal, KernelCopies, Limit;
      assert IsFree(descs[k], if forRx then freeRX[..] else freeTX[..], From(forRx), To(forRx), frameSize);
      Ownership(Frame(descs[k].addr, frameSize));
    }

    // ----- whole runs -----

    ghost function Log(): Logs
      reads fill, rx, tx, comp
    {
      Logs(fill.puts, rx.gets, tx.puts, comp.gets)
    }

    /** Fills any descriptors of different free frames of the receive side, wherever the application has them from. */
    method FillSided(descs: seq<Desc>) returns (n: nat)
      requires Valid() && Settled() && Sided() && Usable(descs, freeRX[..], frameSize) && Below(descs, Pow2(fill.bits), frameSize)
      modifies this, fill, rx, tx, comp, fill.descs, rx.descs, tx.descs, comp.descs, freeRX, freeTX
      ensures Valid() && Settled() && Sided()
      ensures n == Min(|descs|, old(Pow2(fill.bits) - (fill.produced - fill.consumed)))
      ensures Log() == old(Log()).(filled := old(fill.puts) + Addrs(descs[..n]))
    {
      hide Frames, Frame, Addrs, Pow2, Low, Window, Wrap, Ring.Valid, Ring.Fifo, Bag, Exact, Usable, Holds, MarkedUsed, RxPipe, TxPipe, Real, SlotsReal, OnSides, Below;
      ghost var free, other := freeRX[..], freeTX[..];
      UsableInRange(descs, freeRX[..], frameSize);
      n := Fill(descs);
      assert freeTX[..] == other;
      UsablePrefix(descs, n, free, frameSize);
      RxUsed(free, freeRX[..], freeTX[..], descs, n, Pow2(fill.bits), frameSize);
    }

    /** Transmits any descriptors of different free frames of the other side. */
    method TransmitSided(descs: seq<Desc>) returns (n: nat)
      requires Valid() && Settled() && Sided() && Usable(descs, freeTX[..], frameSize) && NotBelow(descs, Pow2(fill.bits), frameSize)
      modifies this, fill, rx, tx, comp, fill.descs, rx.descs, tx.descs, comp.descs, freeRX, freeTX
      ensures Valid() && Settled() && Sided()
      ensures n == Min(|descs|, old(Pow2(tx.bits) - (tx.produced - tx.consumed)))
      ensures Log() == old(Log()).(sent := old(tx.puts) + descs[..n])
    {
      hide Frames, Frame, Addrs, Pow2, Low, Window, Wrap, Ring.Valid, Ring.Fifo, Bag, Exact, Usable, Holds, MarkedUsed, RxPipe, TxPipe, Real, SlotsReal, OnSides, NotBelow;
      ghost var free, other := freeTX[..], freeRX[..];
      UsableInRange(descs, freeTX[..], frameSize);
      n := Transmit(descs);
      assert freeRX[..] == other;
      UsablePrefix(descs, n, free, frameSize);
      TxUsed(freeRX[..], free, freeTX[..], descs, n, Pow2(fill.bits), frameSize);
    }

    /** Received descriptors can be filled again at once; all that have room are. */
    method ReceiveAndRefill(num: int) returns (descs: seq<Desc>, n: nat)
      requires Valid() && Settled() && Sided()
      modifies this, fill, rx, tx, comp, fill.descs, rx.descs, tx.descs, comp.descs, freeRX, freeTX
      ensures Valid() && Settled() && Sided() && n <= |descs|
      ensures |descs| == if num < 0 then 0 else Min(num, old(rx.produced - rx.consumed))
      ensures Log() == old(Log()).(received := old(rx.gets) + descs, filled := old(fill.puts) + Addrs(descs[..n]))
    {
      hide Frames, Frame, Addrs, Pow2, Low, Window, Wrap, Ring.Valid, Ring.Fifo, Bag, Exact, Usable, Holds, MarkedUsed, MarkedFree, RxPipe, TxPipe, Real, SlotsReal, Separate, OnSides, Below;
      descs := ReceiveSided(num);
      n := FillSided(descs);
    }

    method ReceiveSided(num: int) returns (descs: seq<Desc>)
      requires Valid() && Settled() && Sided()
      modifies this, fill, rx, tx, comp, fill.descs, rx.descs, tx.descs, comp.descs, freeRX, freeTX
      ensures Valid() && Settled() && Sided()
      ensures Usable(descs, freeRX[..], frameSize) && Below(descs, Pow2(fill.bits), frameSize)
      ensures |descs| == if num < 0 then 0 else Min(num, old(rx.produced - rx.consumed))
      ensures Log() == old(Log()).(received := old(rx.gets) + descs)
    {
      hide Frames, Frame, Addrs, Pow2, Low, Window, Wrap, Ring.Valid, Ring.Fifo, Bag, Exact, Usable, Holds, MarkedFree, RxPipe, TxPipe, Real, SlotsReal, OnSides, Below;
      ghost var other := freeTX[..];
      descs := Receive(num);
      assert freeTX[..] == other;
    }

    method CompleteSided(n: int)
      requires Valid() && Settled() && Sided() && 0 <= n <= comp.produced - comp.consumed
      modifies this, fill, rx, tx, comp, fill.descs, rx.descs, tx.descs, comp.descs, freeRX, freeTX
      ensures Valid() && Settled() && Sided()
      ensures Log() == old(Log()).(completed := comp.gets) && old(comp.gets) <= comp.gets && |comp.gets| == |old(comp.gets)| + n
    {
      hide Frames, Frame, Addrs, Pow2, Low, Window, Wrap, Ring.Valid, Ring.Fifo, Bag, Exact, Holds, MarkedFree, RxPipe, TxPipe, Real, SlotsReal, OnSides, RestsFor, SlotDescs;
      ghost var other := freeRX[..];
      Complete(n);
      assert freeRX[..] == other;
    }

    /** What is ready for a call: free slots, or entries to take. */
    ghost function Ready(step: AppStep): int
      reads fill, rx, tx, comp
    {
      match step
      case FillStep(_) => Pow2(fill.bits) - (fill.produced - fill.consumed)
      case ReceiveStep(_) => rx.produced - rx.consumed
      case TransmitStep(_) => Pow2(tx.bits) - (tx.produced - tx.consumed)
      case CompleteStep(_) => comp.produced - comp.consumed
    }

    /** The arguments keep to the rules: descriptors of different free frames of the right side, and no more completions
        than there are. */
    ghost predicate Allowed(step: AppStep)
      requires frameSize > 0
      reads this, fill, comp, freeRX, freeTX
    {
      match step
      case FillStep(descs) => Usable(descs, freeRX[..], frameSize) && Below(descs, Pow2(fill.bits), frameSize)
      case ReceiveStep(_) => true
      case TransmitStep(descs) => Usable(descs, freeTX[..], frameSize) && NotBelow(descs, Pow2(fill.bits), frameSize)
      case CompleteStep(n) => 0 <= n <= comp.produced - comp.consumed
    }

    /** One call, made if its arguments keep to the rules. */
    method Do(step: AppStep) returns (r: Done)
      requires Valid() && Settled() && Sided()
      modifies this, fill, rx, tx, comp, fill.descs, rx.descs, tx.descs, comp.descs, freeRX, freeTX
      ensures Valid() && Settled() && Sided()
      ensures r.ready == old(Ready(step)) && (r.allowed <==> old(Allowed(step))) && StepDone(step, r, old(Log()), Log())
    {
      hide Frames, Frame, Addrs, Pow2, Low, Window, Wrap, Ring.Valid, Ring.Fifo, Exact, Usable, RxPipe, TxPipe, Real, SlotsReal, Separate, OnSides, Below, NotBelow;
      NothingAdded();
      match step
      case FillStep(descs) =>
        var ready := fill.NumFree();
        if Usable(descs, freeRX[..], frameSize) && Below(descs, Pow2(fill.bits), frameSize) {
          var n := FillSided(descs);
          return Done(true, ready, descs[..n]);
        }
        return Done(false, ready, []);
      case ReceiveStep(num) =>
        var ready := rx.NumUsed();
        var descs := ReceiveSided(num);
        return Done(true, ready, descs);
      case TransmitStep(descs) =>
        var ready := tx.NumFree();
        if Usable(descs, freeTX[..], frameSize) && NotBelow(descs, Pow2(fill.bits), frameSize) {
          var n := TransmitSided(descs);
          return Done(true, ready, descs[..n]);
        }
        return Done(false, ready, []);
      case CompleteStep(n) =>
        var ready := comp.NumUsed();
        if 0 <= n <= ready {
          CompleteSided(n);
          return Done(true, ready, []);
        }
        return Done(false, ready, []);
    }

    lemma NothingAdded()
      ensures fill.puts + Addrs([]) == fill.puts && tx.puts + [] == tx.puts
    {
    }

    /** Any run of such calls against any kernel, wherever the application has its descriptors from: no frame is ever on
        the kernel's side twice, the free lists and counts stay exact, and the logs tell what each call did. */
    method Run(script: seq<AppStep>) returns (results: seq<Done>, ghost trace: seq<Logs>)
      requires Valid() && Settled() && Sided()
      modifies this, fill, rx, tx, comp, fill.descs, rx.descs, tx.descs, comp.descs, freeRX, freeTX
      ensures Valid() && Settled() && Sided() && forall f: nat :: KernelCopies(f) <= 1
      ensures ScriptDone(script, results, trace) && trace[0] == old(Log()) && trace[|script|] == Log()
    {
      hide Frames, Frame, Addrs, Pow2, Low, Window, Wrap, Ring.Valid, Ring.Fifo, Exact, RxPipe, TxPipe, Real, SlotsReal, Separate, KernelCopies, OnSides, StepDone, Allowed, Ready;
      results, trace := [], [Log()];
      var i := 0;
      while i < |script|
        invariant 0 <= i <= |script| && Valid() && Settled() && Sided()
        invariant ScriptDone(script[..i], results, trace) && trace[0] == old(Log()) && trace[i] == Log()
      {
        KernelSided();
        var r := Do(script[i]);
        ScriptNext(script, i, results, trace, r, Log());
        results, trace := results + [r], trace + [Log()];
        i := i + 1;
      }
      assert script[..i] == script;
      forall f: nat ensures KernelCopies(f) <= 1 { Ownership(f); }
    }

    method KernelSided()
      requires Valid() && Settled() && Sided()
      modifies fill`consumer, fill`consumed, fill`taken, fill`gets, rx`producer, rx`produced, rx`written, rx`puts, rx.descs,
        tx`consumer, tx`consumed, tx`taken, tx`gets, comp`producer, comp`produced, comp`written, comp`puts, comp.descs,
        `kernelRx, `kernelTx, `clock
      ensures Valid() && Settled() && Sided() && Log() == old(Log())
    {
      hide Frames, Frame, Addrs, Pow2, Low, Window, Wrap, Ring.Valid, Ring.Fifo, Exact, RxPipe, TxPipe, Real, SlotsReal, OnSides;
      ghost var a, b := freeRX[..], freeTX[..];
      Kernel();
      assert freeRX[..] == a && freeTX[..] == b;
    }

    /** Transmitting a frame of the receive side, as the package's own example does with what it received:
        GetDescs then offers the frame for reception while the kernel still has it to send. */
    method TransmitReceived(d: Desc) returns (descs: seq<Desc>)
      requires Valid() && Settled() && Pow2(fill.bits) <= numFrames && tx.produced - tx.consumed < Pow2(tx.bits)
      requires Frame(d.addr, frameSize) < Pow2(fill.bits) && freeRX[Frame(d.addr, frameSize)] && freeTX[Frame(d.addr, frameSize)]
      modifies this, fill, rx, tx, comp, fill.descs, rx.descs, tx.descs, comp.descs, freeRX, freeTX
      ensures Valid() && Settled() && Holds(descs, Frame(d.addr, frameSize), frameSize) && KernelCopies(Frame(d.addr, frameSize)) == 1
    {
      hide Frames, Frame, Addrs, Pow2, Low, Window, Wrap, Ring.Valid, Ring.Fifo, Bag, Exact, LowestFree, RxPipe, TxPipe, Real, SlotsReal, KernelCopies;
      var f := Frame(d.addr, frameSize);
      ghost var other := freeRX[..];
      var n := Transmit([d]);
      assert freeRX[..] == other;
      assert [d][..n] == [d] && [d][0] == d;
      assert Holds([d], f, frameSize);
      assert !freeTX[..][f];
      var r := GetDescs(Pow2(fill.bits), true);
      descs := r.value;
      AllFree(descs, freeRX[..], Pow2(fill.bits), frameSize, f);
      Ownership(f);
    }
  }

  method NewRing<T>(bits: nat, start: nat, v: T) returns (r: Ring<T>)
    requires bits <= 31
    ensures fresh(r) && fresh(r.descs) && r.bits == bits && r.Valid() && r.Fifo() && r.Queue() == []
    ensures r.written == r.produced && r.taken == r.consumed && r.produced == r.consumed
    ensures forall i :: 0 <= i < r.descs.Length ==> r.descs[i] == v
  {
    var descs := new T[Pow2(bits)](_ => v);
    r := new Ring(bits, descs, start);
  }

  /** A socket over rings of any size and with any initial counters. */
  method Open(numFrames: nat, frameSize: nat, bits: (nat, nat, nat, nat), starts: (nat, nat, nat, nat), kernel: nat -> seq<KernelStep>)
    returns (s: Socket)
    requires numFrames > 0 && frameSize > 0 && bits.0 <= 31 && bits.1 <= 31 && bits.2 <= 31 && bits.3 <= 31
    ensures fresh(s) && fresh(s.fill) && fresh(s.rx) && fresh(s.tx) && fresh(s.comp) && fresh(s.freeRX) && fresh(s.freeTX)
    ensures fresh(s.fill.descs) && fresh(s.rx.descs) && fresh(s.tx.descs) && fresh(s.comp.descs)
    ensures s.Valid() && s.Settled() && s.Sided() && s.kernel == kernel && s.comp.bits == bits.3
    ensures s.comp.produced == s.comp.consumed
  {
    hide Frames, Frame, Addrs, Window, Wrap, Pow2, Socket.Valid, OnSides, Ring.Valid, Ring.Fifo, Ring.Queue;
    FrameStart(0, frameSize, 0);
    var fill := NewRing(bits.0, starts.0, 0);
    var rx := NewRing(bits.1, starts.1, Desc(0, 0));
    var tx := NewRing(bits.2, starts.2, Desc(0, 0));
    var comp := NewRing(bits.3, starts.3, 0);
    s := new Socket(numFrames, frameSize, fill, rx, tx, comp, kernel);
  }

  /** From its opening on, against any kernel, no calls that keep to the rules bring a frame to the kernel's side twice. */
  method OpenAndRun(numFrames: nat, frameSize: nat, bits: (nat, nat, nat, nat), starts: (nat, nat, nat, nat),
                    kernel: nat -> seq<KernelStep>, script: seq<AppStep>)
    returns (s: Socket, results: seq<Done>, ghost trace: seq<Logs>)
    requires numFrames > 0 && frameSize > 0 && bits.0 <= 31 && bits.1 <= 31 && bits.2 <= 31 && bits.3 <= 31
    ensures fresh(s) && s.Valid() && s.Settled() && s.Sided() && forall f: nat :: s.KernelCopies(f) <= 1
    ensures ScriptDone(script, results, trace) && trace[|script|] == s.Log()
  {
    hide Frames, Frame, Addrs, Pow2, Low, Window, Wrap, Ring.Valid, Ring.Fifo, Exact, OnSides, Pipe;
    s := Open(numFrames, frameSize, bits, starts, kernel);
    results, trace := s.Run(script);
  }

  /** Asking a new socket for one completion while the kernel does nothing: the ring reports to be full. */
  method CompleteNothing(numFrames: nat, frameSize: nat, bits: (nat, nat, nat, nat), starts: (nat, nat, nat, nat)) returns (completed: nat)
    requires numFrames > 0 && frameSize > 0 && bits.0 <= 31 && bits.1 <= 31 && bits.2 <= 31 && bits.3 <= 31
    ensures completed == Pow2(bits.3)
  {
    RingFits(bits.3);
    hide Frames, Frame, Addrs, Pow2, Low, Window, Wrap, Ring.Valid, Ring.Fifo, Exact, OnSides, Pipe;
    var s := Open(numFrames, frameSize, bits, starts, _ => []);
    completed := s.CompleteTooMany(1);
  }

  lemma ProducerIs<T>(r: Ring<T>)
    requires r.Valid()
    ensures r.producer == Wrap(r.produced)
  {
  }

  lemma ConsumerIs<T>(r: Ring<T>)
    requires r.Valid()
    ensures r.consumer == Wrap(r.consumed)
  {
  }

  lemma RingHasSlots<T>(r: Ring<T>)
    requires r.Valid()
    ensures r.bits <= 31 && r.descs.Length == Pow2(r.bits)
  {
  }

  lemma PastProducer<T>(r: Ring<T>)
    requires r.consumed > r.produced
    ensures !r.Valid()
  {
  }

  /** A consumer ahead of its producer looks like a full ring. */
  lemma AheadWraps(produced: nat, ahead: nat, bits: nat)
    requires bits <= 31 && 0 < ahead <= WORD32 - Pow2(bits)
    ensures Wrap(Wrap(produced) - Wrap(produced + ahead)) >= Pow2(bits)
  {
    RingFits(bits);
    hide Pow2;
    var a: int, b: int := Wrap(produced), Wrap(produced + ahead);
    var q, q' := produced / WORD32, (produced + ahead) / WORD32;
    assert produced == WORD32 * q + a && produced + ahead == WORD32 * q' + b;
    assert a - b == WORD32 * (q' - q) - ahead;
    assert q' - q == 0 || q' - q == 1;
  }

  function Min(a: int, b: int): int { if a < b then a else b }

  lemma NoneMarked(free: seq<bool>, frameSize: nat)
    requires frameSize > 0
    ensures MarkedUsed(free, free, [], frameSize) && MarkedFree(free, free, [], frameSize) && Addrs([]) == []
    ensures Bag([], frameSize) == multiset{}
  {
  }

  lemma NoSlots(slots: seq<nat>, bits: nat, start: nat)
    requires |slots| == Pow2(bits)
    ensures SlotDescs(slots, bits, start, 0) == []
  {
  }

  lemma SlotDescsInRange(slots: seq<nat>, bits: nat, start: nat, n: nat, numFrames: nat, frameSize: nat)
    requires frameSize > 0 && |slots| == Pow2(bits) && forall i :: 0 <= i < |slots| ==> Frame(slots[i], frameSize) < numFrames
    ensures InRange(SlotDescs(slots, bits, start, n), numFrames, frameSize)
  {
    hide Frame;
    var ds := SlotDescs(slots, bits, start, n);
    forall i | 0 <= i < |ds| ensures Frame(ds[i].addr, frameSize) < numFrames {
      assert ds[i].addr == slots[Low(start + i, bits)];
    }
  }

  lemma AllMarked(free: seq<bool>, free': seq<bool>, ds: seq<Desc>, frameSize: nat)
    requires frameSize > 0 && MarkedFree(free, free', ds, frameSize) && InRange(ds, |free|, frameSize)
    ensures forall d :: d in ds ==> Frame(d.addr, frameSize) < |free'| && free'[Frame(d.addr, frameSize)]
  {
    hide Frame;
    forall d | d in ds ensures Frame(d.addr, frameSize) < |free'| && free'[Frame(d.addr, frameSize)] {
      var i :| 0 <= i < |ds| && d == ds[i];
      assert Holds(ds, Frame(d.addr, frameSize), frameSize);
    }
  }

  lemma PrefixInRange(ds: seq<Desc>, n: nat, numFrames: nat, frameSize: nat)
    requires frameSize > 0 && n <= |ds| && InRange(ds, numFrames, frameSize)
    ensures InRange(ds[..n], numFrames, frameSize)
  {
    hide Frame;
  }

  lemma UsableInRange(ds: seq<Desc>, free: seq<bool>, frameSize: nat)
    requires frameSize > 0 && Usable(ds, free, frameSize)
    ensures InRange(ds, |free|, frameSize)
  {
    hide Frame;
  }

  lemma UsablePrefix(ds: seq<Desc>, n: nat, free: seq<bool>, frameSize: nat)
    requires frameSize > 0 && n <= |ds| && Usable(ds, free, frameSize)
    ensures Usable(ds[..n], free, frameSize)
  {
    hide Frame;
  }

  lemma RxUsed(free: seq<bool>, free': seq<bool>, freeTX: seq<bool>, ds: seq<Desc>, n: nat, side: nat, frameSize: nat)
    requires frameSize > 0 && n <= |ds| && OnSides(free, freeTX, side)
    requires Below(ds, side, frameSize) && MarkedUsed(free, free', ds[..n], frameSize)
    ensures OnSides(free', freeTX, side)
  {
    hide Frame;
    forall f | 0 <= f < |free'| && !free'[f] ensures f < side {
      if free[f] { var i :| 0 <= i < n && Frame(ds[..n][i].addr, frameSize) == f; }
    }
  }

  lemma TxUsed(freeRX: seq<bool>, free: seq<bool>, free': seq<bool>, ds: seq<Desc>, n: nat, side: nat, frameSize: nat)
    requires frameSize > 0 && n <= |ds| && OnSides(freeRX, free, side)
    requires NotBelow(ds, side, frameSize) && MarkedUsed(free, free', ds[..n], frameSize)
    ensures OnSides(freeRX, free', side)
  {
    hide Frame;
    forall f | 0 <= f < |free'| && !free'[f] ensures f >= side {
      if free[f] { var i :| 0 <= i < n && Frame(ds[..n][i].addr, frameSize) == f; }
    }
  }

  /** What is received comes from the receive side. */
  lemma RxFreed(free: seq<bool>, free': seq<bool>, freeTX: seq<bool>, ds: seq<Desc>, side: nat, frameSize: nat)
    requires frameSize > 0 && OnSides(free, freeTX, side) && MarkedFree(free, free', ds, frameSize)
    requires forall i :: 0 <= i < |ds| ==> Frame(ds[i].addr, frameSize) < |free| && !free[Frame(ds[i].addr, frameSize)]
    ensures OnSides(free', freeTX, side) && Below(ds, side, frameSize)
  {
    hide Frame, Holds;
  }

  lemma TxFreed(freeRX: seq<bool>, free: seq<bool>, free': seq<bool>, ds: seq<Desc>, side: nat, frameSize: nat)
    requires frameSize > 0 && MarkedFree(free, free', ds, frameSize)
    ensures OnSides(freeRX, free, side) ==> OnSides(freeRX, free', side)
  {
    hide Frame, Holds;
  }

  lemma NoFrames(frameSize: nat)
    requires frameSize > 0
    ensures Frames([], frameSize) == [] && Addrs([]) == []
  {
  }
}
