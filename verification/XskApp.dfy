/**
 The AF_XDP user program (af_xdp_user.c) against an arbitrary kernel: the frame allocator, the
 receive loop and the completion of transmissions, over the four rings. The kernel acts between
 any two steps of the program that it could notice; what it does there is given by an arbitrary
 schedule, so every statement holds for every run.

 A frame is identified by its address divided by the frame size. INVALID_UMEM_FRAME, which the
 program may put on the FILL ring when it runs out of frames, is not a frame.
 */
module XskApp {
  import opened Machine
  import opened Rings

  const NUM_FRAMES: nat := 4096
  const FRAME_SIZE: nat := 4096
  const RX_BATCH_SIZE: nat := 64
  const RING_BITS: nat := 11
  const NUM_DESCS: nat := 2048
  const INVALID_UMEM_FRAME: nat := 0xffff_ffff_ffff_ffff

  function Frame(addr: nat): nat { addr / FRAME_SIZE }

  predicate IsFrame(addr: nat) { Frame(addr) < NUM_FRAMES }

  // ----- counting frames -----

  /** The real frames among some addresses. */
  ghost function FramesOf(addrs: seq<nat>): multiset<nat> {
    if addrs == [] then multiset{}
    else FramesOf(addrs[..|addrs| - 1]) + FrameOf(addrs[|addrs| - 1])
  }

  function FrameOf(addr: nat): multiset<nat> {
    if IsFrame(addr) then multiset{Frame(addr)} else multiset{}
  }

  lemma {:induction false} FramesConcat(a: seq<nat>, b: seq<nat>)
    ensures FramesOf(a + b) == FramesOf(a) + FramesOf(b)
    decreases |b|
  {
    hide FrameOf;
    if b == [] {
      assert a + b == a;
    } else {
      var n := |b| - 1;
      var ab := a + b;
      FramesConcat(a, b[..n]);
      assert ab[..|ab| - 1] == a + b[..n] && ab[|ab| - 1] == b[n];
      assert FramesOf(ab) == FramesOf(ab[..|ab| - 1]) + FrameOf(b[n]);
    }
  }

  lemma FramesOne(a: nat)
    ensures FramesOf([a]) == FrameOf(a)
  {
    assert [a][..0] == [];
  }

  lemma FramesCons(a: nat, s: seq<nat>)
    ensures FramesOf([a] + s) == FrameOf(a) + FramesOf(s)
  {
    FramesOne(a);
    FramesConcat([a], s);
  }

  lemma FramesSnoc(s: seq<nat>, a: nat)
    ensures FramesOf(s + [a]) == FramesOf(s) + FrameOf(a)
  {
    FramesOne(a);
    FramesConcat(s, [a]);
  }

  ghost predicate AllReal(addrs: seq<nat>) {
    forall i :: 0 <= i < |addrs| ==> IsFrame(addrs[i])
  }

  lemma {:induction false} FramesCount(addrs: seq<nat>)
    ensures |FramesOf(addrs)| <= |addrs|
    ensures AllReal(addrs) ==> |FramesOf(addrs)| == |addrs|
    decreases |addrs|
  {
    if addrs != [] { FramesCount(addrs[..|addrs| - 1]); }
  }

  /** Frames 0 to n - 1, each once. */
  ghost function AllFrames(n: nat): multiset<nat> {
    if n == 0 then multiset{} else AllFrames(n - 1) + multiset{n - 1}
  }

  lemma {:induction false} AllFramesOnce(n: nat, f: nat)
    ensures AllFrames(n)[f] == if f < n then 1 else 0
    ensures |AllFrames(n)| == n
    decreases n
  {
    if n > 0 { AllFramesOnce(n - 1, f); }
  }

  /** `a` is `b` with some elements left out. */
  ghost predicate Subsequence<T>(a: seq<T>, b: seq<T>) {
    || a == []
    || (b != [] && (|| Subsequence(a, b[..|b| - 1])
                    || (a[|a| - 1] == b[|b| - 1] && Subsequence(a[..|a| - 1], b[..|b| - 1]))))
  }

  lemma SubsequenceSkip<T>(a: seq<T>, b: seq<T>, x: T)
    requires Subsequence(a, b)
    ensures Subsequence(a, b + [x])
  {
    assert (b + [x])[..|b|] == b;
  }

  lemma SubsequenceTake<T>(a: seq<T>, b: seq<T>, x: T)
    requires Subsequence(a, b)
    ensures Subsequence(a + [x], b + [x])
  {
    assert (b + [x])[..|b|] == b && (a + [x])[..|a|] == a;
  }

  /** When a packet was looked at, and how many TX slots were free then. */
  datatype Look = Look(time: nat, room: int)

  /** The packet is an echo request and there is room for the reply. */
  ghost predicate Answered(isEcho: nat -> bool, look: Look) { isEcho(look.time) && look.room > 0 }

  /** The packets that are to be sent: the answered ones among those looked at, in order. */
  ghost function Answers(isEcho: nat -> bool, packets: seq<Desc>, looks: seq<Look>): seq<Desc>
    requires |looks| <= |packets|
    decreases |looks|
  {
    if looks == [] then []
    else
      var n := |looks| - 1;
      var earlier := Answers(isEcho, packets, looks[..n]);
      if Answered(isEcho, looks[n]) then earlier + [packets[n]] else earlier
  }

  /** Packets not looked at yet do not matter. */
  lemma {:induction false} AnswersPrefix(isEcho: nat -> bool, packets: seq<Desc>, d: Desc, looks: seq<Look>)
    requires |looks| <= |packets|
    ensures Answers(isEcho, packets + [d], looks) == Answers(isEcho, packets, looks)
    decreases |looks|
  {
    if looks != [] { AnswersPrefix(isEcho, packets, d, looks[..|looks| - 1]); }
  }

  lemma AnswersNext(isEcho: nat -> bool, packets: seq<Desc>, looks: seq<Look>, look: Look)
    requires |looks| < |packets|
    ensures Answers(isEcho, packets, looks + [look]) ==
            if Answered(isEcho, look) then Answers(isEcho, packets, looks) + [packets[|looks|]] else Answers(isEcho, packets, looks)
  {
    assert (looks + [look])[..|looks|] == looks;
  }

  lemma AnswersAdd(isEcho: nat -> bool, packets: seq<Desc>, looks: seq<Look>, time: nat, room: int)
    requires |looks| < |packets| && isEcho(time) && room > 0
    ensures Answers(isEcho, packets, looks + [Look(time, room)]) == Answers(isEcho, packets, looks) + [packets[|looks|]]
  {
    AnswersNext(isEcho, packets, looks, Look(time, room));
  }

  /** Only packets looked at are answered, each once and in order. */
  lemma {:induction false} AnswersAmong(isEcho: nat -> bool, packets: seq<Desc>, looks: seq<Look>)
    requires |looks| <= |packets|
    ensures Subsequence(Answers(isEcho, packets, looks), packets[..|looks|])
    decreases |looks|
  {
    if looks != [] {
      var n := |looks| - 1;
      AnswersAmong(isEcho, packets, looks[..n]);
      assert packets[..n + 1] == packets[..n] + [packets[n]];
      SubsequenceSkip(Answers(isEcho, packets, looks[..n]), packets[..n], packets[n]);
      SubsequenceTake(Answers(isEcho, packets, looks[..n]), packets[..n], packets[n]);
    }
  }

  /**
   `n` packets more were looked at, from `time` on, one at every other point in time. If `room` TX slots were free
   before, at least `room - k` were when the k-th of them was looked at.
   */
  ghost predicate Looked(before: seq<Look>, after: seq<Look>, n: nat, time: nat, room: int) {
    && |after| == |before| + n && before <= after
    && forall k :: 0 <= k < n ==> LookedAt(after, |before|, k, time, room)
  }

  predicate LookedAt(looks: seq<Look>, from: nat, k: nat, time: nat, room: int)
    requires from + k < |looks|
  {
    looks[from + k].time == time + 1 + 2 * k && looks[from + k].room >= room - k
  }

  lemma LookedNone(looks: seq<Look>, time: nat, room: int)
    ensures Looked(looks, looks, 0, time, room)
  {
  }

  /** What is known with more room is known with less. */
  lemma LookedLess(before: seq<Look>, after: seq<Look>, n: nat, time: nat, room: int, less: int)
    requires Looked(before, after, n, time, room) && less <= room
    ensures Looked(before, after, n, time, less)
  {
    forall k | 0 <= k < n ensures LookedAt(after, |before|, k, time, less) { assert LookedAt(after, |before|, k, time, room); }
  }

  lemma LookedMore(before: seq<Look>, after: seq<Look>, n: nat, time: nat, room: int, look: Look)
    requires Looked(before, after, n, time, room) && look.time == time + 1 + 2 * n && look.room >= room - n
    ensures Looked(before, after + [look], n + 1, time, room)
  {
    var more := after + [look];
    assert before <= more;
    forall k | 0 <= k < n + 1 ensures LookedAt(more, |before|, k, time, room) {
      if k < n { assert LookedAt(after, |before|, k, time, room); }
    }
  }

  /** Where the frames are. `hand` is the frame the program is working on. */
  datatype Places = Places(free: seq<nat>, fill: seq<nat>, kernelRx: multiset<nat>, rx: seq<nat>,
                           tx: seq<nat>, kernelTx: multiset<nat>, comp: seq<nat>, hand: multiset<nat>)

  /** The number of places holding frame `f`. */
  ghost function PlacesOf(p: Places, f: nat): nat {
    FramesOf(p.free)[f] + FramesOf(p.fill)[f] + p.kernelRx[f] + FramesOf(p.rx)[f] + FramesOf(p.tx)[f] +
    p.kernelTx[f] + FramesOf(p.comp)[f] + p.hand[f]
  }

  /** Every frame is in exactly one place. */
  ghost predicate Conserved(p: Places) {
    forall f: nat :: PlacesOf(p, f) == if f < NUM_FRAMES then 1 else 0
  }

  /** While the program holds a frame, the free stack is not full. */
  lemma StackNotFull(p: Places, f: nat)
    requires Conserved(p) && AllReal(p.free) && f in p.hand
    ensures |p.free| < NUM_FRAMES
  {
    hide FramesOf, AllFrames;
    FramesCount(p.free);
    var held := FramesOf(p.free) + multiset{f};
    forall g: nat ensures held[g] <= AllFrames(NUM_FRAMES)[g] {
      AllFramesOnce(NUM_FRAMES, g);
      assert PlacesOf(p, g) == if g < NUM_FRAMES then 1 else 0;
    }
    Contained(held, AllFrames(NUM_FRAMES));
    AllFramesOnce(NUM_FRAMES, 0);
  }

  lemma Contained(a: multiset<nat>, b: multiset<nat>)
    requires forall g: nat :: a[g] <= b[g]
    ensures |a| <= |b|
  {
    assert b == a + (b - a);
  }

  /** The addresses in ring places all belong to real frames, except on the FILL ring. */
  ghost predicate RealPlaces(p: Places) {
    AllReal(p.free) && AllReal(p.rx) && AllReal(p.tx) && AllReal(p.comp)
  }

  ghost predicate PlacesOk(p: Places) { Conserved(p) && RealPlaces(p) }

  // ----- each step moves a frame from one place to another -----

  lemma Moved(p: Places, p': Places)
    requires Conserved(p) && forall f: nat :: PlacesOf(p', f) == PlacesOf(p, f)
    ensures Conserved(p')
  {
  }

  lemma HeldFrame(p: Places, f: nat)
    requires Conserved(p) && (f in p.kernelRx || f in p.kernelTx || f in p.hand)
    ensures f < NUM_FRAMES
  {
    assert PlacesOf(p, f) == if f < NUM_FRAMES then 1 else 0;
  }

  lemma FillTaken(p: Places, a: nat, rest: seq<nat>)
    requires PlacesOk(p) && p.fill == [a] + rest
    ensures PlacesOk(p.(fill := rest, kernelRx := p.kernelRx + FrameOf(a)))
  {
    hide FramesOf;
    var p' := p.(fill := rest, kernelRx := p.kernelRx + FrameOf(a));
    FramesCons(a, rest);
    forall g: nat ensures PlacesOf(p', g) == PlacesOf(p, g) { }
    Moved(p, p');
  }

  lemma Delivered(p: Places, f: nat, a: nat)
    requires PlacesOk(p) && f in p.kernelRx && Frame(a) == f
    ensures PlacesOk(p.(kernelRx := p.kernelRx - multiset{f}, rx := p.rx + [a]))
  {
    hide FramesOf;
    var p' := p.(kernelRx := p.kernelRx - multiset{f}, rx := p.rx + [a]);
    HeldFrame(p, f);
    FramesSnoc(p.rx, a);
    forall g: nat ensures PlacesOf(p', g) == PlacesOf(p, g) { }
    Moved(p, p');
  }

  lemma TxTaken(p: Places, a: nat, rest: seq<nat>)
    requires PlacesOk(p) && p.tx == [a] + rest
    ensures PlacesOk(p.(tx := rest, kernelTx := p.kernelTx + multiset{Frame(a)})) && IsFrame(a)
  {
    hide FramesOf;
    var p' := p.(tx := rest, kernelTx := p.kernelTx + multiset{Frame(a)});
    FramesCons(a, rest);
    assert IsFrame(p.tx[0]);
    assert forall i :: 0 <= i < |rest| ==> rest[i] == p.tx[i + 1];
    forall g: nat ensures PlacesOf(p', g) == PlacesOf(p, g) { }
    Moved(p, p');
  }

  lemma Completed(p: Places, f: nat, a: nat)
    requires PlacesOk(p) && f in p.kernelTx && Frame(a) == f
    ensures PlacesOk(p.(kernelTx := p.kernelTx - multiset{f}, comp := p.comp + [a]))
  {
    hide FramesOf;
    var p' := p.(kernelTx := p.kernelTx - multiset{f}, comp := p.comp + [a]);
    HeldFrame(p, f);
    FramesSnoc(p.comp, a);
    forall g: nat ensures PlacesOf(p', g) == PlacesOf(p, g) { }
    Moved(p, p');
  }

  lemma TakenFree(p: Places, free: seq<nat>, a: nat)
    requires PlacesOk(p) && p.free == free + [a] && p.hand == multiset{}
    ensures PlacesOk(p.(free := free, hand := FrameOf(a)))
  {
    hide FramesOf;
    var p' := p.(free := free, hand := FrameOf(a));
    FramesSnoc(free, a);
    assert forall i :: 0 <= i < |free| ==> free[i] == p.free[i];
    forall g: nat ensures PlacesOf(p', g) == PlacesOf(p, g) { }
    Moved(p, p');
  }

  /** What is put on the FILL ring need not be a frame: INVALID_UMEM_FRAME moves none. */
  lemma PutOnFill(p: Places, a: nat)
    requires PlacesOk(p) && p.hand == FrameOf(a)
    ensures PlacesOk(p.(hand := multiset{}, fill := p.fill + [a]))
  {
    hide FramesOf;
    var p' := p.(hand := multiset{}, fill := p.fill + [a]);
    FramesSnoc(p.fill, a);
    forall g: nat ensures PlacesOf(p', g) == PlacesOf(p, g) { }
    Moved(p, p');
  }

  lemma NoFrame()
    ensures FrameOf(INVALID_UMEM_FRAME) == multiset{}
  {
  }

  lemma RxTaken(p: Places, a: nat, rest: seq<nat>)
    requires PlacesOk(p) && p.rx == [a] + rest && p.hand == multiset{}
    ensures PlacesOk(p.(rx := rest, hand := multiset{Frame(a)})) && IsFrame(a)
  {
    hide FramesOf;
    var p' := p.(rx := rest, hand := multiset{Frame(a)});
    FramesCons(a, rest);
    assert IsFrame(p.rx[0]);
    assert forall i :: 0 <= i < |rest| ==> rest[i] == p.rx[i + 1];
    forall g: nat ensures PlacesOf(p', g) == PlacesOf(p, g) { }
    Moved(p, p');
  }

  lemma CompTaken(p: Places, a: nat, rest: seq<nat>)
    requires PlacesOk(p) && p.comp == [a] + rest && p.hand == multiset{}
    ensures PlacesOk(p.(comp := rest, hand := multiset{Frame(a)})) && IsFrame(a)
  {
    hide FramesOf;
    var p' := p.(comp := rest, hand := multiset{Frame(a)});
    FramesCons(a, rest);
    assert IsFrame(p.comp[0]);
    assert forall i :: 0 <= i < |rest| ==> rest[i] == p.comp[i + 1];
    forall g: nat ensures PlacesOf(p', g) == PlacesOf(p, g) { }
    Moved(p, p');
  }

  lemma Freed(p: Places, a: nat)
    requires PlacesOk(p) && IsFrame(a) && p.hand == multiset{Frame(a)}
    ensures PlacesOk(p.(hand := multiset{}, free := p.free + [a])) && |p.free| < NUM_FRAMES
  {
    hide FramesOf;
    var p' := p.(hand := multiset{}, free := p.free + [a]);
    StackNotFull(p, Frame(a));
    FramesSnoc(p.free, a);
    forall g: nat ensures PlacesOf(p', g) == PlacesOf(p, g) { }
    Moved(p, p');
  }

  lemma Sent(p: Places, a: nat)
    requires PlacesOk(p) && IsFrame(a) && p.hand == multiset{Frame(a)}
    ensures PlacesOk(p.(hand := multiset{}, tx := p.tx + [a]))
  {
    hide FramesOf;
    var p' := p.(hand := multiset{}, tx := p.tx + [a]);
    FramesSnoc(p.tx, a);
    forall g: nat ensures PlacesOf(p', g) == PlacesOf(p, g) { }
    Moved(p, p');
  }

  ghost function InitialFrames(n: nat): (s: seq<nat>)
    ensures |s| == n
  {
    seq(n, i requires 0 <= i < n => i * FRAME_SIZE)
  }

  lemma InitialNone()
    ensures FramesOf(InitialFrames(0)) == multiset{} && AllReal(InitialFrames(0))
  {
  }

  lemma InitialSnoc(n: nat)
    requires n < NUM_FRAMES
    ensures FramesOf(InitialFrames(n + 1)) == FramesOf(InitialFrames(n)) + multiset{n}
    ensures AllReal(InitialFrames(n)) ==> AllReal(InitialFrames(n + 1))
  {
    hide FramesOf, FrameOf;
    FrameOfStart(n);
    assert InitialFrames(n + 1) == InitialFrames(n) + [n * FRAME_SIZE];
    FramesSnoc(InitialFrames(n), n * FRAME_SIZE);
  }

  lemma FrameOfStart(n: nat)
    requires n < NUM_FRAMES
    ensures FrameOf(n * FRAME_SIZE) == multiset{n} && IsFrame(n * FRAME_SIZE)
  {
  }

  lemma {:induction false} InitialFramesAll(n: nat, f: nat)
    requires n <= NUM_FRAMES
    ensures FramesOf(InitialFrames(n))[f] == if f < n then 1 else 0
    ensures AllReal(InitialFrames(n))
    decreases n
  {
    if n > 0 {
      hide FramesOf, FrameOf, InitialFrames, AllReal, Frame;
      InitialFramesAll(n - 1, f);
      InitialSnoc(n - 1);
    } else {
      InitialNone();
    }
  }

  lemma InitialFramesAre(s: seq<nat>)
    requires |s| == NUM_FRAMES && forall i :: 0 <= i < |s| ==> s[i] == i * FRAME_SIZE
    ensures s == InitialFrames(NUM_FRAMES)
  {
  }

  lemma InitialConserved(p: Places)
    requires p == Places(InitialFrames(NUM_FRAMES), [], multiset{}, [], [], multiset{}, [], multiset{})
    ensures PlacesOk(p)
  {
    InitialFramesAll(NUM_FRAMES, 0);
    forall f: nat ensures PlacesOf(p, f) == if f < NUM_FRAMES then 1 else 0 { InitialFramesAll(NUM_FRAMES, f); }
  }

  // ----- what allocating gives -----

  ghost function Top(stack: seq<nat>): nat { if stack == [] then INVALID_UMEM_FRAME else stack[|stack| - 1] }

  ghost function Rest(stack: seq<nat>): seq<nat> { if stack == [] then [] else stack[..|stack| - 1] }

  /** What is left of the stack after `n` allocations. */
  ghost function Left(stack: seq<nat>, n: nat): seq<nat> { if n == 0 then stack else Rest(Left(stack, n - 1)) }

  /** What `n` allocations give. */
  ghost function Popped(stack: seq<nat>, n: nat): seq<nat> {
    if n == 0 then [] else Popped(stack, n - 1) + [Top(Left(stack, n - 1))]
  }

  lemma PopStep(stack: seq<nat>, n: nat)
    ensures Popped(stack, n + 1) == Popped(stack, n) + [Top(Left(stack, n))] && Left(stack, n + 1) == Rest(Left(stack, n))
  {
  }

  lemma PopNone(stack: seq<nat>)
    ensures Popped(stack, 0) == [] && Left(stack, 0) == stack
  {
  }

  lemma {:induction false} LeftIs(stack: seq<nat>, n: nat)
    ensures Left(stack, n) == if n <= |stack| then stack[..|stack| - n] else []
    decreases n
  {
    if n > 0 { LeftIs(stack, n - 1); }
  }

  /** The free frames come first, from the top; all slots beyond them get INVALID_UMEM_FRAME. */
  lemma {:induction false} PoppedIs(stack: seq<nat>, n: nat)
    ensures |Popped(stack, n)| == n
    ensures forall i :: 0 <= i < n ==> Popped(stack, n)[i] == if i < |stack| then stack[|stack| - 1 - i] else INVALID_UMEM_FRAME
    decreases n
  {
    if n > 0 {
      LeftIs(stack, n - 1);
      PoppedIs(stack, n - 1);
    }
  }

  /** The `n` FILL slots written are enough for all free frames, or all that the ring had room for: they hold the free
      frames from the top of the stack, then INVALID_UMEM_FRAME. */
  ghost predicate Stocked(stack: seq<nat>, queued: nat, n: nat, before: seq<nat>, after: seq<nat>) {
    after == before + Popped(stack, n) && (n >= |stack| || n == Pow2(RING_BITS) - queued)
  }

  method InitFrames(frames: array<nat>)
    requires frames.Length == NUM_FRAMES
    modifies frames
    ensures frames[..] == frames[..NUM_FRAMES] == InitialFrames(NUM_FRAMES)
  {
    var i := 0;
    while i < frames.Length
      invariant 0 <= i <= frames.Length && forall j :: 0 <= j < i ==> frames[j] == j * FRAME_SIZE
    {
      frames[i] := i * FRAME_SIZE;
      i := i + 1;
    }
    InitialFramesAre(frames[..]);
  }

  class XskSocket {
    const umemFrameAddr: array<nat>
    var umemFrameFree: nat
    var outstandingTx: nat
    const fq: ProdRing<nat>
    const cq: ConsRing<nat>
    const rx: ConsRing<Desc>
    const tx: ProdRing<Desc>

    const kernel: nat -> seq<KernelStep>   // what the kernel does at each interleaving point
    const isEcho: nat -> bool              // whether the packet handled at that point is an echo request
    var clock: nat

    var kernelRx: multiset<nat>            // frames the kernel holds for reception
    var kernelTx: multiset<nat>            // frames the kernel is sending

    ghost var delivered: seq<Desc>     // all the kernel has put on the RX ring
    ghost var transmitted: seq<Desc>   // all the kernel has taken from the TX ring
    ghost var reported: seq<nat>       // all the kernel has put on the COMPLETION ring
    ghost var handled: seq<Desc>       // all packets the program has looked at
    ghost var looks: seq<Look>         // when, and with how much room, it looked at each
    ghost var sent: seq<Desc>          // all packets the program has sent
    ghost var reclaimed: seq<nat>      // all completions the program has taken back
    ghost var offers: seq<nat>         // all addresses the program has written to FILL slots
    ghost var granted: seq<nat>        // all the kernel has taken from the FILL ring

    ghost var hand: multiset<nat>
    ghost var filled: nat      // reserved FILL slots written so far
    ghost var rxDone: nat      // peeked RX entries handled so far
    ghost var compDone: nat    // peeked COMPLETION entries handled so far
    ghost var released: nat    // completions released but not subtracted from outstandingTx yet

    /** No two rings share memory. */
    ghost predicate Separate() {
      && (fq as object) != tx && (cq as object) != rx
      && fq.ring != cq.ring && fq.ring != umemFrameAddr && cq.ring != umemFrameAddr && rx.ring != tx.ring
      && (fq.ring as object) != rx.ring && (fq.ring as object) != tx.ring
      && (cq.ring as object) != rx.ring && (cq.ring as object) != tx.ring
      && (umemFrameAddr as object) != rx.ring && (umemFrameAddr as object) != tx.ring
    }

    ghost predicate RingsOk()
      reads this, fq, cq, rx, tx, fq.ring, cq.ring, rx.ring, tx.ring
    {
      && fq.Valid() && cq.Valid() && rx.Valid() && tx.Valid()
      && fq.bits == cq.bits == rx.bits == tx.bits == RING_BITS
      && filled <= |fq.Open()| && rxDone <= |rx.Peeked()| && compDone <= |cq.Peeked()|
      && umemFrameAddr.Length == NUM_FRAMES && umemFrameFree <= NUM_FRAMES
    }

    /** The free frames, the next one to be taken last. */
    ghost function Stack(): seq<nat>
      requires umemFrameFree <= umemFrameAddr.Length
      reads umemFrameAddr, `umemFrameFree
    {
      umemFrameAddr[..umemFrameFree]
    }

    ghost function View(): Places
      requires RingsOk()
      reads this, fq, cq, rx, tx, fq.ring, cq.ring, rx.ring, tx.ring, umemFrameAddr
    {
      Places(Stack(),
             fq.Queue() + fq.Open()[..filled], kernelRx, Addrs(rx.Peeked()[rxDone..] + rx.Queue()),
             Addrs(tx.Queue()), kernelTx, cq.Peeked()[compDone..] + cq.Queue(), hand)
    }

    /** What was offered for reception reaches the kernel in that order. */
    ghost predicate FillLog()
      requires fq.Valid() && filled <= |fq.Open()|
      reads fq, fq.ring, `filled, `offers, `granted
    {
      offers == granted + (fq.Queue() + fq.Open()[..filled])
    }

    /** Packets are handled in the order of delivery, each once. */
    ghost predicate RxLog()
      requires rx.Valid() && rxDone <= |rx.Peeked()|
      reads rx, rx.ring, `rxDone, `delivered, `handled
    {
      delivered == handled + (rx.Peeked()[rxDone..] + rx.Queue())
    }

    /** Packets leave in the order they were sent; sent are exactly the echo requests that found room. */
    ghost predicate TxLog()
      requires tx.Valid()
      reads tx, tx.ring, `transmitted, `sent, `handled, `looks
    {
      sent == transmitted + tx.Queue() && |looks| <= |handled| && sent == Answers(isEcho, handled, looks)
    }

    /** Completions are taken back in the order they were reported, each once. */
    ghost predicate CompLog()
      requires cq.Valid() && compDone <= |cq.Peeked()|
      reads cq, cq.ring, `compDone, `reported, `reclaimed
    {
      reported == reclaimed + (cq.Peeked()[compDone..] + cq.Queue())
    }

    /** Every frame is in one place, and outstandingTx counts those sent and not yet taken back. */
    ghost predicate Valid()
      reads this, fq, cq, rx, tx, fq.ring, cq.ring, rx.ring, tx.ring, umemFrameAddr
    {
      && Separate() && RingsOk()
      && PlacesOk(View()) && FillLog() && RxLog() && TxLog() && CompLog()
      && outstandingTx == |tx.Queue()| + |kernelTx| + |cq.Queue()| + |cq.Peeked()| + released
      && |transmitted| == |reported| + |kernelTx|
    }

    /** Over four empty rings, whatever their counters, makes every frame free. */
    constructor Empty(fq: ProdRing<nat>, cq: ConsRing<nat>, rx: ConsRing<Desc>, tx: ProdRing<Desc>, frames: array<nat>,
                      kernel: nat -> seq<KernelStep>, isEcho: nat -> bool)
      requires fq.Valid() && cq.Valid() && rx.Valid() && tx.Valid()
      requires fq.bits == cq.bits == rx.bits == tx.bits == RING_BITS && frames.Length == NUM_FRAMES
      requires fq.Queue() == [] && fq.Open() == [] && cq.Queue() == [] && cq.Peeked() == []
      requires rx.Queue() == [] && rx.Peeked() == [] && tx.Queue() == [] && tx.Open() == []
      requires (fq as object) != tx && (cq as object) != rx
      requires fq.ring != cq.ring && fq.ring != frames && cq.ring != frames && rx.ring != tx.ring
      requires (fq.ring as object) != rx.ring && (fq.ring as object) != tx.ring
      requires (cq.ring as object) != rx.ring && (cq.ring as object) != tx.ring
      requires (frames as object) != rx.ring && (frames as object) != tx.ring
      requires frames[..] == InitialFrames(NUM_FRAMES)
      ensures Valid() && Quiet() && umemFrameFree == NUM_FRAMES && Stack() == InitialFrames(NUM_FRAMES)
      ensures fq.Queue() == [] && offers == [] && handled == []
      ensures this.fq == fq && this.cq == cq && this.rx == rx && this.tx == tx && umemFrameAddr == frames
      ensures this.kernel == kernel && this.isEcho == isEcho
    {
      hide PlacesOk, FrameOf, Addrs, Pow2, Window, Wrap, ProdRing.Valid, ConsRing.Valid, InitialFrames;
      this.fq, this.cq, this.rx, this.tx, umemFrameAddr := fq, cq, rx, tx, frames;
      this.kernel, this.isEcho, clock := kernel, isEcho, 0;
      umemFrameFree, outstandingTx := NUM_FRAMES, 0;
      kernelRx, kernelTx, hand := multiset{}, multiset{}, multiset{};
      filled, rxDone, compDone, released := 0, 0, 0, 0;
      delivered, transmitted, reported, handled, looks, sent, reclaimed := [], [], [], [], [], [], [];
      offers, granted := [], [];
      new;
      NoAddrs();
      assert Stack() == umemFrameAddr[..];
      InitialConserved(View());
    }

    /** Nothing is reserved, peeked or in hand. */
    ghost predicate Idle()
      requires RingsOk()
      reads this, fq, cq, rx, tx, fq.ring, cq.ring, rx.ring, tx.ring
    {
      && fq.Open() == [] && tx.Open() == [] && rx.Peeked() == [] && cq.Peeked() == []
      && hand == multiset{} && filled == rxDone == compDone == 0 && |looks| == |handled|
    }

    /** The program is between two rounds. */
    ghost predicate Quiet()
      requires RingsOk()
      reads this, fq, cq, rx, tx, fq.ring, cq.ring, rx.ring, tx.ring
    {
      Idle() && released == 0
    }

    /** `n` received packets are peeked, of which `done` are handled; nothing else is under way. */
    ghost predicate Receiving(n: nat, done: nat)
      requires RingsOk()
      reads this, fq, cq, rx, tx, fq.ring, cq.ring, rx.ring, tx.ring
    {
      && fq.Open() == [] && tx.Open() == [] && |rx.Peeked()| == n && cq.Peeked() == []
      && hand == multiset{} && rxDone == done && filled == compDone == released == 0 && |looks| == |handled|
    }

    // ----- the kernel -----

    method KernelTakeFill()
      requires Valid() && |fq.Queue()| > 0
      modifies fq`consumer, fq`consumed, `kernelRx, `granted
      ensures Valid() && fq.Open() == old(fq.Open()) && |fq.Queue()| <= |old(fq.Queue())|
      ensures tx.Open() == old(tx.Open()) && tx.Queue() == old(tx.Queue())
      ensures rx.Peeked() == old(rx.Peeked()) && cq.Peeked() == old(cq.Peeked())
      ensures rx.Queue() == old(rx.Queue()) && cq.Queue() == old(cq.Queue())
    {
      hide PlacesOk, Answers, FrameOf, Addrs, Pow2, Window, Wrap, ProdRing.Valid, ConsRing.Valid, RxLog, TxLog, CompLog;
      ghost var p := View();
      var a := fq.KernelConsume();
      ghost var rest := fq.Queue() + fq.Open()[..filled];
      assert p.fill == [a] + rest;
      FillTaken(p, a, rest);
      kernelRx := kernelRx + FrameOf(a);
      assert granted + ([a] + rest) == (granted + [a]) + rest;
      granted := granted + [a];
    }

    method KernelDeliver(frame: nat, offset: nat, len: nat)
      requires Valid() && frame in kernelRx && offset < FRAME_SIZE && |rx.Peeked()| + |rx.Queue()| < NUM_DESCS
      modifies rx`producer, rx`produced, rx.ring, `kernelRx, `delivered
      ensures Valid() && rx.Peeked() == old(rx.Peeked()) && |rx.Queue()| > 0 && delivered == old(delivered) + [Desc(frame * FRAME_SIZE + offset, len)]
      ensures fq.Open() == old(fq.Open()) && tx.Open() == old(tx.Open()) && cq.Peeked() == old(cq.Peeked())
      ensures fq.Queue() == old(fq.Queue()) && tx.Queue() == old(tx.Queue())
      ensures |rx.Queue()| >= |old(rx.Queue())| && cq.Queue() == old(cq.Queue())
    {
      RingSize();
      hide PlacesOk, Answers, FrameOf, Addrs, Pow2, Window, Wrap, ProdRing.Valid, ConsRing.Valid, TxLog, CompLog;
      ghost var p := View();
      ghost var ds := rx.Peeked()[rxDone..] + rx.Queue();
      var a := frame * FRAME_SIZE + offset;
      rx.KernelProduce(Desc(a, len));
      assert rx.Peeked()[rxDone..] + rx.Queue() == ds + [Desc(a, len)];
      AddrsSnoc(ds, Desc(a, len));
      Delivered(p, frame, a);
      kernelRx := kernelRx - multiset{frame};
      delivered := delivered + [Desc(a, len)];
    }

    method KernelTakeTx()
      requires Valid() && |tx.Queue()| > 0
      modifies tx`consumer, tx`consumed, `kernelTx, `transmitted
      ensures Valid() && tx.Open() == old(tx.Open()) && |tx.Queue()| <= |old(tx.Queue())|
      ensures fq.Open() == old(fq.Open()) && fq.Queue() == old(fq.Queue())
      ensures rx.Peeked() == old(rx.Peeked()) && cq.Peeked() == old(cq.Peeked())
      ensures rx.Queue() == old(rx.Queue()) && cq.Queue() == old(cq.Queue())
    {
      hide PlacesOk, Answers, FrameOf, Addrs, Pow2, Window, Wrap, ProdRing.Valid, ConsRing.Valid, RxLog, CompLog;
      ghost var p := View();
      ghost var queue := tx.Queue();
      var d := tx.KernelConsume();
      assert queue == [d] + tx.Queue();
      transmitted := transmitted + [d];
      AddrsCons(d, tx.Queue());
      TxTaken(p, d.addr, Addrs(tx.Queue()));
      kernelTx := kernelTx + multiset{Frame(d.addr)};
    }

    method KernelComplete(frame: nat, offset: nat)
      requires Valid() && frame in kernelTx && offset < FRAME_SIZE && |cq.Peeked()| + |cq.Queue()| < NUM_DESCS
      modifies cq`producer, cq`produced, cq.ring, `kernelTx, `reported
      ensures Valid() && cq.Peeked() == old(cq.Peeked())
      ensures fq.Open() == old(fq.Open()) && tx.Open() == old(tx.Open()) && rx.Peeked() == old(rx.Peeked())
      ensures fq.Queue() == old(fq.Queue()) && tx.Queue() == old(tx.Queue())
      ensures rx.Queue() == old(rx.Queue()) && |cq.Queue()| >= |old(cq.Queue())|
      ensures |reported| >= |old(reported)| && |transmitted| >= |old(transmitted)| && |delivered| >= |old(delivered)| && clock >= old(clock)
    {
      RingSize();
      hide PlacesOk, Answers, FrameOf, Addrs, Pow2, Window, Wrap, ProdRing.Valid, ConsRing.Valid, FillLog, RxLog, TxLog;
      ghost var p := View();
      ghost var addrs := cq.Peeked()[compDone..] + cq.Queue();
      var a := frame * FRAME_SIZE + offset;
      cq.KernelProduce(a);
      assert cq.Peeked()[compDone..] + cq.Queue() == addrs + [a];
      Completed(p, frame, a);
      kernelTx := kernelTx - multiset{frame};
      reported := reported + [a];
    }

    /** One kernel step, if it is possible now. */
    method KernelDo(step: KernelStep)
      requires Valid()
      modifies fq`consumer, fq`consumed, rx`producer, rx`produced, rx.ring, tx`consumer, tx`consumed, cq`producer, cq`produced, cq.ring,
        `kernelRx, `kernelTx, `granted, `delivered, `transmitted, `reported
      ensures Valid()
      ensures fq.Open() == old(fq.Open()) && tx.Open() == old(tx.Open())
      ensures rx.Peeked() == old(rx.Peeked()) && cq.Peeked() == old(cq.Peeked())
      ensures |fq.Queue()| <= |old(fq.Queue())| && |tx.Queue()| <= |old(tx.Queue())|
      ensures |rx.Queue()| >= |old(rx.Queue())| && |cq.Queue()| >= |old(cq.Queue())|
      ensures |reported| >= |old(reported)| && |transmitted| >= |old(transmitted)| && |delivered| >= |old(delivered)| && clock >= old(clock)
    {
      RingSize();
      hide PlacesOk, Answers, FrameOf, Addrs, Pow2, Window, Wrap, ProdRing.Valid, ConsRing.Valid, Separate, View, FillLog, RxLog, TxLog, CompLog;
      match step
      case TakeFill =>
        var b := fq.KernelHasData();
        if b { KernelTakeFill(); }
      case Deliver(frame, offset, len) =>
        var b := rx.KernelHasRoom();
        if b && frame in kernelRx && offset < FRAME_SIZE { KernelDeliver(frame, offset, len); }
      case TakeTx =>
        var b := tx.KernelHasData();
        if b { KernelTakeTx(); }
      case Complete(frame, offset) =>
        var b := cq.KernelHasRoom();
        if b && frame in kernelTx && offset < FRAME_SIZE { KernelComplete(frame, offset); }
    }

    /** The kernel acts for a while; it leaves alone what the program has reserved or peeked. */
    method Kernel()
      requires Valid()
      modifies fq`consumer, fq`consumed, rx`producer, rx`produced, rx.ring, tx`consumer, tx`consumed, cq`producer, cq`produced, cq.ring,
        `kernelRx, `kernelTx, `granted, `delivered, `transmitted, `reported, `clock
      ensures Valid()
      ensures fq.Open() == old(fq.Open()) && tx.Open() == old(tx.Open())
      ensures rx.Peeked() == old(rx.Peeked()) && cq.Peeked() == old(cq.Peeked())
      ensures |fq.Queue()| <= |old(fq.Queue())| && |tx.Queue()| <= |old(tx.Queue())|
      ensures |rx.Queue()| >= |old(rx.Queue())| && |cq.Queue()| >= |old(cq.Queue())|
      ensures |reported| >= |old(reported)| && |transmitted| >= |old(transmitted)| && |delivered| >= |old(delivered)| && clock == old(clock) + 1
    {
      hide PlacesOk, Answers, FrameOf, Addrs, Pow2, Window, Wrap, ProdRing.Valid, ConsRing.Valid, FillLog, RxLog, TxLog, CompLog;
      var steps := kernel(clock);
      clock := clock + 1;
      var i := 0;
      while i < |steps|
        invariant 0 <= i <= |steps|
        invariant Valid()
        invariant fq.Open() == old(fq.Open()) && tx.Open() == old(tx.Open())
        invariant rx.Peeked() == old(rx.Peeked()) && cq.Peeked() == old(cq.Peeked())
        invariant |fq.Queue()| <= |old(fq.Queue())| && |tx.Queue()| <= |old(tx.Queue())|
        invariant |rx.Queue()| >= |old(rx.Queue())| && |cq.Queue()| >= |old(cq.Queue())|
        invariant |reported| >= |old(reported)| && |transmitted| >= |old(transmitted)| && |delivered| >= |old(delivered)| && clock == old(clock) + 1
      {
        KernelDo(steps[i]);
        i := i + 1;
      }
    }

    /** The kernel acts while the program is idle. */
    method KernelIdle()
      requires Valid() && Idle()
      modifies fq`consumer, fq`consumed, rx`producer, rx`produced, rx.ring, tx`consumer, tx`consumed, cq`producer, cq`produced, cq.ring,
        `kernelRx, `kernelTx, `granted, `delivered, `transmitted, `reported, `clock
      ensures Valid() && Idle()
      ensures |cq.Queue()| >= |old(cq.Queue())|
      ensures |reported| >= |old(reported)| && |transmitted| >= |old(transmitted)| && |delivered| >= |old(delivered)| && clock >= old(clock)
    {
      hide PlacesOk, Answers, FrameOf, Addrs, Pow2, Window, Wrap, ProdRing.Valid, ConsRing.Valid, Separate, View, FillLog, RxLog, TxLog, CompLog;
      Kernel();
    }

    // ----- the frame allocator -----

    method AllocUmemFrame() returns (frame: nat)
      requires umemFrameAddr.Length == NUM_FRAMES && umemFrameFree <= NUM_FRAMES
      modifies umemFrameAddr, `umemFrameFree
      ensures umemFrameFree <= NUM_FRAMES && frame == Top(old(Stack())) && Stack() == Rest(old(Stack()))
    {
      if umemFrameFree == 0 { return INVALID_UMEM_FRAME; }
      umemFrameFree := umemFrameFree - 1;
      frame := umemFrameAddr[umemFrameFree];
      umemFrameAddr[umemFrameFree] := INVALID_UMEM_FRAME;
    }

    /** Frees the frame in hand; the source's assertion that the stack has room holds. */
    method FreeUmemFrame(frame: nat)
      requires Valid() && IsFrame(frame) && hand == multiset{Frame(frame)}
      modifies umemFrameAddr, `umemFrameFree, `hand
      ensures Valid() && hand == multiset{}
    {
      hide PlacesOk, Answers, FrameOf, Addrs, Pow2, Window, Wrap, ProdRing.Valid, ConsRing.Valid, FillLog, RxLog, TxLog, CompLog;
      ghost var p := View();
      Freed(p, frame);
      assert umemFrameFree < NUM_FRAMES;
      umemFrameAddr[umemFrameFree] := frame;
      umemFrameFree := umemFrameFree + 1;
      hand := multiset{};
      assert Stack() == p.free + [frame];
    }

    // ----- restocking the FILL ring -----

    /** Writes one reserved FILL slot with the next free frame, or with INVALID_UMEM_FRAME when there is none. */
    method FillOne(idx: uint32)
      requires Valid() && hand == multiset{} && filled < |fq.Open()| && idx == Wrap(fq.produced + filled)
      modifies umemFrameAddr, `umemFrameFree, fq.ring, `filled, `offers, `hand
      ensures Valid() && hand == multiset{} && filled == old(filled) + 1 && |fq.Open()| == |old(fq.Open())|
      ensures Stack() == Rest(old(Stack())) && offers == old(offers) + [Top(old(Stack()))]
      ensures tx.Open() == old(tx.Open()) && rx.Peeked() == old(rx.Peeked()) && cq.Peeked() == old(cq.Peeked())
    {
      hide PlacesOk, Answers, FrameOf, Addrs, Pow2, Window, Wrap, ProdRing.Valid, ConsRing.Valid, FillLog, RxLog, TxLog, CompLog, View;
      var frame := TakeFree();
      PutFill(idx, frame);
    }

    /** Takes a frame from the stack in hand, if there is one. */
    method TakeFree() returns (frame: nat)
      requires Valid() && hand == multiset{}
      modifies umemFrameAddr, `umemFrameFree, `hand
      ensures Valid() && hand == FrameOf(frame) && frame == Top(old(Stack())) && Stack() == Rest(old(Stack()))
      ensures fq.Open() == old(fq.Open()) && tx.Open() == old(tx.Open()) && rx.Peeked() == old(rx.Peeked()) && cq.Peeked() == old(cq.Peeked())
    {
      hide PlacesOk, Answers, FrameOf, Addrs, Pow2, Window, Wrap, ProdRing.Valid, ConsRing.Valid, FillLog, RxLog, TxLog, CompLog;
      ghost var p := View();
      frame := AllocUmemFrame();
      hand := FrameOf(frame);
      if p.free == [] {
        NoFrame();
        assert View() == p;
      } else {
        TakenFree(p, Stack(), frame);
        assert View() == p.(free := Stack(), hand := FrameOf(frame));
      }
    }

    method PutFill(idx: uint32, frame: nat)
      requires Valid() && hand == FrameOf(frame) && filled < |fq.Open()| && idx == Wrap(fq.produced + filled)
      modifies fq.ring, `filled, `offers, `hand
      ensures Valid() && hand == multiset{} && filled == old(filled) + 1 && |fq.Open()| == |old(fq.Open())| && offers == old(offers) + [frame]
      ensures tx.Open() == old(tx.Open()) && rx.Peeked() == old(rx.Peeked()) && cq.Peeked() == old(cq.Peeked())
    {
      hide PlacesOk, Answers, FrameOf, Addrs, Pow2, Window, Wrap, ProdRing.Valid, ConsRing.Valid, RxLog, TxLog, CompLog;
      ghost var p, k, open := View(), filled, fq.Open();
      fq.Put(idx, frame, fq.produced + filled);
      filled, offers, hand := filled + 1, offers + [frame], multiset{};
      assert fq.Open()[..filled] == open[..k] + [frame];
      assert View().fill == p.fill + [frame];
      PutOnFill(p, frame);
      assert View() == p.(hand := multiset{}, fill := p.fill + [frame]);
    }

    method FillStep(idx: uint32)
      requires Valid() && hand == multiset{} && filled < |fq.Open()| && idx == Wrap(fq.produced + filled)
      modifies umemFrameAddr, `umemFrameFree, `filled, `offers, `hand, fq`consumer, fq`consumed, fq.ring, rx`producer, rx`produced, rx.ring, tx`consumer, tx`consumed, cq`producer, cq`produced, cq.ring,
        `kernelRx, `kernelTx, `granted, `delivered, `transmitted, `reported, `clock
      ensures Valid() && hand == multiset{} && filled == old(filled) + 1 && |fq.Open()| == |old(fq.Open())|
      ensures tx.Open() == old(tx.Open()) && rx.Peeked() == old(rx.Peeked()) && cq.Peeked() == old(cq.Peeked())
      ensures Stack() == Rest(old(Stack())) && offers == old(offers) + [Top(old(Stack()))] && |reported| >= |old(reported)| && |transmitted| >= |old(transmitted)| && |delivered| >= |old(delivered)| && clock >= old(clock)
    {
      hide PlacesOk, Answers, FrameOf, Addrs, Pow2, Window, Wrap, ProdRing.Valid, ConsRing.Valid, FillLog, RxLog, TxLog, CompLog;
      FillOne(idx);
      Kernel();
    }

    /** Fills the `n` reserved slots and submits them, the kernel acting meanwhile. */
    method FillAll(n: nat, idx: uint32)
      requires Valid() && hand == multiset{} && filled == 0 && |fq.Open()| == n && idx == Wrap(fq.produced)
      modifies umemFrameAddr, `umemFrameFree, `filled, `offers, `hand, fq, fq.ring, rx`producer, rx`produced, rx.ring, tx`consumer, tx`consumed, cq`producer, cq`produced, cq.ring,
        `kernelRx, `kernelTx, `granted, `delivered, `transmitted, `reported, `clock
      ensures Valid() && hand == multiset{} && filled == 0 && fq.Open() == []
      ensures tx.Open() == old(tx.Open()) && rx.Peeked() == old(rx.Peeked()) && cq.Peeked() == old(cq.Peeked())
      ensures Stack() == Left(old(Stack()), n) && offers == old(offers) + Popped(old(Stack()), n) && |reported| >= |old(reported)| && |transmitted| >= |old(transmitted)| && |delivered| >= |old(delivered)| && clock >= old(clock)
    {
      hide PlacesOk, Answers, FrameOf, Addrs, Pow2, Window, Wrap, ProdRing.Valid, ConsRing.Valid, FillLog, RxLog, TxLog, CompLog;
      FillSlots(n, idx);
      SubmitFilled(n);
    }

    /** `i` of `n` reserved slots are written from the stack `stack`, the next one at `at`; `others` is left alone. */
    ghost predicate Filling(n: nat, i: nat, at: uint32, stack: seq<nat>, log: seq<nat>, others: (seq<Desc>, seq<Desc>, seq<nat>))
      requires RingsOk()
      reads this, fq, cq, rx, tx, fq.ring, cq.ring, rx.ring, tx.ring, umemFrameAddr
    {
      && hand == multiset{} && filled == i <= n == |fq.Open()| && at == Wrap(fq.produced + i) && others == Others()
      && Stack() == Left(stack, i) && offers == log + Popped(stack, i)
    }

    ghost function Others(): (seq<Desc>, seq<Desc>, seq<nat>)
      requires RingsOk()
      reads this, fq, cq, rx, tx, fq.ring, cq.ring, rx.ring, tx.ring
    {
      (tx.Open(), rx.Peeked(), cq.Peeked())
    }

    method FillNext(ghost n: nat, ghost i: nat, at: uint32, ghost stack: seq<nat>, ghost log: seq<nat>,
                    ghost others: (seq<Desc>, seq<Desc>, seq<nat>))
      requires Valid() && i < n && Filling(n, i, at, stack, log, others)
      modifies umemFrameAddr, `umemFrameFree, `filled, `offers, `hand, fq`consumer, fq`consumed, fq.ring, rx`producer, rx`produced, rx.ring, tx`consumer, tx`consumed, cq`producer, cq`produced, cq.ring,
        `kernelRx, `kernelTx, `granted, `delivered, `transmitted, `reported, `clock
      ensures Valid() && Filling(n, i + 1, Wrap(at + 1), stack, log, others) && |reported| >= |old(reported)| && |transmitted| >= |old(transmitted)| && |delivered| >= |old(delivered)| && clock >= old(clock)
    {
      hide PlacesOk, Answers, FrameOf, Addrs, Pow2, Window, Wrap, ProdRing.Valid, ConsRing.Valid, Separate, View, FillLog, RxLog, TxLog, CompLog, Stack, Top, Rest, Left, Popped;
      PopStep(stack, i);
      FillStep(at);
      WrapAdd(fq.produced + i, 1);
    }

    method FillLoop(n: nat, idx: uint32, ghost stack: seq<nat>, ghost log: seq<nat>, ghost others: (seq<Desc>, seq<Desc>, seq<nat>))
      returns (at: uint32)
      requires Valid() && Filling(n, 0, idx, stack, log, others)
      modifies umemFrameAddr, `umemFrameFree, `filled, `offers, `hand, fq`consumer, fq`consumed, fq.ring, rx`producer, rx`produced, rx.ring, tx`consumer, tx`consumed, cq`producer, cq`produced, cq.ring,
        `kernelRx, `kernelTx, `granted, `delivered, `transmitted, `reported, `clock
      ensures Valid() && Filling(n, n, at, stack, log, others) && |reported| >= |old(reported)| && |transmitted| >= |old(transmitted)| && |delivered| >= |old(delivered)| && clock >= old(clock)
    {
      hide PlacesOk, Answers, FrameOf, Addrs, Pow2, Window, Wrap, ProdRing.Valid, ConsRing.Valid, Separate, View, FillLog, RxLog, TxLog, CompLog, Stack, Top, Rest, Left, Popped, Filling, Others;
      var i: nat := 0;
      at := idx;
      while i < n
        invariant 0 <= i <= n && Valid() && Filling(n, i, at, stack, log, others) && |reported| >= |old(reported)| && |transmitted| >= |old(transmitted)| && |delivered| >= |old(delivered)| && clock >= old(clock)
      {
        FillNext(n, i, at, stack, log, others);
        i, at := i + 1, Wrap(at + 1);
      }
    }

    method FillSlots(n: nat, idx: uint32)
      requires Valid() && hand == multiset{} && filled == 0 && |fq.Open()| == n && idx == Wrap(fq.produced)
      modifies umemFrameAddr, `umemFrameFree, `filled, `offers, `hand, fq`consumer, fq`consumed, fq.ring, rx`producer, rx`produced, rx.ring, tx`consumer, tx`consumed, cq`producer, cq`produced, cq.ring,
        `kernelRx, `kernelTx, `granted, `delivered, `transmitted, `reported, `clock
      ensures Valid() && hand == multiset{} && filled == n == |fq.Open()|
      ensures tx.Open() == old(tx.Open()) && rx.Peeked() == old(rx.Peeked()) && cq.Peeked() == old(cq.Peeked())
      ensures Stack() == Left(old(Stack()), n) && offers == old(offers) + Popped(old(Stack()), n) && |reported| >= |old(reported)| && |transmitted| >= |old(transmitted)| && |delivered| >= |old(delivered)| && clock >= old(clock)
    {
      hide PlacesOk, Answers, FrameOf, Addrs, Pow2, Window, Wrap, ProdRing.Valid, ConsRing.Valid, Separate, View, FillLog, RxLog, TxLog, CompLog, Stack, Top, Rest, Left, Popped;
      PopNone(Stack());
      var at := FillLoop(n, idx, Stack(), offers, Others());
    }

    method SubmitFilled(n: nat)
      requires Valid() && filled == n == |fq.Open()|
      modifies fq`producer, fq`produced, `filled
      ensures Valid() && filled == 0 && fq.Open() == [] && fq.Queue() == old(fq.Queue()) + old(fq.Open())
    {
      hide PlacesOk, Answers, FrameOf, Addrs, Pow2, Window, Wrap, ProdRing.Valid, ConsRing.Valid, RxLog, TxLog, CompLog;
      ghost var p, open := View(), fq.Open();
      assert open[..n] == open && open[n..] == [];
      fq.Submit(n);
      filled := 0;
      assert View() == p;
    }

    /** Restocks with as many frames as the ring is known to have room for, which can be more than are free.
        The reservation cannot fail, so the source's retry loop is never entered. */
    method Restock() returns (n: nat)
      requires Valid() && hand == multiset{} && filled == 0 && fq.Open() == []
      modifies umemFrameAddr, `umemFrameFree, `filled, `offers, `hand, fq, fq.ring, rx`producer, rx`produced, rx.ring, tx`consumer, tx`consumed, cq`producer, cq`produced, cq.ring,
        `kernelRx, `kernelTx, `granted, `delivered, `transmitted, `reported, `clock
      ensures Valid() && hand == multiset{} && filled == 0 && fq.Open() == []
      ensures tx.Open() == old(tx.Open()) && rx.Peeked() == old(rx.Peeked()) && cq.Peeked() == old(cq.Peeked())
      ensures Stack() == Left(old(Stack()), n) && offers == old(offers) + Popped(old(Stack()), n) && |reported| >= |old(reported)| && |transmitted| >= |old(transmitted)| && |delivered| >= |old(delivered)| && clock >= old(clock)
      ensures n == old(fq.FreeFor(umemFrameFree)) && Stocked(old(Stack()), |old(fq.Queue())|, n, old(offers), offers)
    {
      hide PlacesOk, Answers, FrameOf, Addrs, Pow2, Window, Wrap, ProdRing.Valid, ConsRing.Valid, ProdRing.FreeFor;
      PopNone(Stack());
      n := LookUpFree();
      if n > 0 { RestockSlots(n); }
    }

    method RestockSlots(n: nat)
      requires Valid() && hand == multiset{} && filled == 0 && fq.Open() == [] && n <= Pow2(RING_BITS) - |fq.Queue()|
      modifies umemFrameAddr, `umemFrameFree, `filled, `offers, `hand, fq, fq.ring, rx`producer, rx`produced, rx.ring, tx`consumer, tx`consumed, cq`producer, cq`produced, cq.ring,
        `kernelRx, `kernelTx, `granted, `delivered, `transmitted, `reported, `clock
      ensures Valid() && hand == multiset{} && filled == 0 && fq.Open() == []
      ensures tx.Open() == old(tx.Open()) && rx.Peeked() == old(rx.Peeked()) && cq.Peeked() == old(cq.Peeked())
      ensures Stack() == Left(old(Stack()), n) && offers == old(offers) + Popped(old(Stack()), n) && |reported| >= |old(reported)| && |transmitted| >= |old(transmitted)| && |delivered| >= |old(delivered)| && clock >= old(clock)
    {
      hide PlacesOk, Answers, FrameOf, Addrs, Pow2, Window, Wrap, ProdRing.Valid, ConsRing.Valid, FillLog, RxLog, TxLog, CompLog;
      Kernel();
      var idx := ReserveFill(n);
      FillAll(n, idx);
    }

    method LookUpFree() returns (n: nat)
      requires Valid() && fq.Open() == []
      modifies fq`cachedCons, fq`seen
      ensures Valid() && fq.Open() == [] && fq.Queue() == old(fq.Queue()) && n <= Pow2(RING_BITS) - |fq.Queue()|
      ensures n == old(fq.FreeFor(umemFrameFree)) && (n >= umemFrameFree || n == Pow2(RING_BITS) - |fq.Queue()|)
    {
      hide PlacesOk, Answers, FrameOf, Addrs, Pow2, Window, Wrap, ProdRing.Valid, ConsRing.Valid, RxLog, TxLog, CompLog;
      n := fq.NbFree(umemFrameFree);
    }

    method ReserveFill(n: nat) returns (idx: uint32)
      requires Valid() && filled == 0 && fq.Open() == [] && n <= Pow2(RING_BITS) - |fq.Queue()|
      modifies fq`cachedCons, fq`seen, fq`cachedProd, fq`reserved
      ensures Valid() && |fq.Open()| == n && idx == Wrap(fq.produced) && fq.Queue() == old(fq.Queue())
    {
      hide PlacesOk, Answers, FrameOf, Addrs, Pow2, Window, Wrap, ProdRing.Valid, ConsRing.Valid, RxLog, TxLog, CompLog;
      ghost var p := View();
      var ret;
      ret, idx := fq.Reserve(n);
      assert ret == n;
      assert View() == p;
    }

    // ----- receiving -----

    /** A received packet is in hand and was not looked at yet. */
    ghost predicate Holding(addr: nat, len: nat)
      reads this
    {
      IsFrame(addr) && hand == multiset{Frame(addr)} && |handled| == |looks| + 1 && handled[|looks|] == Desc(addr, len)
    }

    /** The free TX slots. */
    ghost function TxRoom(): int
      reads tx
    {
      Pow2(RING_BITS) - (tx.produced - tx.consumed)
    }

    /** The free TX slots, as the queue and as the logs tell them. */
    lemma RoomByLog()
      requires Valid()
      ensures TxRoom() == Pow2(RING_BITS) - (|sent| - |transmitted|) == Pow2(RING_BITS) - |tx.Queue()|
    {
      hide PlacesOk, Answers, FrameOf, Addrs, Pow2, FillLog, RxLog, CompLog, View, Separate;
    }

    /** Puts the frame in hand on the TX ring; false, and no change, exactly when the ring is full. */
    method SendFrame(addr: nat, len: nat) returns (ok: bool)
      requires Valid() && tx.Open() == [] && Holding(addr, len) && isEcho(clock)
      modifies tx, tx.ring, `outstandingTx, `hand, `sent, `looks
      ensures Valid() && tx.Open() == []
      ensures ok <==> |old(tx.Queue())| < Pow2(RING_BITS)
      ensures ok ==> hand == multiset{} && tx.Queue() == old(tx.Queue()) + [Desc(addr, len)]
      ensures !ok ==> hand == old(hand) && tx.Queue() == old(tx.Queue()) && outstandingTx == old(outstandingTx)
      ensures sent == if ok then old(sent) + [Desc(addr, len)] else old(sent)
      ensures looks == old(looks) + [Look(clock, old(TxRoom()))]
    {
      hide PlacesOk, Answers, FrameOf, Addrs, Pow2, Window, Wrap, ProdRing.Valid, ConsRing.Valid, RxLog, CompLog, FillLog;
      ghost var p := View();
      ghost var room := TxRoom();
      RoomByLog();
      var ret, idx := tx.Reserve(1);
      assert View() == p;
      if ret != 1 {
        Decline(room);
        return false;
      }
      SubmitFrame(idx, addr, len, room);
      return true;
    }

    /** Notes that the packet in hand is not answered. */
    method Decline(ghost room: int)
      requires Valid() && |handled| == |looks| + 1 && !(isEcho(clock) && room > 0)
      modifies `looks
      ensures Valid() && looks == old(looks) + [Look(clock, room)]
    {
      hide PlacesOk, Answers, FrameOf, Addrs, Pow2, Window, Wrap, ProdRing.Valid, ConsRing.Valid, RxLog, CompLog, FillLog;
      ghost var p := View();
      AnswersNext(isEcho, handled, looks, Look(clock, room));
      looks := looks + [Look(clock, room)];
      assert View() == p;
    }

    /** Writes the reserved TX slot and submits it. */
    method SubmitFrame(idx: uint32, addr: nat, len: nat, ghost room: int)
      requires Valid() && |tx.Open()| == 1 && idx == Wrap(tx.produced) && Holding(addr, len) && isEcho(clock) && room > 0
      modifies tx`producer, tx`produced, tx.ring, `outstandingTx, `hand, `sent, `looks
      ensures Valid() && tx.Open() == [] && hand == multiset{} && tx.Queue() == old(tx.Queue()) + [Desc(addr, len)]
      ensures sent == old(sent) + [Desc(addr, len)] && looks == old(looks) + [Look(clock, room)]
    {
      hide PlacesOk, Answers, Answered, FrameOf, Addrs, Pow2, Window, Wrap, ProdRing.Valid, ConsRing.Valid, RxLog, CompLog, FillLog;
      ghost var p, queue := View(), tx.Queue();
      tx.PutSubmit(idx, Desc(addr, len));
      outstandingTx := outstandingTx + 1;
      hand := multiset{};
      AnswersAdd(isEcho, handled, looks, clock, room);
      sent, looks := sent + [Desc(addr, len)], looks + [Look(clock, room)];
      assert tx.Queue() == queue + [Desc(addr, len)];
      AddrsSnoc(queue, Desc(addr, len));
      Sent(p, addr);
      assert View() == p.(hand := multiset{}, tx := p.tx + [addr]);
    }

    /** True when the packet was an echo request whose reply is on the TX ring now. */
    method ProcessPacket(addr: nat, len: nat) returns (ok: bool)
      requires Valid() && tx.Open() == [] && Holding(addr, len)
      modifies tx, tx.ring, `outstandingTx, `hand, `sent, `looks
      ensures Valid() && tx.Open() == []
      ensures ok <==> isEcho(clock) && |old(tx.Queue())| < Pow2(RING_BITS)
      ensures hand == if ok then multiset{} else old(hand)
      ensures sent == if ok then old(sent) + [Desc(addr, len)] else old(sent)
      ensures looks == old(looks) + [Look(clock, old(TxRoom()))]
    {
      if !isEcho(clock) {
        Decline(TxRoom());
        return false;
      }
      ok := SendFrame(addr, len);
    }

    /** Takes the next peeked RX entry in hand. */
    method TakeRx(idx: uint32) returns (d: Desc)
      requires Valid() && rxDone < |rx.Peeked()| && idx == Wrap(rx.consumed + rxDone) && hand == multiset{} && |looks| == |handled|
      modifies `rxDone, `hand, `handled
      ensures Valid() && rxDone == old(rxDone) + 1 && Holding(d.addr, d.len) && handled == old(handled) + [d]
    {
      hide PlacesOk, Answers, FrameOf, Addrs, Pow2, Window, Wrap, ProdRing.Valid, ConsRing.Valid, CompLog, FillLog, RxLog, TxLog, View;
      d := rx.Get(idx, rx.consumed + rxDone);
      HoldRx(d);
    }

    method HoldRx(d: Desc)
      requires Valid() && rxDone < |rx.Peeked()| && d == rx.Peeked()[rxDone] && hand == multiset{} && |looks| == |handled|
      modifies `rxDone, `hand, `handled
      ensures Valid() && rxDone == old(rxDone) + 1 && Holding(d.addr, d.len) && handled == old(handled) + [d]
    {
      hide PlacesOk, Answers, FrameOf, Addrs, Pow2, Window, Wrap, ProdRing.Valid, ConsRing.Valid, CompLog;
      ghost var p := View();
      ghost var ds := rx.Peeked()[rxDone..] + rx.Queue();
      ghost var rest := rx.Peeked()[rxDone + 1..] + rx.Queue();
      assert ds == [d] + rest;
      AddrsCons(d, rest);
      RxTaken(p, d.addr, Addrs(rest));
      AnswersPrefix(isEcho, handled, d, looks);
      ghost var before := handled;
      rxDone, hand, handled := rxDone + 1, multiset{Frame(d.addr)}, handled + [d];
      assert before + ([d] + rest) == handled + rest;
      assert View() == p.(rx := Addrs(rest), hand := multiset{Frame(d.addr)});
    }

    /** A packet is sent exactly if it is an echo request and the TX ring has room; otherwise its frame is free again. */
    method SendOrFree(addr: nat, len: nat)
      requires Valid() && tx.Open() == [] && Holding(addr, len)
      modifies tx, tx.ring, umemFrameAddr, `umemFrameFree, `outstandingTx, `hand, `sent, `looks
      ensures Valid() && tx.Open() == [] && hand == multiset{}
      ensures fq.Open() == old(fq.Open()) && rx.Peeked() == old(rx.Peeked()) && cq.Peeked() == old(cq.Peeked())
      ensures sent == if isEcho(clock) && |old(tx.Queue())| < Pow2(RING_BITS) then old(sent) + [Desc(addr, len)] else old(sent)
      ensures looks == old(looks) + [Look(clock, old(TxRoom()))]
    {
      hide PlacesOk, Answers, FrameOf, Addrs, Pow2, Window, Wrap, ProdRing.Valid, ConsRing.Valid, FillLog, RxLog, TxLog, CompLog;
      var ok := ProcessPacket(addr, len);
      if !ok { FreeUmemFrame(addr); }
    }


    /** Takes the next packet in hand, and the kernel acts. */
    method TakeNext(idx: uint32) returns (d: Desc)
      requires Valid() && tx.Open() == [] && rxDone < |rx.Peeked()| && idx == Wrap(rx.consumed + rxDone) && hand == multiset{} && |looks| == |handled|
      modifies `hand, `rxDone, `handled, rx`producer, rx`produced, rx.ring, fq`consumer, fq`consumed, tx`consumer, tx`consumed, cq`producer, cq`produced, cq.ring,
        `kernelRx, `kernelTx, `granted, `delivered, `transmitted, `reported, `clock
      ensures Valid() && tx.Open() == [] && rxDone == old(rxDone) + 1 && Holding(d.addr, d.len) && handled == old(handled) + [d]
      ensures fq.Open() == old(fq.Open()) && rx.Peeked() == old(rx.Peeked()) && cq.Peeked() == old(cq.Peeked())
      ensures |reported| >= |old(reported)| && |transmitted| >= |old(transmitted)| && |delivered| >= |old(delivered)| && clock == old(clock) + 1
    {
      hide PlacesOk, Answers, FrameOf, Addrs, Pow2, Window, Wrap, ProdRing.Valid, ConsRing.Valid, Separate, View, FillLog, RxLog, TxLog, CompLog;
      d := TakeRx(idx);
      Kernel();
    }

    /** Answers the packet in hand or frees its frame, and the kernel acts. */
    method FinishPacket(d: Desc)
      requires Valid() && tx.Open() == [] && Holding(d.addr, d.len)
      modifies tx, tx.ring, umemFrameAddr, `umemFrameFree, `outstandingTx, `hand, `sent, `looks, rx`producer, rx`produced, rx.ring, fq`consumer, fq`consumed, cq`producer, cq`produced, cq.ring,
        `kernelRx, `kernelTx, `granted, `delivered, `transmitted, `reported, `clock
      ensures Valid() && tx.Open() == [] && hand == multiset{}
      ensures fq.Open() == old(fq.Open()) && rx.Peeked() == old(rx.Peeked()) && cq.Peeked() == old(cq.Peeked())
      ensures |reported| >= |old(reported)| && |transmitted| >= |old(transmitted)| && |delivered| >= |old(delivered)| && clock == old(clock) + 1
      ensures looks == old(looks) + [Look(old(clock), old(TxRoom()))] && |sent| <= |old(sent)| + 1
      ensures sent == if isEcho(old(clock)) && old(TxRoom()) > 0 then old(sent) + [d] else old(sent)
    {
      hide PlacesOk, Answers, FrameOf, Addrs, Pow2, Window, Wrap, ProdRing.Valid, ConsRing.Valid, Separate, View, FillLog, RxLog, TxLog, CompLog, TxRoom;
      RoomByLog();
      SendOrFree(d.addr, d.len);
      Kernel();
    }

    /**
     Handles one received packet, the kernel acting meanwhile: the frame is on the TX ring or free again. The packet is
     looked at when the kernel has acted once, so with at least as much room as before.
     */
    method ReceiveOne(idx: uint32) returns (ghost look: Look)
      requires Valid() && tx.Open() == [] && rxDone < |rx.Peeked()| && idx == Wrap(rx.consumed + rxDone) && hand == multiset{} && |looks| == |handled|
      modifies tx, tx.ring, umemFrameAddr, `umemFrameFree, `outstandingTx, `hand, `rxDone, `handled, `sent, `looks, rx`producer, rx`produced, rx.ring, fq`consumer, fq`consumed, cq`producer, cq`produced, cq.ring,
        `kernelRx, `kernelTx, `granted, `delivered, `transmitted, `reported, `clock
      ensures Valid() && tx.Open() == [] && rxDone == old(rxDone) + 1 && hand == multiset{}
      ensures fq.Open() == old(fq.Open()) && rx.Peeked() == old(rx.Peeked()) && cq.Peeked() == old(cq.Peeked())
      ensures |handled| == |old(handled)| + 1 == |looks|
      ensures |reported| >= |old(reported)| && |transmitted| >= |old(transmitted)| && |delivered| >= |old(delivered)| && clock == old(clock) + 2
      ensures looks == old(looks) + [look] && look.time == old(clock) + 1 && look.room >= old(TxRoom()) && TxRoom() >= old(TxRoom()) - 1
      ensures sent == if Answered(isEcho, look) then old(sent) + [handled[|old(handled)|]] else old(sent)
    {
      hide PlacesOk, Answers, FrameOf, Addrs, Pow2, Window, Wrap, ProdRing.Valid, ConsRing.Valid, Separate, View, FillLog, RxLog, TxLog, CompLog, TxRoom;
      RoomByLog();
      var d := TakeNext(idx);
      RoomByLog();
      look := Look(clock, TxRoom());
      FinishPacket(d);
      RoomByLog();
    }

    method PeekRx() returns (n: nat, idx: uint32)
      requires Valid() && Quiet()
      modifies rx`cachedProd, rx`seen, rx`cachedCons, rx`peeked
      ensures Valid() && Receiving(n, 0) && (n == 0 ==> Quiet()) && (n > 0 ==> idx == Wrap(rx.consumed))
      ensures n == old(rx.AvailFor(RX_BATCH_SIZE)) <= RX_BATCH_SIZE && (n == 0 <==> old(rx.Queue()) == [])
    {
      hide PlacesOk, Answers, FrameOf, Addrs, Pow2, Window, Wrap, ProdRing.Valid, ConsRing.Valid, TxLog, CompLog;
      ghost var p, queue := View(), rx.Queue();
      assert rx.Peeked()[rxDone..] + rx.Queue() == queue;
      n, idx := rx.Peek(RX_BATCH_SIZE);
      assert rx.Peeked()[rxDone..] + rx.Queue() == queue;
      assert View() == p;
    }

    method ReleaseRx(n: nat)
      requires Valid() && Receiving(n, n)
      modifies rx`consumer, rx`consumed, `rxDone
      ensures Valid() && Quiet()
    {
      hide PlacesOk, Answers, FrameOf, Addrs, Pow2, Window, Wrap, ProdRing.Valid, ConsRing.Valid, TxLog, CompLog;
      ghost var p, ds := View(), rx.Peeked()[rxDone..] + rx.Queue();
      rx.Release(n);
      rxDone := 0;
      assert rx.Peeked()[rxDone..] + rx.Queue() == ds;
      assert View() == p;
    }

    /** `i` of `n` peeked packets are handled, the next one is at `at`; the other parameters tell how it was before. */
    ghost predicate Batch(n: nat, i: nat, at: uint32, before: seq<Look>, time: nat, room: int)
      requires RingsOk()
      reads this, fq, cq, rx, tx, fq.ring, cq.ring, rx.ring, tx.ring
    {
      && Receiving(n, i) && at == Wrap(rx.consumed + i) && clock == time + 2 * i
      && Looked(before, looks, i, time, room) && TxRoom() >= room - i
    }

    method ReceiveNext(ghost n: nat, ghost i: nat, at: uint32, ghost before: seq<Look>, ghost time: nat, ghost room: int)
      requires Valid() && i < n && Batch(n, i, at, before, time, room)
      modifies tx, tx.ring, umemFrameAddr, `umemFrameFree, `outstandingTx, `hand, `rxDone, `handled, `sent, `looks, rx`producer, rx`produced, rx.ring, fq`consumer, fq`consumed, cq`producer, cq`produced, cq.ring,
        `kernelRx, `kernelTx, `granted, `delivered, `transmitted, `reported, `clock
      ensures Valid() && Batch(n, i + 1, Wrap(at + 1), before, time, room)
      ensures |reported| >= |old(reported)| && |transmitted| >= |old(transmitted)| && |delivered| >= |old(delivered)|
    {
      hide PlacesOk, Answers, FrameOf, Addrs, Pow2, Window, Wrap, ProdRing.Valid, ConsRing.Valid, Separate, View, FillLog, RxLog, TxLog, CompLog, TxRoom, Looked;
      ghost var look := ReceiveOne(at);
      LookedMore(before, old(looks), i, time, room, look);
      WrapAdd(rx.consumed + i, 1);
    }

    /** Handles all peeked packets in order; each is looked at with the room that those before it may have left. */
    method ReceiveAll(n: nat, idx: uint32)
      requires Valid() && Receiving(n, 0) && idx == Wrap(rx.consumed)
      modifies tx, tx.ring, umemFrameAddr, `umemFrameFree, `outstandingTx, `hand, `rxDone, `handled, `sent, `looks, rx`producer, rx`produced, rx.ring, fq`consumer, fq`consumed, cq`producer, cq`produced, cq.ring,
        `kernelRx, `kernelTx, `granted, `delivered, `transmitted, `reported, `clock
      ensures Valid() && Receiving(n, n)
      ensures |reported| >= |old(reported)| && |transmitted| >= |old(transmitted)| && |delivered| >= |old(delivered)| && clock >= old(clock)
      ensures Looked(old(looks), looks, n, old(clock), old(TxRoom())) && |handled| == |old(handled)| + n
    {
      hide PlacesOk, Answers, FrameOf, Addrs, Pow2, Window, Wrap, ProdRing.Valid, ConsRing.Valid, Separate, View, FillLog, RxLog, TxLog, CompLog, TxRoom, Batch, Looked;
      ghost var before, time, room := looks, clock, TxRoom();
      BatchStart(n, idx);
      var i: nat, at: uint32 := 0, idx;
      while i < n
        invariant 0 <= i <= n && Valid() && Batch(n, i, at, before, time, room)
        invariant |reported| >= |old(reported)| && |transmitted| >= |old(transmitted)| && |delivered| >= |old(delivered)|
      {
        ReceiveNext(n, i, at, before, time, room);
        i, at := i + 1, Wrap(at + 1);
      }
      BatchEnd(n, at, before, time, room);
    }

    lemma BatchStart(n: nat, idx: uint32)
      requires Valid() && Receiving(n, 0) && idx == Wrap(rx.consumed)
      ensures Batch(n, 0, idx, looks, clock, TxRoom()) && |looks| == |handled|
    {
      hide PlacesOk, Answers, Pow2, Window, Wrap, ProdRing.Valid, ConsRing.Valid, Separate, View, FillLog, RxLog, TxLog, CompLog, TxRoom;
    }

    lemma BatchEnd(n: nat, at: uint32, before: seq<Look>, time: nat, room: int)
      requires Valid() && Batch(n, n, at, before, time, room)
      ensures Receiving(n, n) && clock >= time && Looked(before, looks, n, time, room) && |handled| == |before| + n
    {
      hide PlacesOk, Answers, Pow2, Window, Wrap, ProdRing.Valid, ConsRing.Valid, Separate, View, FillLog, RxLog, TxLog, CompLog, TxRoom;
    }

    // ----- completions -----

    /** Takes the next peeked completion in hand and frees its frame. */
    method FreeCompleted(idx: uint32)
      requires Valid() && compDone < |cq.Peeked()| && idx == Wrap(cq.consumed + compDone) && hand == multiset{}
      modifies umemFrameAddr, `umemFrameFree, `compDone, `hand, `reclaimed
      ensures Valid() && compDone == old(compDone) + 1 && hand == multiset{}
      ensures fq.Open() == old(fq.Open()) && tx.Open() == old(tx.Open()) && rx.Peeked() == old(rx.Peeked())
      ensures cq.Peeked() == old(cq.Peeked())
      ensures |reclaimed| == |old(reclaimed)| + 1
    {
      hide PlacesOk, Answers, FrameOf, Addrs, Pow2, Window, Wrap, ProdRing.Valid, ConsRing.Valid, FillLog, RxLog, TxLog;
      ghost var p := View();
      ghost var addrs := cq.Peeked()[compDone..] + cq.Queue();
      var a := cq.Get(idx, cq.consumed + compDone);
      compDone := compDone + 1;
      ghost var rest := cq.Peeked()[compDone..] + cq.Queue();
      assert addrs == [a] + rest;
      CompTaken(p, a, rest);
      hand := multiset{Frame(a)};
      reclaimed := reclaimed + [a];
      assert View() == p.(comp := rest, hand := multiset{Frame(a)});
      FreeUmemFrame(a);
    }

    method PeekComp() returns (n: nat, idx: uint32)
      requires Valid() && cq.Peeked() == [] && compDone == 0
      modifies cq`cachedProd, cq`seen, cq`cachedCons, cq`peeked
      ensures Valid() && |cq.Peeked()| == n && (n > 0 ==> idx == Wrap(cq.consumed))
      ensures n == old(cq.AvailFor(NUM_DESCS)) && (n == 0 <==> old(cq.Queue()) == [])
    {
      hide PlacesOk, Answers, FrameOf, Addrs, Pow2, Window, Wrap, ProdRing.Valid, ConsRing.Valid, FillLog, RxLog, TxLog;
      ghost var p, queue := View(), cq.Queue();
      n, idx := cq.Peek(NUM_DESCS);
      assert cq.Peeked() + cq.Queue() == queue;
      assert View() == p;
    }

    method ReleaseComp(n: nat)
      requires Valid() && compDone == n == |cq.Peeked()| && released == 0
      modifies cq`consumer, cq`consumed, `compDone, `released
      ensures Valid() && cq.Peeked() == [] && compDone == 0 && released == n
    {
      hide PlacesOk, Answers, FrameOf, Addrs, Pow2, Window, Wrap, ProdRing.Valid, ConsRing.Valid, FillLog, RxLog, TxLog;
      ghost var p := View();
      cq.Release(n);
      compDone, released := 0, n;
      assert View() == p;
    }

    method FreeAllCompleted(n: nat, idx: uint32)
      requires Valid() && compDone == 0 && |cq.Peeked()| == n && idx == Wrap(cq.consumed) && hand == multiset{}
      modifies umemFrameAddr, `umemFrameFree, `compDone, `hand, `reclaimed, tx`consumer, tx`consumed, rx`producer, rx`produced, rx.ring, fq`consumer, fq`consumed, cq`producer, cq`produced, cq.ring,
        `kernelRx, `kernelTx, `granted, `delivered, `transmitted, `reported, `clock
      ensures Valid() && compDone == n == |cq.Peeked()| && hand == multiset{}
      ensures fq.Open() == old(fq.Open()) && tx.Open() == old(tx.Open()) && rx.Peeked() == old(rx.Peeked())
      ensures |reclaimed| == |old(reclaimed)| + n && |delivered| >= |old(delivered)|
    {
      hide PlacesOk, Answers, FrameOf, Addrs, Pow2, Window, Wrap, ProdRing.Valid, ConsRing.Valid, Separate, View, FillLog, RxLog, TxLog, CompLog;
      var i: nat, at: uint32 := 0, idx;
      while i < n
        invariant |reclaimed| == |old(reclaimed)| + i && |delivered| >= |old(delivered)|
        invariant 0 <= i <= n && Valid() && compDone == i && |cq.Peeked()| == n && at == Wrap(cq.consumed + compDone)
        invariant hand == multiset{}
        invariant fq.Open() == old(fq.Open()) && tx.Open() == old(tx.Open()) && rx.Peeked() == old(rx.Peeked())
      {
        FreeCompleted(at);
        Kernel();
        WrapAdd(cq.consumed + i, 1);
        i, at := i + 1, Wrap(at + 1);
      }
    }

    /** Frees the frames of the completions there are, and gives their slots back. */
    method CollectCompleted() returns (completed: nat)
      requires Valid() && Quiet()
      modifies umemFrameAddr, `umemFrameFree, `compDone, `released, `hand, `reclaimed, cq, tx`consumer, tx`consumed, rx`producer, rx`produced, rx.ring, fq`consumer, fq`consumed, cq.ring,
        `kernelRx, `kernelTx, `granted, `delivered, `transmitted, `reported, `clock
      ensures Valid() && Idle() && released == completed
      ensures completed == old(cq.AvailFor(NUM_DESCS)) && (old(cq.Queue()) != [] ==> completed > 0)
      ensures |reclaimed| == |old(reclaimed)| + completed && |delivered| >= |old(delivered)|
    {
      hide PlacesOk, Answers, FrameOf, Addrs, Pow2, Window, Wrap, ProdRing.Valid, ConsRing.Valid, Separate, View, FillLog, RxLog, TxLog, CompLog;
      var idx;
      completed, idx := PeekComp();
      if completed > 0 {
        FreeAllCompleted(completed, idx);
        ReleaseComp(completed);
      }
    }

    /** No more is ever completed than is outstanding, so the saturating subtraction is exact. */
    method SubtractCompleted(completed: nat)
      requires Valid() && Idle() && released == completed
      modifies `outstandingTx, `released
      ensures Valid() && Quiet() && outstandingTx == old(outstandingTx) - completed
    {
      hide PlacesOk, Answers, FrameOf, Addrs, Pow2, Window, Wrap, ProdRing.Valid, ConsRing.Valid, FillLog, RxLog, TxLog, CompLog;
      outstandingTx := outstandingTx - if completed < outstandingTx then completed else outstandingTx;
      released := 0;
    }

    method CompleteTx()
      requires Valid() && Quiet()
      modifies umemFrameAddr, `umemFrameFree, `compDone, `released, `hand, `reclaimed, cq, tx`consumer, tx`consumed, rx`producer, rx`produced, rx.ring, fq`consumer, fq`consumed, cq.ring,
        `kernelRx, `kernelTx, `granted, `delivered, `transmitted, `reported, `clock, `outstandingTx
      ensures Valid() && Quiet()
      ensures |reclaimed| >= |old(reclaimed)| && (|old(reported)| > |old(reclaimed)| ==> |reclaimed| > |old(reclaimed)|)
      ensures |delivered| >= |old(delivered)|
    {
      hide PlacesOk, Answers, FrameOf, Addrs, Pow2, Window, Wrap, ProdRing.Valid, ConsRing.Valid, Separate, View, FillLog, RxLog, TxLog, CompLog, RingsOk, Idle;
      CompletionsWaiting();
      if outstandingTx == 0 { return; }
      KernelIdle();
      CompletionsWaiting();
      var completed := CollectCompleted();
      KernelIdle();
      SubtractCompleted(completed);
    }

    /** Completions are waiting exactly when more were reported than taken back, and they are outstanding. */
    lemma CompletionsWaiting()
      requires Valid() && Idle()
      ensures |reported| > |reclaimed| <==> cq.Queue() != []
      ensures cq.Queue() != [] ==> outstandingTx > 0
    {
      hide PlacesOk, Answers, Window, Pow2, Wrap, ProdRing.Valid, ConsRing.Valid, Separate, View, FillLog, RxLog, TxLog;
    }

    /** Between rounds outstanding_tx is the number of packets sent and not yet taken back. */
    lemma Outstanding()
      requires Valid() && Quiet()
      ensures outstandingTx == |sent| - |reclaimed|
      ensures sent[..|transmitted|] == transmitted && reported[..|reclaimed|] == reclaimed && Subsequence(sent, handled) && handled <= delivered
      ensures |looks| == |handled| && sent == Answers(isEcho, handled, looks)
    {
      AnswersAmong(isEcho, handled, looks);
      assert handled[..|looks|] == handled;
      hide PlacesOk, Answers, Subsequence, Window, Pow2, Wrap, ProdRing.Valid, ConsRing.Valid, Separate;
    }

    // ----- whole runs -----

    /** Restocks while `n` received packets wait. */
    method RestockReceiving(n: nat)
      requires Valid() && Receiving(n, 0)
      modifies umemFrameAddr, `umemFrameFree, `filled, `offers, `hand, fq, fq.ring, rx`producer, rx`produced, rx.ring, tx`consumer, tx`consumed, cq`producer, cq`produced, cq.ring,
        `kernelRx, `kernelTx, `granted, `delivered, `transmitted, `reported, `clock
      ensures Valid() && Receiving(n, 0)
      ensures Stocked(old(Stack()), |old(fq.Queue())|, old(fq.FreeFor(umemFrameFree)), old(offers), offers) && |reported| >= |old(reported)| && |transmitted| >= |old(transmitted)| && |delivered| >= |old(delivered)| && clock >= old(clock)
    {
      hide PlacesOk, Answers, FrameOf, Addrs, Pow2, Window, Wrap, ProdRing.Valid, ConsRing.Valid, Separate, View, FillLog, RxLog, TxLog, CompLog;
      var stock := Restock();
    }

    method HandleReceivePackets() returns (rcvd: nat)
      requires Valid() && Quiet()
      modifies this, umemFrameAddr, fq, fq.ring, cq, cq.ring, rx, rx.ring, tx, tx.ring
      ensures Valid() && Quiet()
      ensures rcvd == old(rx.AvailFor(RX_BATCH_SIZE)) <= RX_BATCH_SIZE && (rcvd == 0 <==> old(rx.Queue()) == [])
      ensures |handled| == |old(handled)| + rcvd && |delivered| >= |old(delivered)|
      ensures rcvd > 0 && |old(reported)| > |old(reclaimed)| ==> |reclaimed| > |old(reclaimed)|
      ensures rcvd > 0 ==> Stocked(old(Stack()), |old(fq.Queue())|, old(fq.FreeFor(umemFrameFree)), old(offers), offers)
      ensures rcvd == 0 ==> offers == old(offers) && reclaimed == old(reclaimed) && sent == old(sent)
      ensures exists time: nat :: time >= old(clock) && Looked(old(looks), looks, rcvd, time, old(TxRoom()))
    {
      hide PlacesOk, Answers, FrameOf, Addrs, Pow2, Window, Wrap, ProdRing.Valid, ConsRing.Valid, Separate, View, FillLog, RxLog, TxLog, CompLog, RingsOk, Receiving, Idle, Looked, TxRoom;
      var idx;
      rcvd, idx := PeekRx();
      if rcvd == 0 {
        LookedNone(looks, clock, TxRoom());
        return;
      }
      ghost var time := HandlePeeked(rcvd, idx);
    }

    /** Restocks and handles the peeked packets. */
    method ReceiveBatch(rcvd: nat, idx: uint32) returns (ghost time: nat)
      requires Valid() && Receiving(rcvd, 0) && idx == Wrap(rx.consumed)
      modifies this, umemFrameAddr, fq, fq.ring, cq, cq.ring, rx, rx.ring, tx, tx.ring
      ensures Valid() && Receiving(rcvd, rcvd) && |handled| == |old(handled)| + rcvd
      ensures |reported| >= |old(reported)| && reclaimed == old(reclaimed) && |delivered| >= |old(delivered)|
      ensures Stocked(old(Stack()), |old(fq.Queue())|, old(fq.FreeFor(umemFrameFree)), old(offers), offers)
      ensures time >= old(clock) && Looked(old(looks), looks, rcvd, time, old(TxRoom()))
    {
      hide PlacesOk, Answers, FrameOf, Addrs, Pow2, Window, Wrap, ProdRing.Valid, ConsRing.Valid, Separate, View, FillLog, RxLog, TxLog, CompLog, RingsOk, Receiving, Idle, Stocked, Looked, TxRoom;
      RoomByLog();
      RestockReceiving(rcvd);
      RoomByLog();
      time := clock;
      ghost var room := TxRoom();
      ReceiveAll(rcvd, idx);
      LookedLess(old(looks), looks, rcvd, time, room, old(TxRoom()));
    }

    method HandlePeeked(rcvd: nat, idx: uint32) returns (ghost time: nat)
      requires Valid() && Receiving(rcvd, 0) && idx == Wrap(rx.consumed)
      modifies this, umemFrameAddr, fq, fq.ring, cq, cq.ring, rx, rx.ring, tx, tx.ring
      ensures Valid() && Quiet() && |handled| == |old(handled)| + rcvd && |delivered| >= |old(delivered)|
      ensures |old(reported)| > |old(reclaimed)| ==> |reclaimed| > |old(reclaimed)|
      ensures Stocked(old(Stack()), |old(fq.Queue())|, old(fq.FreeFor(umemFrameFree)), old(offers), offers)
      ensures time >= old(clock) && Looked(old(looks), looks, rcvd, time, old(TxRoom()))
    {
      hide PlacesOk, Answers, FrameOf, Addrs, Pow2, Window, Wrap, ProdRing.Valid, ConsRing.Valid, Separate, View, FillLog, RxLog, TxLog, CompLog, RingsOk, Receiving, Idle, Stocked, Looked, TxRoom;
      time := ReceiveBatch(rcvd, idx);
      ReleaseRx(rcvd);
      CompleteTx();
    }

    /** Between rounds the packets on the RX ring are those delivered and not handled. */
    lemma Waiting()
      requires Valid() && Quiet()
      ensures |rx.Queue()| == |delivered| - |handled|
    {
      hide PlacesOk, Answers, Window, Pow2, Wrap, ProdRing.Valid, ConsRing.Valid, Separate, View, FillLog, TxLog, CompLog;
    }

    /** Any number of rounds against any kernel: no frame is lost or in two places, none is freed twice, and every round
        handles a packet as long as one is waiting. */
    method Run(rounds: nat) returns (received: nat)
      requires Valid() && Quiet()
      modifies this, umemFrameAddr, fq, fq.ring, cq, cq.ring, rx, rx.ring, tx, tx.ring
      ensures Valid() && Quiet()
      ensures |handled| == |old(handled)| + received && (received >= rounds || received >= |old(rx.Queue())|)
    {
      hide PlacesOk, Answers, FrameOf, Addrs, Pow2, Window, Wrap, ProdRing.Valid, ConsRing.Valid, Separate, View, FillLog, RxLog, TxLog, CompLog, RingsOk, Receiving, Idle, Looked, TxRoom, Stocked,
        ProdRing.FreeFor, ConsRing.AvailFor;
      Waiting();
      ghost var waiting := |delivered| - |handled|;
      received := 0;
      var i := 0;
      while i < rounds
        invariant 0 <= i <= rounds && Valid() && Quiet()
        invariant |handled| == |old(handled)| + received && |delivered| >= |old(delivered)| && (received >= i || received >= waiting)
      {
        KernelIdle();
        Waiting();
        var rcvd := HandleReceivePackets();
        received := received + rcvd;
        i := i + 1;
      }
    }
  }

  /** Rings with any initial counters, all frames free, half of them then offered for reception. */
  method Configure(kernel: nat -> seq<KernelStep>, isEcho: nat -> bool, fqStart: nat, cqStart: nat, rxStart: nat, txStart: nat)
    returns (xsk: XskSocket)
    ensures fresh(xsk) && fresh(xsk.fq) && fresh(xsk.cq) && fresh(xsk.rx) && fresh(xsk.tx) && fresh(xsk.umemFrameAddr)
    ensures fresh(xsk.fq.ring) && fresh(xsk.cq.ring) && fresh(xsk.rx.ring) && fresh(xsk.tx.ring)
    ensures xsk.kernel == kernel && xsk.isEcho == isEcho
    ensures xsk.Valid() && xsk.Quiet() && xsk.umemFrameFree == NUM_FRAMES - NUM_DESCS && xsk.handled == []
    ensures xsk.offers == Popped(InitialFrames(NUM_FRAMES), NUM_DESCS)
  {
    RingSize();
    hide PlacesOk, FrameOf, Addrs, Pow2, Window, Wrap, ProdRing.Valid, ConsRing.Valid, InitialFrames, Popped, Left;
    xsk := NewSocket(kernel, isEcho, fqStart, cqStart, rxStart, txStart);
    ghost var stack := xsk.Stack();
    LeftIs(stack, NUM_DESCS);
    var idx := xsk.ReserveFill(NUM_DESCS);
    xsk.FillAll(NUM_DESCS, idx);
    assert |xsk.Stack()| == xsk.umemFrameFree;
  }

  /** From its configuration on, whatever the kernel does and the packets are, the program never loses or
      duplicates a frame, and knows how many packets it has sent and not taken back. */
  method ConfigureAndRun(kernel: nat -> seq<KernelStep>, isEcho: nat -> bool, fqStart: nat, cqStart: nat, rxStart: nat, txStart: nat,
                         rounds: nat)
    returns (xsk: XskSocket, received: nat)
    ensures fresh(xsk) && xsk.Valid() && xsk.Quiet() && Conserved(xsk.View()) && xsk.View().hand == multiset{}
    ensures xsk.outstandingTx == |xsk.sent| - |xsk.reclaimed|
    ensures Subsequence(xsk.sent, xsk.handled) && xsk.handled <= xsk.delivered
    ensures |xsk.looks| == |xsk.handled| == received && xsk.sent == Answers(isEcho, xsk.handled, xsk.looks)
  {
    hide Conserved, Answers, Subsequence, FrameOf, Addrs, Pow2, Window, Wrap, ProdRing.Valid, ConsRing.Valid, XskSocket.Separate,
      XskSocket.FillLog, XskSocket.RxLog, XskSocket.TxLog, XskSocket.CompLog, InitialFrames, Popped;
    xsk := Configure(kernel, isEcho, fqStart, cqStart, rxStart, txStart);
    received := xsk.Run(rounds);
    xsk.Outstanding();
  }

  method NewSocket(kernel: nat -> seq<KernelStep>, isEcho: nat -> bool, fqStart: nat, cqStart: nat, rxStart: nat, txStart: nat)
    returns (xsk: XskSocket)
    ensures fresh(xsk) && fresh(xsk.fq) && fresh(xsk.cq) && fresh(xsk.rx) && fresh(xsk.tx) && fresh(xsk.umemFrameAddr)
    ensures fresh(xsk.fq.ring) && fresh(xsk.cq.ring) && fresh(xsk.rx.ring) && fresh(xsk.tx.ring)
    ensures xsk.kernel == kernel && xsk.isEcho == isEcho
    ensures xsk.Valid() && xsk.Quiet() && xsk.Stack() == InitialFrames(NUM_FRAMES) && xsk.fq.Queue() == [] && xsk.offers == []
    ensures xsk.umemFrameFree == NUM_FRAMES && xsk.handled == []
  {
    RingSize();
    hide PlacesOk, FrameOf, Addrs, Pow2, Window, Wrap, ProdRing.Valid, ConsRing.Valid, InitialFrames;
    var frames, fqRing, cqRing := new nat[NUM_FRAMES], new nat[NUM_DESCS], new nat[NUM_DESCS];
    InitFrames(frames);
    var rxRing, txRing := new Desc[NUM_DESCS], new Desc[NUM_DESCS];
    var fq := new ProdRing(RING_BITS, fqRing, fqStart);
    var cq := new ConsRing(RING_BITS, cqRing, cqStart);
    var rx := new ConsRing(RING_BITS, rxRing, rxStart);
    var tx := new ProdRing(RING_BITS, txRing, txStart);
    xsk := new XskSocket.Empty(fq, cq, rx, tx, frames, kernel, isEcho);
  }

  lemma RingSize()
    ensures Pow2(RING_BITS) == NUM_DESCS
  {
  }
}
