/**
 Single-producer single-consumer rings over 32-bit counters that wrap around, as AF_XDP uses
 them: the ring helpers of libbpf's xsk.h and the rings of the Go socket. Ghost counters count
 everything ever produced and consumed; the stored counters are those modulo 2^32.
 */
module Rings {
  import opened Machine

  // ----- wrapping arithmetic and masks -----

  function Wrap(x: int): uint32 { x % WORD32 }

  /** Bitwise and. */
  function BitAnd(x: nat, y: nat): nat
    decreases x
  {
    if x == 0 then 0 else (x % 2) * (y % 2) + 2 * BitAnd(x / 2, y / 2)
  }

  /** The lowest k bits: the slot a counter selects in a ring of 2^k slots. */
  function Low(x: nat, k: nat): (r: nat)
    ensures r < Pow2(k)
    decreases k
  {
    if k == 0 then 0 else x % 2 + 2 * Low(x / 2, k - 1)
  }

  lemma AndStep(x: nat, h: nat)
    requires x > 0 && h > 0
    ensures BitAnd(x, 2 * h - 1) == x % 2 + 2 * BitAnd(x / 2, h - 1)
  {
    var m := 2 * h - 1;
    assert m == 2 * (h - 1) + 1;
    assert m % 2 == 1 && m / 2 == h - 1;
  }

  lemma {:induction false} AndZero(x: nat)
    ensures BitAnd(x, 0) == 0 && BitAnd(0, x) == 0
    decreases x
  {
    if x > 0 { AndZero(x / 2); }
  }

  lemma LowStep(x: nat, k: nat)
    ensures Low(x, 0) == 0 && Low(x, k + 1) == x % 2 + 2 * Low(x / 2, k) && Pow2(0) == 1 && Pow2(k + 1) == 2 * Pow2(k)
  {
  }

  /** Masking with 2^k - 1 keeps the lowest k bits. */
  lemma {:induction false} AndMask(x: nat, k: nat)
    ensures BitAnd(x, Pow2(k) - 1) == Low(x, k)
    decreases k
  {
    hide BitAnd, Low, Pow2;
    if k == 0 {
      LowStep(x, 0);
      AndZero(x);
    } else if x == 0 {
      LowZero(k);
      AndZero(Pow2(k) - 1);
    } else {
      LowStep(x, k - 1);
      AndMask(x / 2, k - 1);
      AndStep(x, Pow2(k - 1));
    }
  }

  lemma {:induction false} LowZero(k: nat)
    ensures Low(0, k) == 0
    decreases k
  {
    if k > 0 { LowZero(k - 1); }
  }

  lemma {:induction false} LowLow(x: nat, j: nat, k: nat)
    requires k <= j
    ensures Low(Low(x, j), k) == Low(x, k)
    decreases k
  {
    if k > 0 {
      assert Low(x, j) / 2 == Low(x / 2, j - 1) && Low(x, j) % 2 == x % 2;
      LowLow(x / 2, j - 1, k - 1);
    }
  }

  lemma Doubled(p: nat, q: nat)
    ensures 2 * (p * q) == (2 * p) * q
  {
  }

  lemma {:induction false} HighLow(x: nat, k: nat)
    ensures x == Pow2(k) * ShiftRight(x, k) + Low(x, k)
    decreases k
  {
    if k > 0 {
      HighLow(x / 2, k - 1);
      Doubled(Pow2(k - 1), ShiftRight(x / 2, k - 1));
    }
  }

  lemma WordRemainder(h: nat, l: nat)
    requires l < WORD32
    ensures (WORD32 * h + l) % WORD32 == l
  {
  }

  lemma WrapIsLow(x: nat)
    ensures Wrap(x) == Low(x, 32)
  {
    hide Low, ShiftRight, Pow2;
    HighLow(x, 32);
    Pow2Words();
    WordRemainder(ShiftRight(x, 32), Low(x, 32));
  }

  /** The slot a stored counter selects is the one the unwrapped counter selects. */
  lemma SlotOf(x: nat, k: nat)
    requires k <= 32
    ensures BitAnd(Wrap(x), Pow2(k) - 1) == Low(x, k)
  {
    AndMask(Wrap(x), k);
    WrapIsLow(x);
    LowLow(x, 32, k);
  }

  /** A difference of wrapped counters is exact as long as it fits. */
  lemma WrapDiff(a: nat, b: nat)
    requires a <= b < a + WORD32
    ensures Wrap(Wrap(b) - Wrap(a)) == b - a
  {
  }

  /** Counters less than 2^k apart select different slots. */
  lemma {:induction false} LowDistinct(a: nat, b: nat, k: nat)
    requires a < b < a + Pow2(k)
    ensures Low(a, k) != Low(b, k)
    decreases k
  {
    if a % 2 == b % 2 { LowDistinct(a / 2, b / 2, k - 1); }
  }

  // ----- the window of a ring between two counters -----

  /** What the slots hold for counters from `from` up to but not including `to`. */
  ghost function Window<T>(ring: seq<T>, k: nat, from: nat, to: nat): (w: seq<T>)
    requires |ring| == Pow2(k) && from <= to
    ensures |w| == to - from
  {
    seq(to - from, i requires 0 <= i < to - from => ring[Low(from + i, k)])
  }

  /** Writing a slot that the window does not cover leaves the window as it is. */
  lemma WriteOutside<T>(ring: seq<T>, k: nat, from: nat, to: nat, q: nat, v: T)
    requires |ring| == Pow2(k) && from <= to <= q < from + Pow2(k)
    ensures Window(ring[Low(q, k) := v], k, from, to) == Window(ring, k, from, to)
  {
    var w, w' := Window(ring, k, from, to), Window(ring[Low(q, k) := v], k, from, to);
    forall i | 0 <= i < to - from ensures w'[i] == w[i] { LowDistinct(from + i, q, k); }
  }

  lemma WriteInside<T>(ring: seq<T>, k: nat, from: nat, to: nat, q: nat, v: T)
    requires |ring| == Pow2(k) && from <= q < to <= from + Pow2(k)
    ensures Window(ring[Low(q, k) := v], k, from, to) == Window(ring, k, from, to)[q - from := v]
  {
    var r, w := ring[Low(q, k) := v], Window(ring, k, from, to)[q - from := v];
    forall i | 0 <= i < to - from ensures Window(r, k, from, to)[i] == w[i] {
      if from + i < q { LowDistinct(from + i, q, k); }
      if from + i > q { LowDistinct(q, from + i, k); }
    }
  }

  lemma WindowSplit<T>(ring: seq<T>, k: nat, from: nat, mid: nat, to: nat)
    requires |ring| == Pow2(k) && from <= mid <= to
    ensures Window(ring, k, from, to) == Window(ring, k, from, mid) + Window(ring, k, mid, to)
  {
  }

  lemma WindowFirst<T>(ring: seq<T>, k: nat, from: nat, to: nat)
    requires |ring| == Pow2(k) && from < to
    ensures Window(ring, k, from, to) == [ring[Low(from, k)]] + Window(ring, k, from + 1, to)
  {
    WindowSplit(ring, k, from, from + 1, to);
  }

  lemma {:induction false} Pow2Monotone(a: nat, b: nat)
    requires a <= b
    ensures Pow2(a) <= Pow2(b)
    decreases b
  {
    if a < b { Pow2Monotone(a, b - 1); }
  }

  lemma RingFits(k: nat)
    requires k <= 31
    ensures Pow2(k) < WORD32
  {
    Pow2Monotone(k, 31);
    Pow2Words();
  }

  // ----- descriptors and the kernel -----

  datatype Desc = Desc(addr: nat, len: nat)

  ghost function Addrs(ds: seq<Desc>): (s: seq<nat>)
    ensures |s| == |ds|
  {
    seq(|ds|, i requires 0 <= i < |ds| => ds[i].addr)
  }

  lemma AddrsSnoc(ds: seq<Desc>, d: Desc)
    ensures Addrs(ds + [d]) == Addrs(ds) + [d.addr]
  {
  }

  lemma AddrsCons(d: Desc, ds: seq<Desc>)
    ensures Addrs([d] + ds) == [d.addr] + Addrs(ds)
  {
  }

  lemma NoAddrs()
    ensures Addrs([]) == []
  {
  }

  /** What the kernel may do: steps that are not possible at the moment have no effect. */
  datatype KernelStep =
    | TakeFill                                        // takes the oldest frame offered for reception
    | Deliver(frame: nat, offset: nat, len: nat)      // puts a received packet on the RX ring
    | TakeTx                                          // takes the oldest packet to send
    | Complete(frame: nat, offset: nat)               // reports a packet as sent

  /** xsk_ring_prod: the application produces (FILL, TX), the kernel consumes. */
  class ProdRing<T> {
    const bits: nat
    const ring: array<T>
    var producer: uint32    // shared with the kernel
    var consumer: uint32    // written by the kernel
    var cachedProd: uint32
    var cachedCons: uint32  // the last seen consumer plus the ring size
    ghost var produced: nat
    ghost var consumed: nat
    ghost var reserved: nat
    ghost var seen: nat     // how much consumption the application has seen

    ghost predicate Valid()
      reads this, ring
    {
      && bits <= 31 && ring.Length == Pow2(bits)
      && producer == Wrap(produced) && consumer == Wrap(consumed)
      && cachedProd == Wrap(reserved) && cachedCons == Wrap(seen + Pow2(bits))
      && seen <= consumed <= produced <= reserved <= seen + Pow2(bits)
    }

    /** Descriptors submitted and not consumed yet, oldest first. */
    ghost function Queue(): seq<T>
      requires Valid()
      reads this, ring
    {
      Window(ring[..], bits, consumed, produced)
    }

    /** Slots reserved and not submitted yet. */
    ghost function Open(): seq<T>
      requires Valid()
      reads this, ring
    {
      Window(ring[..], bits, produced, reserved)
    }

    constructor (bits: nat, ring: array<T>, start: nat)
      requires bits <= 31 && ring.Length == Pow2(bits)
      ensures Valid() && Queue() == [] && Open() == [] && this.ring == ring && this.bits == bits
    {
      this.bits, this.ring := bits, ring;
      producer, consumer, cachedProd, cachedCons := Wrap(start), Wrap(start), Wrap(start), Wrap(start + Pow2(bits));
      produced, consumed, reserved, seen := start, start, start, start;
    }

    method KnownFree() returns (n: nat)
      requires Valid()
      ensures n == seen + Pow2(bits) - reserved
    {
      RingFits(bits);
      WrapDiff(reserved, seen + Pow2(bits));
      hide Pow2, Wrap;
      n := Wrap(cachedCons - cachedProd);
    }

    /** Looks up how far the kernel has come. */
    method LookUpConsumer()
      requires Valid()
      modifies `cachedCons, `seen
      ensures Valid() && seen == consumed
    {
      WrapAdd(consumed, Pow2(bits));
      hide Pow2, Wrap;
      cachedCons := Wrap(consumer + Pow2(bits));
      seen := consumed;
    }

    /** The free slots to be reported to one who asks for `nb`: those that are known, if they are enough, or else all. */
    ghost function FreeFor(nb: nat): (n: nat)
      requires Valid()
      reads this, ring
    {
      if seen + Pow2(bits) - reserved >= nb then seen + Pow2(bits) - reserved else consumed + Pow2(bits) - reserved
    }

    /** Free slots as far as known; the consumer is looked up only when that is less than asked for. */
    method NbFree(nb: nat) returns (n: nat)
      requires Valid()
      modifies `cachedCons, `seen
      ensures Valid()
      ensures n == seen + Pow2(bits) - reserved == old(FreeFor(nb))
      ensures n <= Pow2(bits) - |Queue()| - |Open()|
      ensures n < nb ==> n == Pow2(bits) - |Queue()| - |Open()|
    {
      hide Pow2, Wrap, Window;
      n := KnownFree();
      if n >= nb { return; }
      LookUpConsumer();
      n := KnownFree();
    }

    /** Reserves all of `nb` slots or none; none only when the ring has fewer free. */
    method Reserve(nb: nat) returns (n: nat, idx: uint32)
      requires Valid()
      modifies `cachedCons, `seen, `cachedProd, `reserved
      ensures Valid() && Queue() == old(Queue())
      ensures n == nb || n == 0
      ensures n == nb ==> idx == Wrap(old(reserved)) && reserved == old(reserved) + nb
      ensures n == nb ==> |Open()| == |old(Open())| + nb && Open()[..|old(Open())|] == old(Open())
      ensures n != nb ==> reserved == old(reserved) && Pow2(bits) - |Queue()| - |Open()| < nb
    {
      idx := 0;
      var free := NbFree(nb);
      if free < nb { return 0, 0; }
      n, idx := nb, cachedProd;
      WindowSplit(ring[..], bits, produced, reserved, reserved + nb);
      WrapAdd(reserved, nb);
      cachedProd := Wrap(cachedProd + nb);
      reserved := reserved + nb;
    }

    /** Writes the reserved slot of counter `at`; what is queued is not touched. */
    method Put(idx: uint32, v: T, ghost at: nat)
      requires Valid() && idx == Wrap(at) && produced <= at < reserved
      modifies ring
      ensures Valid() && Queue() == old(Queue())
      ensures Open() == old(Open())[at - produced := v]
    {
      SlotOf(at, bits);
      WriteOutside(ring[..], bits, consumed, produced, at, v);
      WriteInside(ring[..], bits, produced, reserved, at, v);
      ghost var was := ring[..];
      ring[BitAnd(idx, Pow2(bits) - 1)] := v;
      assert ring[..] == was[Low(at, bits) := v];
    }

    /** Hands the first `nb` reserved slots to the kernel. */
    method Submit(nb: nat)
      requires Valid() && nb <= |Open()|
      modifies `producer, `produced
      ensures Valid()
      ensures Queue() == old(Queue()) + old(Open())[..nb] && Open() == old(Open())[nb..]
    {
      WrapAdd(produced, nb);
      WindowSplit(ring[..], bits, consumed, produced, produced + nb);
      WindowSplit(ring[..], bits, produced, produced + nb, reserved);
      producer := Wrap(producer + nb);
      produced := produced + nb;
    }

    /** Writes and submits the only reserved slot. */
    method PutSubmit(idx: uint32, v: T)
      requires Valid() && |Open()| == 1 && idx == Wrap(produced)
      modifies ring, `producer, `produced
      ensures Valid() && Queue() == old(Queue()) + [v] && Open() == []
    {
      hide Low, BitAnd, Pow2, Window, Wrap;
      Put(idx, v, produced);
      assert Open() == [v];
      Submit(1);
    }

    method KernelHasData() returns (b: bool)
      requires Valid()
      ensures b <==> |Queue()| > 0
    {
      RingFits(bits);
      WrapDiff(consumed, produced);
      b := producer != consumer;
    }

    /** A kernel step: consumes the oldest descriptor. */
    method KernelConsume() returns (v: T)
      requires Valid() && |Queue()| > 0
      modifies `consumer, `consumed
      ensures Valid() && old(Queue()) == [v] + Queue() && Open() == old(Open())
    {
      v := KernelLook();
      KernelAdvance();
    }

    method KernelLook() returns (v: T)
      requires Valid() && |Queue()| > 0
      ensures v == Queue()[0]
    {
      SlotOf(consumed, bits);
      WindowFirst(ring[..], bits, consumed, produced);
      hide Pow2, Window, Wrap, BitAnd, Low;
      v := ring[BitAnd(consumer, Pow2(bits) - 1)];
    }

    method KernelAdvance()
      requires Valid() && |Queue()| > 0
      modifies `consumer, `consumed
      ensures Valid() && old(Queue()) == [old(Queue())[0]] + Queue() && Open() == old(Open())
    {
      WindowFirst(ring[..], bits, consumed, produced);
      WrapAdd(consumed, 1);
      hide Low, BitAnd, Pow2, Window, Wrap;
      consumer := Wrap(consumer + 1);
      consumed := consumed + 1;
    }
  }

  lemma WrapAdd(a: nat, b: nat)
    ensures Wrap(Wrap(a) + b) == Wrap(a + b)
  {
  }

  /** xsk_ring_cons: the kernel produces (RX, COMPLETION), the application consumes. */
  class ConsRing<T> {
    const bits: nat
    const ring: array<T>
    var producer: uint32    // written by the kernel
    var consumer: uint32    // shared with the kernel
    var cachedProd: uint32
    var cachedCons: uint32
    ghost var produced: nat
    ghost var consumed: nat
    ghost var peeked: nat
    ghost var seen: nat     // how much production the application has seen

    ghost predicate Valid()
      reads this, ring
    {
      && bits <= 31 && ring.Length == Pow2(bits)
      && producer == Wrap(produced) && consumer == Wrap(consumed)
      && cachedProd == Wrap(seen) && cachedCons == Wrap(peeked)
      && consumed <= peeked <= seen <= produced <= consumed + Pow2(bits)
    }

    /** Descriptors produced and not peeked yet, oldest first. */
    ghost function Queue(): seq<T>
      requires Valid()
      reads this, ring
    {
      Window(ring[..], bits, peeked, produced)
    }

    /** Descriptors peeked and not released yet. */
    ghost function Peeked(): seq<T>
      requires Valid()
      reads this, ring
    {
      Window(ring[..], bits, consumed, peeked)
    }

    constructor (bits: nat, ring: array<T>, start: nat)
      requires bits <= 31 && ring.Length == Pow2(bits)
      ensures Valid() && Queue() == [] && Peeked() == [] && this.ring == ring && this.bits == bits
    {
      this.bits, this.ring := bits, ring;
      producer, consumer, cachedProd, cachedCons := Wrap(start), Wrap(start), Wrap(start), Wrap(start);
      produced, consumed, peeked, seen := start, start, start, start;
    }

    /** The entries to be reported to one who asks for `nb`: those that are known, if there are any, or else all there are. */
    ghost function AvailFor(nb: nat): (n: nat)
      requires Valid()
      reads this, ring
    {
      var known := if seen > peeked then seen - peeked else produced - peeked;
      if known > nb then nb else known
    }

    /** At most `nb` known available entries; the producer is looked up only when none is known. */
    method NbAvail(nb: nat) returns (n: nat)
      requires Valid()
      modifies `cachedProd, `seen
      ensures Valid()
      ensures n == old(AvailFor(nb)) && n <= nb && n <= seen - peeked
      ensures n == 0 ==> nb == 0 || Queue() == []
    {
      RingFits(bits);
      WrapDiff(peeked, seen);
      n := Wrap(cachedProd - cachedCons);
      if n == 0 {
        cachedProd := producer;
        seen := produced;
        WrapDiff(peeked, seen);
        n := Wrap(cachedProd - cachedCons);
      }
      if n > nb { n := nb; }
    }

    /** Takes up to `nb` entries, at least one if there is any; they are the oldest. */
    method Peek(nb: nat) returns (n: nat, idx: uint32)
      requires Valid()
      modifies `cachedProd, `seen, `cachedCons, `peeked
      ensures Valid() && n == old(AvailFor(nb)) && n <= nb && n <= |old(Queue())|
      ensures n == 0 ==> nb == 0 || old(Queue()) == []
      ensures n > 0 ==> idx == Wrap(old(peeked))
      ensures Peeked() == old(Peeked()) + old(Queue())[..n] && Queue() == old(Queue())[n..]
    {
      idx := 0;
      n := NbAvail(nb);
      if n > 0 {
        idx := cachedCons;
        WrapAdd(peeked, n);
        WindowSplit(ring[..], bits, consumed, peeked, peeked + n);
        WindowSplit(ring[..], bits, peeked, peeked + n, produced);
        cachedCons := Wrap(cachedCons + n);
        peeked := peeked + n;
      }
    }

    /** Reads the peeked entry of counter `at`. */
    method Get(idx: uint32, ghost at: nat) returns (v: T)
      requires Valid() && idx == Wrap(at) && consumed <= at < peeked
      ensures v == Peeked()[at - consumed]
    {
      SlotOf(at, bits);
      v := ring[BitAnd(idx, Pow2(bits) - 1)];
    }

    /** Gives the slots of the oldest `nb` peeked entries back to the kernel. */
    method Release(nb: nat)
      requires Valid() && nb <= |Peeked()|
      modifies `consumer, `consumed
      ensures Valid() && Peeked() == old(Peeked())[nb..] && Queue() == old(Queue())
    {
      WrapAdd(consumed, nb);
      WindowSplit(ring[..], bits, consumed, consumed + nb, peeked);
      consumer := Wrap(consumer + nb);
      consumed := consumed + nb;
    }

    method KernelHasRoom() returns (b: bool)
      requires Valid()
      ensures b <==> |Peeked()| + |Queue()| < Pow2(bits)
    {
      RingFits(bits);
      WrapDiff(consumed, produced);
      b := Wrap(producer - consumer) < Pow2(bits);
    }

    /** A kernel step: produces a descriptor; nothing peeked or queued is overwritten. */
    method KernelProduce(v: T)
      requires Valid() && |Peeked()| + |Queue()| < Pow2(bits)
      modifies `producer, `produced, ring
      ensures Valid() && Queue() == old(Queue()) + [v] && Peeked() == old(Peeked())
    {
      SlotOf(produced, bits);
      WrapAdd(produced, 1);
      WriteOutside(ring[..], bits, consumed, peeked, produced, v);
      WriteOutside(ring[..], bits, peeked, produced, produced, v);
      ghost var was := ring[..];
      ring[BitAnd(producer, Pow2(bits) - 1)] := v;
      assert ring[..] == was[Low(produced, bits) := v];
      WindowSplit(ring[..], bits, peeked, produced, produced + 1);
      producer := Wrap(producer + 1);
      produced := produced + 1;
    }
  }
}
