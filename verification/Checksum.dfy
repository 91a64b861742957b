/**
 The Internet checksum (RFC 1071) and its incremental update (Eqn. 3 in section 3 of RFC 1624), as
 af_xdp_user.c and the packet03 solution compute it on 16-bit words in host byte order.
 */
module Checksum {
  import opened Machine

  // ----- arithmetic modulo 65535 -----

  predicate Congruent(x: int, y: int) { (x - y) % 65535 == 0 }

  lemma CongruentBy(x: int, y: int, k: int)
    requires x - y == 65535 * k
    ensures Congruent(x, y)
  {
  }

  lemma Multiple(x: int, y: int) returns (k: int)
    requires Congruent(x, y)
    ensures x - y == 65535 * k
  {
    k := (x - y) / 65535;
  }

  lemma CongruentAdd(a: int, b: int, x: int, y: int)
    requires Congruent(a, b) && Congruent(x, y)
    ensures Congruent(a + x, b + y)
  {
    hide Congruent;
    var j := Multiple(a, b);
    var k := Multiple(x, y);
    CongruentBy(a + x, b + y, j + k);
  }

  lemma CongruentTrans(x: int, y: int, z: int)
    requires Congruent(x, y) && Congruent(y, z)
    ensures Congruent(x, z) && Congruent(z, x)
  {
    hide Congruent;
    var j := Multiple(x, y);
    var k := Multiple(y, z);
    CongruentBy(x, z, j + k);
    CongruentBy(z, x, -j - k);
  }

  lemma CongruentScale(x: int, y: int, c: int)
    requires Congruent(x, y) && (c == 256 || c == 1)
    ensures Congruent(c * x, c * y)
  {
    hide Congruent;
    var k := Multiple(x, y);
    CongruentBy(256 * x, 256 * y, 256 * k);
  }

  // ----- one's complement sums -----

  /** `r` is the 16-bit value of a one's complement sum of total `x`: zero only for zero. */
  ghost predicate IsSum(r: int, x: int) {
    0 <= r <= 65535 && x >= 0 && Congruent(r, x) && (r == 0 <==> x == 0)
  }

  lemma SumUnique(r: int, x: int, r': int, x': int)
    requires IsSum(r, x) && IsSum(r', x') && Congruent(x, x') && (x == 0 <==> x' == 0)
    ensures r == r'
  {
    hide Congruent;
    CongruentTrans(r, x, x');
    CongruentTrans(r', x', r);
    var k := Multiple(r, r');
  }

  function Not16(x: uint16): uint16 { 65535 - x }

  /** 16-bit addition with end-around carry. */
  function Csum16Add(csum: uint16, addend: uint16): uint16 {
    var res := (csum + addend) % 65536;
    (res + if res < addend then 1 else 0) % 65536
  }

  function Csum16Sub(csum: uint16, addend: uint16): uint16 { Csum16Add(csum, Not16(addend)) }

  lemma EndAroundCarry(a: uint16, b: uint16)
    ensures a + b <= 65535 ==> Csum16Add(a, b) == a + b
    ensures a + b > 65535 ==> Csum16Add(a, b) == a + b - 65535
  {
  }

  lemma Csum16AddIs(a: uint16, b: uint16, x: int, y: int)
    requires IsSum(a, x) && IsSum(b, y)
    ensures IsSum(Csum16Add(a, b), x + y)
  {
    hide Csum16Add, Congruent;
    EndAroundCarry(a, b);
    var j := Multiple(a, x);
    var k := Multiple(b, y);
    CongruentBy(Csum16Add(a, b), x + y, if a + b <= 65535 then j + k else j + k - 1);
  }

  lemma SumItself(a: uint16)
    ensures IsSum(a, a)
  {
  }

  /** The checksum after a 16-bit word changed from `old'` to `new'`. */
  function CsumReplace2(sum: uint16, old': uint16, new': uint16): uint16 {
    Not16(Csum16Add(Csum16Sub(Not16(sum), old'), new'))
  }

  /** The update changes the checksum by the opposite of the change of the word. */
  lemma CsumReplace2Is(sum: uint16, old': uint16, new': uint16)
    ensures Congruent(CsumReplace2(sum, old', new') + new', sum + old')
  {
    hide Csum16Add, Congruent;
    var a := Csum16Sub(Not16(sum), old');
    SumItself(Not16(sum));
    SumItself(Not16(old'));
    SumItself(new');
    Csum16AddIs(Not16(sum), Not16(old'), Not16(sum), Not16(old'));
    Csum16AddIs(a, new', Not16(sum) + Not16(old'), new');
    var b := Csum16Add(a, new');
    var k := Multiple(b, Not16(sum) + Not16(old') + new');
    CongruentBy(CsumReplace2(sum, old', new') + new', sum + old', -1 - k);
  }

  // ----- sums of bytes -----

  /** The sum of the 16-bit words of a message in network byte order; an odd last byte is padded with zero. */
  function WordSum(bs: seq<uint8>): nat {
    if bs == [] then 0
    else if |bs| == 1 then 256 * bs[0]
    else NetWord(bs[0], bs[1]) + WordSum(bs[2..])
  }

  /** The one's complement sum of the words, added up one by one. */
  function OnesSum(bs: seq<uint8>): uint16 {
    if bs == [] then 0
    else if |bs| == 1 then NetWord(bs[0], 0)
    else Csum16Add(OnesSum(bs[2..]), NetWord(bs[0], bs[1]))
  }

  /** A message that contains its checksum verifies when the sum is all ones. */
  predicate Verifies(bs: seq<uint8>) { OnesSum(bs) == 0xFFFF }

  lemma {:induction false} OnesSumIs(bs: seq<uint8>)
    ensures IsSum(OnesSum(bs), WordSum(bs))
    decreases |bs|
  {
    if |bs| > 1 {
      OnesSumIs(bs[2..]);
      hide Csum16Add, Congruent;
      var w := NetWord(bs[0], bs[1]);
      SumItself(w);
      Csum16AddIs(OnesSum(bs[2..]), w, WordSum(bs[2..]), w);
    }
  }

  lemma VerifiesIs(bs: seq<uint8>)
    ensures Verifies(bs) <==> WordSum(bs) > 0 && Congruent(WordSum(bs), 0)
  {
    OnesSumIs(bs);
    hide OnesSum, WordSum, Congruent;
    var r, x: int := OnesSum(bs), WordSum(bs);
    if r == 65535 {
      var k := Multiple(r, x);
      CongruentBy(x, 0, 1 - k);
    } else if x > 0 && Congruent(x, 0) {
      CongruentTrans(r, x, 0);
      var k := Multiple(r, 0);
    }
  }

  lemma {:induction false} WordSumConcat(a: seq<uint8>, b: seq<uint8>)
    requires |a| % 2 == 0
    ensures WordSum(a + b) == WordSum(a) + WordSum(b)
    decreases |a|
  {
    if a == [] {
      assert a + b == b;
    } else {
      assert (a + b)[2..] == a[2..] + b;
      WordSumConcat(a[2..], b);
    }
  }

  /** The weight of a byte in its word. */
  function Weight(i: nat): nat { if i % 2 == 0 then 256 else 1 }

  lemma {:induction false} WordSumUpdate(bs: seq<uint8>, i: nat, v: uint8)
    requires i < |bs|
    ensures WordSum(bs[i := v]) == WordSum(bs) - Weight(i) * bs[i] + Weight(i) * v
    decreases i
  {
    if i >= 2 {
      assert bs[i := v][2..] == bs[2..][i - 2 := v];
      WordSumUpdate(bs[2..], i - 2, v);
    } else if |bs| > 1 {
      assert bs[i := v][2..] == bs[2..];
    }
  }

  lemma {:induction false} WordSumPositive(bs: seq<uint8>, i: nat)
    requires i < |bs| && bs[i] > 0
    ensures WordSum(bs) > 0
    decreases i
  {
    if i >= 2 { WordSumPositive(bs[2..], i - 2); }
  }

  // ----- host byte order -----

  /** How the host reads two consecutive bytes as a 16-bit word. */
  function Load16(b0: uint8, b1: uint8, littleEndian: bool): uint16 {
    if littleEndian then b0 + 256 * b1 else 256 * b0 + b1
  }

  /** Two consecutive bytes as a word in network byte order. */
  function NetWord(b0: uint8, b1: uint8): uint16 { Load16(b0, b1, false) }

  /** The two bytes the host stores for a 16-bit word. */
  function Store16(x: uint16, littleEndian: bool): (uint8, uint8) {
    if littleEndian then (x % 256, x / 256) else (x / 256, x % 256)
  }

  lemma LoadStore(x: uint16, littleEndian: bool)
    ensures Load16(Store16(x, littleEndian).0, Store16(x, littleEndian).1, littleEndian) == x
  {
  }

  function Htons(x: uint16, littleEndian: bool): uint16 { Load16(x / 256, x % 256, littleEndian) }

  /** The factor between a word in network order and the word the host sees, modulo 65535. */
  function Order(littleEndian: bool): int { if littleEndian then 256 else 1 }

  lemma LoadNetwork(b0: uint8, b1: uint8, littleEndian: bool)
    ensures Congruent(NetWord(b0, b1), Order(littleEndian) * Load16(b0, b1, littleEndian))
  {
    hide Congruent;
    var k: int := b1;
    CongruentBy(NetWord(b0, b1), Order(littleEndian) * Load16(b0, b1, littleEndian), if littleEndian then -k else 0);
  }

  /** A checksum and the first byte of a word change together: if their host-order sum stays the same modulo 65535,
      their sum in network order does too. */
  lemma ByteChange(c0: uint8, c1: uint8, t: uint8, d0: uint8, d1: uint8, u: uint8, littleEndian: bool)
    requires Congruent(Load16(d0, d1, littleEndian) + Load16(u, 0, littleEndian), Load16(c0, c1, littleEndian) + Load16(t, 0, littleEndian))
    ensures Congruent(NetWord(d0, d1) + NetWord(u, 0), NetWord(c0, c1) + NetWord(t, 0))
  {
    var c: int, w: int := Load16(c0, c1, littleEndian), Load16(t, 0, littleEndian);
    var d: int, v: int := Load16(d0, d1, littleEndian), Load16(u, 0, littleEndian);
    var o := Order(littleEndian);
    LoadNetwork(c0, c1, littleEndian);
    LoadNetwork(t, 0, littleEndian);
    LoadNetwork(d0, d1, littleEndian);
    LoadNetwork(u, 0, littleEndian);
    CongruentScale(d + v, c + w, o);
    hide Load16, Order, NetWord, Congruent;
    Distribute(o, d, v);
    Distribute(o, c, w);
    CongruentAdd(NetWord(d0, d1), o * d, NetWord(u, 0), o * v);
    CongruentAdd(NetWord(c0, c1), o * c, NetWord(t, 0), o * w);
    CongruentTrans(NetWord(d0, d1) + NetWord(u, 0), o * d + o * v, o * c + o * w);
    CongruentTrans(o * c + o * w, NetWord(d0, d1) + NetWord(u, 0), NetWord(d0, d1) + NetWord(u, 0));
    CongruentTrans(NetWord(c0, c1) + NetWord(t, 0), o * c + o * w, NetWord(d0, d1) + NetWord(u, 0));
  }

  lemma Distribute(o: int, x: int, y: int)
    ensures o * (x + y) == o * x + o * y
  {
  }

  // ----- folding a 32-bit sum -----

  /** csum_fold_helper. */
  function CsumFold(csum: uint32): uint16 {
    var sum := csum / 65536 + csum % 65536;
    var sum' := sum + sum / 65536;
    65535 - sum' % 65536
  }

  lemma CsumFoldIs(csum: uint32)
    ensures IsSum(Not16(CsumFold(csum)), csum)
  {
    var hi: int, lo: int := csum / 65536, csum % 65536;
    FoldOnce(hi, lo);
    hide Congruent;
    var f: int := Not16(CsumFold(csum));
    CongruentBy(f, csum, if hi + lo <= 65535 then -hi else -hi - 1);
  }

  lemma FoldOnce(hi: int, lo: int)
    requires 0 <= hi < 65536 && 0 <= lo < 65536
    ensures var y := hi + lo; (y + y / 65536) % 65536 == if y <= 65535 then y else y - 65535
  {
  }
}
