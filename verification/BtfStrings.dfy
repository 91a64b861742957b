/**
 String deduplication, the first pass of libbpf's btf__dedup: the string section is indexed,
 the strings referenced from a visited slot are marked, equal strings are grouped by sorting,
 one copy of each used string is written to a new section, and the slots are rewritten.

 Bytes are natural numbers; a string is the run of bytes before the next NUL.
 */
module BtfStrings {
  import opened Machine

  type Str = seq<nat>


  /** The NUL-terminated string at an offset of the section. */
  function StrAt(sec: seq<nat>, off: nat): (s: Str)
    ensures 0 !in s && (off < |sec| ==> off + |s| <= |sec|)
    decreases |sec| - off
  {
    if off >= |sec| || sec[off] == 0 then [] else [sec[off]] + StrAt(sec, off + 1)
  }

  /** A section starts with the empty string and ends with a NUL. */
  predicate SectionOk(sec: seq<nat>) {
    |sec| > 0 && sec[0] == 0 && sec[|sec| - 1] == 0
  }

  /** A string of the section begins at `off`. */
  predicate IsStart(sec: seq<nat>, off: nat) {
    off < |sec| && (off == 0 || sec[off - 1] == 0)
  }

  lemma {:induction false} StrAtEnds(sec: seq<nat>, off: nat)
    requires SectionOk(sec) && off < |sec|
    ensures off + |StrAt(sec, off)| < |sec| && sec[off + |StrAt(sec, off)|] == 0
    ensures forall k :: off <= k < off + |StrAt(sec, off)| ==> sec[k] != 0
    decreases |sec| - off
  {
    if sec[off] != 0 { StrAtEnds(sec, off + 1); }
  }

  // ----- strcmp order -----

  predicate StrLeq(a: Str, b: Str) {
    a == [] || (b != [] && (a[0] < b[0] || (a[0] == b[0] && StrLeq(a[1..], b[1..]))))
  }

  lemma {:induction false} StrLeqTotal(a: Str, b: Str)
    ensures StrLeq(a, b) || StrLeq(b, a)
    decreases a
  {
    if a != [] && b != [] { StrLeqTotal(a[1..], b[1..]); }
  }

  lemma {:induction false} StrLeqTrans(a: Str, b: Str, c: Str)
    requires StrLeq(a, b) && StrLeq(b, c)
    ensures StrLeq(a, c)
    decreases a
  {
    if a != [] && a[0] == b[0] == c[0] { StrLeqTrans(a[1..], b[1..], c[1..]); }
  }

  lemma {:induction false} StrLeqAntisym(a: Str, b: Str)
    requires StrLeq(a, b) && StrLeq(b, a)
    ensures a == b
    decreases a
  {
    if a != [] {
      StrLeqAntisym(a[1..], b[1..]);
      assert a == [a[0]] + a[1..] && b == [b[0]] + b[1..];
    }
  }

  /** The first byte in which `a` and `b` differ is at `k`, and smaller in `a`. */
  predicate SmallerAt(a: Str, b: Str, k: nat) {
    k < |a| && k < |b| && a[..k] == b[..k] && a[k] < b[k]
  }

  /** A string precedes those it is a prefix of, and those with a greater byte where they differ first. */
  lemma {:induction false} StrLeqIs(a: Str, b: Str)
    ensures StrLeq(a, b) <==> a <= b || exists k: nat :: SmallerAt(a, b, k)
    decreases a
  {
    if a != [] && b != [] {
      var a', b' := a[1..], b[1..];
      StrLeqIs(a', b');
      assert a == [a[0]] + a' && b == [b[0]] + b';
      if a[0] < b[0] { assert SmallerAt(a, b, 0); }
      if a[0] == b[0] {
        if k: nat :| SmallerAt(a', b', k) { assert a[..k + 1] == [a[0]] + a'[..k] && b[..k + 1] == [b[0]] + b'[..k] && SmallerAt(a, b, k + 1); }
        if k: nat :| SmallerAt(a, b, k) { assert k > 0 && a'[..k - 1] == a[..k][1..] && b'[..k - 1] == b[..k][1..] && SmallerAt(a', b', k - 1); }
      }
      if k: nat :| SmallerAt(a, b, k) { assert k > 0 ==> a[..k][0] == b[..k][0]; }
    }
  }

  predicate StrLess(a: Str, b: Str) { a != b && StrLeq(a, b) }

  lemma StrLessTrans(a: Str, b: Str, c: Str)
    requires StrLeq(a, b) && StrLess(b, c)
    ensures StrLess(a, c)
  {
    StrLeqTrans(a, b, c);
    if a == c { StrLeqAntisym(a, b); }
  }

  // ----- sections as packed lists of strings -----

  function Pack(strs: seq<Str>): (sec: seq<nat>)
  {
    if strs == [] then [] else Pack(strs[..|strs| - 1]) + strs[|strs| - 1] + [0]
  }

  /** Where the i-th string begins in the packed section. */
  function PackOff(strs: seq<Str>, i: nat): nat
    requires i <= |strs|
  {
    |Pack(strs[..i])|
  }

  lemma {:induction false} PackPrefix(strs: seq<Str>, i: nat)
    requires i <= |strs|
    ensures PackOff(strs, i) <= |Pack(strs)| && Pack(strs)[..PackOff(strs, i)] == Pack(strs[..i])
    decreases |strs|
  {
    if i < |strs| {
      var p := strs[..|strs| - 1];
      PackPrefix(p, i);
      assert p[..i] == strs[..i];
    } else {
      assert strs[..i] == strs;
    }
  }

  lemma PackStep(strs: seq<Str>, i: nat)
    requires i < |strs|
    ensures Pack(strs[..i + 1]) == Pack(strs[..i]) + strs[i] + [0]
    ensures PackOff(strs, i + 1) == PackOff(strs, i) + |strs[i]| + 1 <= |Pack(strs)|
  {
    assert strs[..i + 1][..i] == strs[..i];
    PackPrefix(strs, i + 1);
  }

  lemma PackSlice(strs: seq<Str>, i: nat)
    requires i < |strs|
    ensures PackOff(strs, i) + |strs[i]| < |Pack(strs)|
    ensures Pack(strs)[PackOff(strs, i)..PackOff(strs, i) + |strs[i]|] == strs[i]
    ensures Pack(strs)[PackOff(strs, i) + |strs[i]|] == 0
  {
    PackStep(strs, i);
    PackPrefix(strs, i + 1);
    var sec, off, n := Pack(strs), PackOff(strs, i), |strs[i]|;
    var pre := Pack(strs[..i + 1]);
    assert sec[..off + n + 1] == pre;
    assert sec[off..off + n] == sec[..off + n + 1][off..off + n] == pre[off..off + n];
    assert sec[off + n] == pre[off + n];
  }

  /** The i-th string can be read back at its offset. */
  lemma PackAt(strs: seq<Str>, i: nat)
    requires i < |strs| && 0 !in strs[i]
    ensures PackOff(strs, i) < |Pack(strs)| && StrAt(Pack(strs), PackOff(strs, i)) == strs[i]
    ensures IsStart(Pack(strs), PackOff(strs, i))
  {
    PackSlice(strs, i);
    ReadBack(Pack(strs), PackOff(strs, i), strs[i]);
    if i > 0 {
      PackSlice(strs, i - 1);
      PackStep(strs, i - 1);
    }
  }

  lemma {:induction false} ReadBack(sec: seq<nat>, off: nat, s: Str)
    requires off + |s| < |sec| && sec[off..off + |s|] == s && sec[off + |s|] == 0 && 0 !in s
    ensures StrAt(sec, off) == s
    decreases s
  {
    if s != [] {
      assert sec[off] == s[0];
      assert sec[off + 1..off + |s|] == s[1..];
      ReadBack(sec, off + 1, s[1..]);
    }
  }

  /** Every string of a packed section is one of those packed. */
  lemma {:induction false} PackStart(strs: seq<Str>, off: nat) returns (i: nat)
    requires forall k :: 0 <= k < |strs| ==> 0 !in strs[k]
    requires IsStart(Pack(strs), off)
    ensures i < |strs| && off == PackOff(strs, i)
    decreases |strs|
  {
    var n := |strs| - 1;
    var p := strs[..n];
    if off < |Pack(p)| {
      i := PackStart(p, off);
      assert p[..i] == strs[..i];
    } else {
      i := n;
      assert Pack(strs)[|Pack(p)|..] == strs[n] + [0];
    }
  }

  // ----- the index of strings -----

  datatype StrPtr = StrPtr(str: nat, newOff: nat, used: bool)

  function Text(sec: seq<nat>, p: StrPtr): Str { StrAt(sec, p.str) }

  ghost predicate Points(ptrs: seq<StrPtr>, off: nat) {
    exists x :: x in ptrs && x.str == off
  }

  /** The index points to exactly the strings of the section, one pointer each. */
  ghost predicate IndexOk(sec: seq<nat>, ptrs: seq<StrPtr>) {
    && (forall x :: x in ptrs ==> IsStart(sec, x.str))
    && (forall off: nat :: IsStart(sec, off) ==> Points(ptrs, off))
    && (forall x, y :: x in ptrs && y in ptrs && x.str == y.str ==> x == y)
  }

  ghost predicate SortedByOffset(ptrs: seq<StrPtr>) {
    forall i, j :: 0 <= i < j < |ptrs| ==> ptrs[i].str <= ptrs[j].str
  }

  ghost predicate StrictByOffset(ptrs: seq<StrPtr>) {
    forall i, j :: 0 <= i < j < |ptrs| ==> ptrs[i].str < ptrs[j].str
  }

  ghost predicate SortedByContent(sec: seq<nat>, ptrs: seq<StrPtr>) {
    forall i, j :: 0 <= i < j < |ptrs| ==> StrLeq(Text(sec, ptrs[i]), Text(sec, ptrs[j]))
  }

  /** Bytes the indexed strings take up, terminators included. */
  function Bytes(sec: seq<nat>, ptrs: seq<StrPtr>): nat {
    if ptrs == [] then 0 else Bytes(sec, ptrs[..|ptrs| - 1]) + |Text(sec, ptrs[|ptrs| - 1])| + 1
  }

  lemma {:induction false} BytesRemove(sec: seq<nat>, ptrs: seq<StrPtr>, i: nat)
    requires i < |ptrs|
    ensures Bytes(sec, ptrs) == Bytes(sec, ptrs[..i] + ptrs[i + 1..]) + |Text(sec, ptrs[i])| + 1
    decreases |ptrs|
  {
    var n := |ptrs| - 1;
    var rest := ptrs[..i] + ptrs[i + 1..];
    if i < n {
      BytesRemove(sec, ptrs[..n], i);
      assert rest[..n - 1] == ptrs[..n][..i] + ptrs[..n][i + 1..];
      assert rest[n - 1] == ptrs[n];
    } else {
      assert rest == ptrs[..n];
    }
  }

  lemma MultisetRemove(s: seq<StrPtr>, i: nat)
    requires i < |s|
    ensures multiset(s[..i] + s[i + 1..]) == multiset(s) - multiset{s[i]}
  {
    assert s == s[..i] + [s[i]] + s[i + 1..];
  }

  /** The space taken does not depend on the order of the index. */
  lemma {:induction false} BytesPermuted(sec: seq<nat>, ps: seq<StrPtr>, qs: seq<StrPtr>)
    requires multiset(ps) == multiset(qs)
    ensures Bytes(sec, ps) == Bytes(sec, qs)
    decreases |ps|
  {
    if ps == [] {
      assert |multiset(qs)| == 0;
    } else {
      var n := |ps| - 1;
      assert ps[n] in multiset(qs);
      var i :| 0 <= i < |qs| && qs[i] == ps[n];
      var rest := qs[..i] + qs[i + 1..];
      MultisetRemove(ps, n);
      MultisetRemove(qs, i);
      assert ps[..n] + ps[n + 1..] == ps[..n];
      BytesPermuted(sec, ps[..n], rest);
      BytesRemove(sec, qs, i);
    }
  }

  /** The strings that begin before `p` are indexed, in order, and `p` is where the next one begins. */
  ghost predicate IndexUpTo(sec: seq<nat>, ptrs: seq<StrPtr>, p: nat) {
    && p <= |sec| && (p < |sec| ==> IsStart(sec, p))
    && StrictByOffset(ptrs)
    && (forall k :: 0 <= k < |ptrs| ==> IsStart(sec, ptrs[k].str) && ptrs[k].str < p && !ptrs[k].used)
    && (forall off: nat :: IsStart(sec, off) && off < p ==> Points(ptrs, off))
    && Bytes(sec, ptrs) == p
  }

  lemma NextStart(sec: seq<nat>, p: nat, off: nat)
    requires SectionOk(sec) && IsStart(sec, p) && IsStart(sec, off)
    requires p <= off < p + |StrAt(sec, p)| + 1
    ensures off == p
  {
    StrAtEnds(sec, p);
  }

  lemma PointsStep(sec: seq<nat>, ptrs: seq<StrPtr>, p: nat, off: nat)
    requires SectionOk(sec) && IndexUpTo(sec, ptrs, p) && p < |sec|
    requires IsStart(sec, off) && off < p + |StrAt(sec, p)| + 1
    ensures Points(ptrs + [StrPtr(p, 0, false)], off)
  {
    var x := StrPtr(p, 0, false);
    var ps := ptrs + [x];
    if off < p {
      assert Points(ptrs, off);
      var y :| y in ptrs && y.str == off;
      assert y in ps;
    } else {
      NextStart(sec, p, off);
      assert x in ps;
    }
  }

  lemma IndexStep(sec: seq<nat>, ptrs: seq<StrPtr>, p: nat)
    requires SectionOk(sec) && IndexUpTo(sec, ptrs, p) && p < |sec|
    ensures IndexUpTo(sec, ptrs + [StrPtr(p, 0, false)], p + |StrAt(sec, p)| + 1)
  {
    StrAtEnds(sec, p);
    var x, next := StrPtr(p, 0, false), p + |StrAt(sec, p)| + 1;
    var ps := ptrs + [x];
    assert ps[..|ps| - 1] == ptrs;
    assert Bytes(sec, ps) == next;
    assert next < |sec| ==> IsStart(sec, next);
    hide SectionOk, IsStart, Bytes, Points, StrAt;
    forall off: nat | IsStart(sec, off) && off < next ensures Points(ps, off) {
      PointsStep(sec, ptrs, p, off);
    }
  }

  lemma IndexComplete(sec: seq<nat>, ptrs: seq<StrPtr>)
    requires SectionOk(sec) && IndexUpTo(sec, ptrs, |sec|)
    ensures IndexOk(sec, ptrs) && |ptrs| > 0 && ptrs[0].str == 0
  {
    assert IsStart(sec, 0) && Points(ptrs, 0);
    var x :| x in ptrs && x.str == 0;
    var k :| 0 <= k < |ptrs| && ptrs[k] == x;
    var first := ptrs[0];
    assert k == 0;
    forall x, y | x in ptrs && y in ptrs && x.str == y.str ensures x == y {
      var i :| 0 <= i < |ptrs| && ptrs[i] == x;
      var j :| 0 <= j < |ptrs| && ptrs[j] == y;
      assert !(i < j) && !(j < i);
    }
  }

  method BuildIndex(sec: seq<nat>) returns (ptrs: seq<StrPtr>)
    requires SectionOk(sec)
    ensures IndexOk(sec, ptrs) && StrictByOffset(ptrs)
    ensures |ptrs| > 0 && ptrs[0].str == 0 && forall k :: 0 <= k < |ptrs| ==> !ptrs[k].used
    ensures Bytes(sec, ptrs) == |sec|
  {
    ptrs := [];
    var p := 0;
    assert IndexUpTo(sec, ptrs, p);
    hide IndexUpTo, IndexOk, StrictByOffset, Bytes, SectionOk, IsStart;
    while p < |sec|
      invariant IndexUpTo(sec, ptrs, p)
    {
      IndexStep(sec, ptrs, p);
      ptrs := ptrs + [StrPtr(p, 0, false)];
      p := p + |StrAt(sec, p)| + 1;
    }
    IndexComplete(sec, ptrs);
  }

  /** Binary search by offset. */
  method FindPtr(ptrs: seq<StrPtr>, off: nat) returns (i: int)
    requires SortedByOffset(ptrs)
    ensures i >= 0 ==> i < |ptrs| && ptrs[i].str == off
    ensures i < 0 ==> forall x :: x in ptrs ==> x.str != off
  {
    var lo, hi := 0, |ptrs|;
    while lo < hi
      invariant 0 <= lo <= hi <= |ptrs|
      invariant forall k :: 0 <= k < lo ==> ptrs[k].str < off
      invariant forall k :: hi <= k < |ptrs| ==> off < ptrs[k].str
    {
      var mid := (lo + hi) / 2;
      if ptrs[mid].str < off {
        lo := mid + 1;
      } else if off < ptrs[mid].str {
        hi := mid;
      } else {
        return mid;
      }
    }
    return -1;
  }

  /** Same pointers, with other marks or new offsets. */
  ghost predicate SamePtrs(ps: seq<StrPtr>, qs: seq<StrPtr>) {
    |ps| == |qs| && forall k :: 0 <= k < |ps| ==> ps[k].str == qs[k].str
  }

  /** Every visited slot holds 0 or the offset of a string. */
  ghost predicate SlotsOk(sec: seq<nat>, slots: seq<nat>) {
    forall k :: 0 <= k < |slots| ==> slots[k] == 0 || IsStart(sec, slots[k])
  }

  /** Marks the first string and those a slot refers to. */
  method MarkUsed(sec: seq<nat>, ptrs: seq<StrPtr>, slots: seq<nat>) returns (r: int, ps: seq<StrPtr>)
    requires StrictByOffset(ptrs) && IndexOk(sec, ptrs) && |ptrs| > 0 && forall k :: 0 <= k < |ptrs| ==> !ptrs[k].used
    ensures r == 0 || r == EINVAL
    ensures r == 0 <==> SlotsOk(sec, slots)
    ensures SamePtrs(ptrs, ps)
    ensures r == 0 ==> forall k :: 0 <= k < |ps| ==> (ps[k].used <==> k == 0 || (ps[k].str != 0 && ps[k].str in slots))
  {
    ps := ptrs[0 := ptrs[0].(used := true)];
    var j := 0;
    while j < |slots|
      invariant 0 <= j <= |slots| && SamePtrs(ptrs, ps)
      invariant SlotsOk(sec, slots[..j])
      invariant forall k :: 0 <= k < |ps| ==> (ps[k].used <==> k == 0 || (ps[k].str != 0 && ps[k].str in slots[..j]))
    {
      assert slots[..j + 1] == slots[..j] + [slots[j]];
      if slots[j] != 0 {
        var i := FindPtr(ps, slots[j]);
        PointsAt(sec, ptrs, ps, slots[j]);
        if i < 0 {
          assert slots[j] in slots;
          return EINVAL, ps;
        }
        assert ps[i] in ps;
        ps := ps[i := ps[i].(used := true)];
      }
      j := j + 1;
    }
    assert slots[..j] == slots;
    return 0, ps;
  }

  /** An offset is found in the index exactly when a string begins there. */
  lemma PointsAt(sec: seq<nat>, ptrs: seq<StrPtr>, ps: seq<StrPtr>, off: nat)
    requires IndexOk(sec, ptrs) && SamePtrs(ptrs, ps)
    ensures (exists x :: x in ps && x.str == off) <==> IsStart(sec, off)
  {
    if IsStart(sec, off) {
      assert Points(ptrs, off);
      var x :| x in ptrs && x.str == off;
      var k :| 0 <= k < |ptrs| && ptrs[k] == x;
      assert ps[k] in ps;
    }
    if x :| x in ps && x.str == off {
      var k :| 0 <= k < |ps| && ps[k] == x;
      assert ptrs[k] in ptrs;
    }
  }

  // ----- qsort -----

  ghost predicate SortedBy(qs: seq<StrPtr>, leq: (StrPtr, StrPtr) -> bool) {
    forall i, j :: 0 <= i < j < |qs| ==> leq(qs[i], qs[j])
  }

  ghost predicate TotalOrder(leq: (StrPtr, StrPtr) -> bool) {
    (forall a, b :: leq(a, b) || leq(b, a)) && (forall a, b, c :: leq(a, b) && leq(b, c) ==> leq(a, c))
  }

  /** Any sort: a permutation ordered by the comparison. */
  method Sort(ps: seq<StrPtr>, leq: (StrPtr, StrPtr) -> bool) returns (qs: seq<StrPtr>)
    requires TotalOrder(leq)
    ensures multiset(qs) == multiset(ps) && SortedBy(qs, leq)
  {
    qs := [];
    var n := 0;
    while n < |ps|
      invariant 0 <= n <= |ps| && multiset(qs) == multiset(ps[..n]) && SortedBy(qs, leq)
    {
      hide SortedBy, TotalOrder;
      assert ps[..n + 1] == ps[..n] + [ps[n]];
      qs := InsertSorted(qs, ps[n], leq);
      n := n + 1;
    }
    assert ps[..n] == ps;
  }

  method InsertSorted(qs: seq<StrPtr>, x: StrPtr, leq: (StrPtr, StrPtr) -> bool) returns (rs: seq<StrPtr>)
    requires TotalOrder(leq) && SortedBy(qs, leq)
    ensures multiset(rs) == multiset(qs) + multiset{x} && SortedBy(rs, leq)
  {
    var k := 0;
    while k < |qs| && leq(qs[k], x)
      invariant 0 <= k <= |qs| && forall i :: 0 <= i < k ==> leq(qs[i], x)
    {
      k := k + 1;
    }
    rs := qs[..k] + [x] + qs[k..];
    assert qs == qs[..k] + qs[k..];
    InsertedSorted(qs, k, x, leq);
  }

  lemma InsertedSorted(qs: seq<StrPtr>, k: nat, x: StrPtr, leq: (StrPtr, StrPtr) -> bool)
    requires TotalOrder(leq) && SortedBy(qs, leq) && k <= |qs|
    requires (forall i :: 0 <= i < k ==> leq(qs[i], x)) && (k < |qs| ==> !leq(qs[k], x))
    ensures SortedBy(qs[..k] + [x] + qs[k..], leq)
  {
    var rs := qs[..k] + [x] + qs[k..];
    assert forall i :: k <= i < |qs| ==> leq(x, qs[i]);
    forall i, j | 0 <= i < j < |rs| ensures leq(rs[i], rs[j]) {
      assert rs[i] == if i < k then qs[i] else if i == k then x else qs[i - 1];
      assert rs[j] == if j < k then qs[j] else if j == k then x else qs[j - 1];
    }
  }

  lemma SameMembers(ps: seq<StrPtr>, qs: seq<StrPtr>)
    requires multiset(ps) == multiset(qs)
    ensures |ps| == |qs| && forall x :: x in ps <==> x in qs
  {
    assert |ps| == |multiset(ps)| == |multiset(qs)| == |qs|;
    assert forall x :: x in ps <==> x in multiset(ps);
    assert forall x :: x in qs <==> x in multiset(qs);
  }

  // ----- emitting one copy per group of equal strings -----

  /** Some pointer to a string with this text is marked as used. */
  ghost predicate UsedText(sec: seq<nat>, ps: seq<StrPtr>, s: Str) {
    exists i :: 0 <= i < |ps| && ps[i].used && Text(sec, ps[i]) == s
  }

  ghost predicate Increasing(strs: seq<Str>) {
    forall i, j :: 0 <= i < j < |strs| ==> StrLess(strs[i], strs[j])
  }

  ghost predicate Placed(sec: seq<nat>, p: StrPtr, strs: seq<Str>) {
    exists j :: 0 <= j < |strs| && strs[j] == Text(sec, p) && p.newOff == PackOff(strs, j)
  }

  ghost predicate SameMarks(ps: seq<StrPtr>, qs: seq<StrPtr>) {
    |ps| == |qs| && forall k :: 0 <= k < |ps| ==> ps[k].str == qs[k].str && ps[k].used == qs[k].used
  }

  /** The first `fin` pointers are dealt with: used texts are emitted once, in order, and nothing else is. */
  ghost predicate Emitted(sec: seq<nat>, ps0: seq<StrPtr>, ps: seq<StrPtr>, strs: seq<Str>, fin: nat) {
    && SameMarks(ps0, ps) && fin <= |ps|
    && (forall k :: 0 <= k < fin && UsedText(sec, ps0, Text(sec, ps0[k])) ==> Placed(sec, ps[k], strs))
    && Increasing(strs)
    && (forall j :: 0 <= j < |strs| ==> 0 !in strs[j] && UsedText(sec, ps0[..fin], strs[j]))
    && |Pack(strs)| <= Bytes(sec, ps0[..fin])
  }

  /** Pointers grp to i - 1 are one whole group of equal strings. */
  ghost predicate WholeGroup(sec: seq<nat>, ps: seq<StrPtr>, grp: nat, i: nat) {
    && grp < i <= |ps|
    && (forall k :: grp <= k < i ==> Text(sec, ps[k]) == Text(sec, ps[grp]))
    && (forall k :: 0 <= k < grp ==> StrLess(Text(sec, ps[k]), Text(sec, ps[grp])))
    && (i < |ps| ==> Text(sec, ps[i]) != Text(sec, ps[grp]))
  }

  lemma OnlyInGroup(sec: seq<nat>, ps: seq<StrPtr>, grp: nat, i: nat, k: nat)
    requires SortedByContent(sec, ps) && WholeGroup(sec, ps, grp, i)
    requires k < |ps| && Text(sec, ps[k]) == Text(sec, ps[grp])
    ensures grp <= k < i
  {
    if k >= i {
      assert StrLeq(Text(sec, ps[grp]), Text(sec, ps[i]));
      if k > i { assert StrLeq(Text(sec, ps[i]), Text(sec, ps[k])); }
      if k > i { StrLeqAntisym(Text(sec, ps[grp]), Text(sec, ps[i])); }
    }
  }

  lemma {:induction false} BytesMonotone(sec: seq<nat>, ps: seq<StrPtr>, a: nat, b: nat)
    requires a <= b <= |ps|
    ensures Bytes(sec, ps[..a]) <= Bytes(sec, ps[..b])
    decreases b
  {
    if a < b {
      assert ps[..b][..b - 1] == ps[..b - 1];
      BytesMonotone(sec, ps, a, b - 1);
    }
  }

  lemma PlacedMore(sec: seq<nat>, p: StrPtr, strs: seq<Str>, s: Str)
    requires Placed(sec, p, strs)
    ensures Placed(sec, p, strs + [s])
  {
    var j :| 0 <= j < |strs| && strs[j] == Text(sec, p) && p.newOff == PackOff(strs, j);
    assert (strs + [s])[..j] == strs[..j];
    assert (strs + [s])[j] == Text(sec, p) && p.newOff == PackOff(strs + [s], j);
  }

  lemma UsedMore(sec: seq<nat>, ps: seq<StrPtr>, a: nat, b: nat, s: Str)
    requires a <= b <= |ps| && UsedText(sec, ps[..a], s)
    ensures UsedText(sec, ps[..b], s)
  {
    var k :| 0 <= k < a && ps[..a][k].used && Text(sec, ps[..a][k]) == s;
    assert ps[..b][k] == ps[..a][k];
  }

  /** A group without a used pointer needs no string. */
  lemma SkipGroup(sec: seq<nat>, ps0: seq<StrPtr>, ps: seq<StrPtr>, strs: seq<Str>, grp: nat, i: nat)
    requires SortedByContent(sec, ps0) && WholeGroup(sec, ps0, grp, i) && Emitted(sec, ps0, ps, strs, grp)
    requires forall k :: grp <= k < i ==> !ps0[k].used
    ensures Emitted(sec, ps0, ps, strs, i)
  {
    BytesMonotone(sec, ps0, grp, i);
    forall k | 0 <= k < i && UsedText(sec, ps0, Text(sec, ps0[k])) ensures Placed(sec, ps[k], strs) {
      if k >= grp {
        var u :| 0 <= u < |ps0| && ps0[u].used && Text(sec, ps0[u]) == Text(sec, ps0[k]);
        OnlyInGroup(sec, ps0, grp, i, u);
      }
    }
    forall j | 0 <= j < |strs| ensures UsedText(sec, ps0[..i], strs[j]) { UsedMore(sec, ps0, grp, i, strs[j]); }
  }

  /** Marks the new offset of every pointer of a group. */
  method SetOffsets(ps: seq<StrPtr>, grp: nat, i: nat, off: nat) returns (qs: seq<StrPtr>)
    requires grp <= i <= |ps|
    ensures |qs| == |ps|
    ensures forall k :: 0 <= k < |ps| ==> qs[k] == if grp <= k < i then ps[k].(newOff := off) else ps[k]
  {
    qs := ps;
    var j := grp;
    while j < i
      invariant grp <= j <= i && |qs| == |ps|
      invariant forall k :: 0 <= k < |ps| ==> qs[k] == if grp <= k < j then ps[k].(newOff := off) else ps[k]
    {
      qs := qs[j := qs[j].(newOff := off)];
      j := j + 1;
    }
  }

  /** A used group is emitted once, and all its pointers get the new offset. */
  lemma EmitGroup(sec: seq<nat>, ps0: seq<StrPtr>, ps: seq<StrPtr>, qs: seq<StrPtr>, strs: seq<Str>, grp: nat, i: nat)
    requires SortedByContent(sec, ps0) && WholeGroup(sec, ps0, grp, i) && Emitted(sec, ps0, ps, strs, grp)
    requires exists k :: grp <= k < i && ps0[k].used
    requires |qs| == |ps| && forall k :: 0 <= k < |ps| ==>
               qs[k] == if grp <= k < i then ps[k].(newOff := |Pack(strs)|) else ps[k]
    ensures Emitted(sec, ps0, qs, strs + [Text(sec, ps0[grp])], i)
  {
    hide SortedByContent, WholeGroup, UsedText, Placed, Increasing, Text, Pack, Bytes;
    EmitSize(sec, ps0, strs, grp, i);
    EmitPlaced(sec, ps0, ps, qs, strs, grp, i);
    EmitIncreasing(sec, ps0, strs, grp, i);
    EmitUsed(sec, ps0, ps, strs, grp, i);
  }

  lemma EmitSize(sec: seq<nat>, ps: seq<StrPtr>, strs: seq<Str>, grp: nat, i: nat)
    requires WholeGroup(sec, ps, grp, i) && |Pack(strs)| <= Bytes(sec, ps[..grp])
    ensures grp < i <= |ps| && 0 !in Text(sec, ps[grp])
    ensures |Pack(strs + [Text(sec, ps[grp])])| <= Bytes(sec, ps[..i])
  {
    var s := Text(sec, ps[grp]);
    var strs' := strs + [s];
    assert strs'[..|strs'| - 1] == strs;
    assert ps[..grp + 1][..grp] == ps[..grp];
    BytesMonotone(sec, ps, grp + 1, i);
  }

  lemma EmitPlaced(sec: seq<nat>, ps0: seq<StrPtr>, ps: seq<StrPtr>, qs: seq<StrPtr>, strs: seq<Str>, grp: nat, i: nat)
    requires WholeGroup(sec, ps0, grp, i) && Emitted(sec, ps0, ps, strs, grp)
    requires |qs| == |ps| && forall k :: 0 <= k < |ps| ==>
               qs[k] == if grp <= k < i then ps[k].(newOff := |Pack(strs)|) else ps[k]
    ensures forall k :: 0 <= k < i && UsedText(sec, ps0, Text(sec, ps0[k])) ==> Placed(sec, qs[k], strs + [Text(sec, ps0[grp])])
  {
    var s := Text(sec, ps0[grp]);
    var strs' := strs + [s];
    assert strs'[..|strs|] == strs && strs'[|strs|] == s;
    forall k | 0 <= k < i && UsedText(sec, ps0, Text(sec, ps0[k])) ensures Placed(sec, qs[k], strs') {
      if k < grp {
        PlacedMore(sec, ps[k], strs, s);
      } else {
        assert strs'[|strs|] == Text(sec, qs[k]) && qs[k].newOff == PackOff(strs', |strs|);
      }
    }
  }

  lemma EmitUsed(sec: seq<nat>, ps0: seq<StrPtr>, ps: seq<StrPtr>, strs: seq<Str>, grp: nat, i: nat)
    requires WholeGroup(sec, ps0, grp, i) && Emitted(sec, ps0, ps, strs, grp) && exists k :: grp <= k < i && ps0[k].used
    ensures var strs' := strs + [Text(sec, ps0[grp])]; forall j :: 0 <= j < |strs'| ==> UsedText(sec, ps0[..i], strs'[j])
  {
    var strs' := strs + [Text(sec, ps0[grp])];
    forall j | 0 <= j < |strs'| ensures UsedText(sec, ps0[..i], strs'[j]) {
      if j < |strs| {
        UsedMore(sec, ps0, grp, i, strs[j]);
      } else {
        var k :| grp <= k < i && ps0[k].used;
        assert ps0[..i][k] == ps0[k];
      }
    }
  }

  lemma EmitIncreasing(sec: seq<nat>, ps: seq<StrPtr>, strs: seq<Str>, grp: nat, i: nat)
    requires WholeGroup(sec, ps, grp, i) && Increasing(strs)
    requires forall j :: 0 <= j < |strs| ==> UsedText(sec, ps[..grp], strs[j])
    ensures Increasing(strs + [Text(sec, ps[grp])])
  {
    forall j | 0 <= j < |strs| ensures StrLess(strs[j], Text(sec, ps[grp])) {
      assert UsedText(sec, ps[..grp], strs[j]);
      var k :| 0 <= k < grp && ps[..grp][k].used && Text(sec, ps[..grp][k]) == strs[j];
      assert ps[..grp][k] == ps[k];
    }
  }

  /** Pointers grp to i - 1 belong to one group, which may go on. */
  ghost predicate OpenGroup(sec: seq<nat>, ps: seq<StrPtr>, grp: nat, i: nat) {
    && grp < i <= |ps|
    && (forall k :: grp <= k < i ==> Text(sec, ps[k]) == Text(sec, ps[grp]))
    && (forall k :: 0 <= k < grp ==> StrLess(Text(sec, ps[k]), Text(sec, ps[grp])))
  }

  lemma NextGroup(sec: seq<nat>, ps: seq<StrPtr>, grp: nat, i: nat)
    requires SortedByContent(sec, ps) && WholeGroup(sec, ps, grp, i) && i < |ps|
    ensures OpenGroup(sec, ps, i, i + 1)
  {
    assert StrLeq(Text(sec, ps[grp]), Text(sec, ps[i]));
    forall k | 0 <= k < i ensures StrLess(Text(sec, ps[k]), Text(sec, ps[i])) {
      if k < grp { StrLessTrans(Text(sec, ps[k]), Text(sec, ps[grp]), Text(sec, ps[i])); }
    }
  }

  lemma EmittedStart(sec: seq<nat>, ps: seq<StrPtr>)
    requires |ps| > 0
    ensures Emitted(sec, ps, ps, [], 0) && OpenGroup(sec, ps, 0, 1)
    ensures ps[0].used <==> exists k :: 0 <= k < 1 && ps[k].used
  {
    assert ps[..0] == [];
  }

  lemma EmittedMarks(sec: seq<nat>, ps0: seq<StrPtr>, ps: seq<StrPtr>, strs: seq<Str>, fin: nat, k: nat)
    requires Emitted(sec, ps0, ps, strs, fin) && k < |ps0|
    ensures |ps| == |ps0| && ps[k].str == ps0[k].str && ps[k].used == ps0[k].used
  {
  }

  /** Emits the group grp to i - 1 if it is used. */
  method CloseGroup(sec: seq<nat>, ghost ps0: seq<StrPtr>, ps: seq<StrPtr>, tmp: seq<nat>, ghost strs: seq<Str>,
                    grp: nat, i: nat, grpUsed: bool)
    returns (qs: seq<StrPtr>, tmp': seq<nat>, ghost strs': seq<Str>)
    requires SortedByContent(sec, ps0) && WholeGroup(sec, ps0, grp, i) && Emitted(sec, ps0, ps, strs, grp) && tmp == Pack(strs)
    requires grpUsed <==> exists k :: grp <= k < i && ps0[k].used
    ensures Emitted(sec, ps0, qs, strs', i) && tmp' == Pack(strs')
  {
    hide Emitted, SortedByContent;
    EmittedMarks(sec, ps0, ps, strs, grp, grp);
    if grpUsed {
      qs := SetOffsets(ps, grp, i, |tmp|);
      EmitGroup(sec, ps0, ps, qs, strs, grp, i);
      strs' := strs + [Text(sec, ps0[grp])];
      assert strs'[..|strs'| - 1] == strs;
      tmp' := tmp + StrAt(sec, ps[grp].str) + [0];
    } else {
      SkipGroup(sec, ps0, ps, strs, grp, i);
      qs, tmp', strs' := ps, tmp, strs;
    }
  }

  /**
   Walks the sorted index, group by group, and writes one copy of each used string.
   The loop runs one step past the end to close the last group.
   */
  method EmitStrings(sec: seq<nat>, ps0: seq<StrPtr>) returns (ps: seq<StrPtr>, tmp: seq<nat>, ghost strs: seq<Str>)
    requires |ps0| > 0 && SortedByContent(sec, ps0)
    ensures Emitted(sec, ps0, ps, strs, |ps0|) && tmp == Pack(strs)
  {
    hide Emitted, SortedByContent;
    ps, tmp, strs := ps0, [], [];
    var grp, grpUsed := 0, ps0[0].used;
    var i := 1;
    EmittedStart(sec, ps0);
    while i <= |ps0|
      invariant 1 <= i <= |ps0| + 1 && tmp == Pack(strs)
      invariant i <= |ps0| ==> OpenGroup(sec, ps0, grp, i) && Emitted(sec, ps0, ps, strs, grp)
      invariant i <= |ps0| ==> (grpUsed <==> exists k :: grp <= k < i && ps0[k].used)
      invariant i > |ps0| ==> Emitted(sec, ps0, ps, strs, |ps0|)
    {
      EmittedMarks(sec, ps0, ps, strs, grp, grp);
      if i < |ps0| { EmittedMarks(sec, ps0, ps, strs, grp, i); }
      if i < |ps0| && StrAt(sec, ps[i].str) == StrAt(sec, ps[grp].str) {
        grpUsed := grpUsed || ps[i].used;
      } else {
        ps, tmp, strs := CloseGroup(sec, ps0, ps, tmp, strs, grp, i, grpUsed);
        if i < |ps0| {
          NextGroup(sec, ps0, grp, i);
          EmittedMarks(sec, ps0, ps, strs, i, i);
          grp := i;
          grpUsed := ps[i].used;
        }
      }
      i := i + 1;
    }
  }

  // ----- rewriting the slots -----

  /** Every pointer to a used text has its new offset. */
  ghost predicate OffsetsOk(sec: seq<nat>, ps: seq<StrPtr>, out: seq<nat>) {
    forall x :: x in ps && UsedText(sec, ps, Text(sec, x)) ==>
      IsStart(out, x.newOff) && StrAt(out, x.newOff) == Text(sec, x)
  }

  method RemapSlots(sec: seq<nat>, ps: seq<StrPtr>, out: seq<nat>, slots: seq<nat>) returns (r: int, res: seq<nat>)
    requires SortedByOffset(ps) && OffsetsOk(sec, ps, out) && StrAt(out, 0) == [] && StrAt(sec, 0) == []
    requires forall k :: 0 <= k < |slots| && slots[k] != 0 ==> exists x :: x in ps && x.used && x.str == slots[k]
    ensures r == 0 && |res| == |slots|
    ensures forall k :: 0 <= k < |slots| ==> StrAt(out, res[k]) == StrAt(sec, slots[k]) && (slots[k] == 0 ==> res[k] == 0)
    ensures forall k :: 0 <= k < |slots| ==> res[k] == 0 || IsStart(out, res[k])
  {
    hide OffsetsOk, SortedByOffset, StrAt, IsStart;
    res := [];
    var j := 0;
    while j < |slots|
      invariant 0 <= j <= |slots| && |res| == j
      invariant forall k :: 0 <= k < j ==> StrAt(out, res[k]) == StrAt(sec, slots[k]) && (slots[k] == 0 ==> res[k] == 0)
      invariant forall k :: 0 <= k < j ==> res[k] == 0 || IsStart(out, res[k])
    {
      var off;
      r, off := RemapSlot(sec, ps, out, slots[j]);
      if r != 0 { return; }
      res := res + [off];
      j := j + 1;
    }
    r := 0;
  }

  method RemapSlot(sec: seq<nat>, ps: seq<StrPtr>, out: seq<nat>, slot: nat) returns (r: int, off: nat)
    requires SortedByOffset(ps) && OffsetsOk(sec, ps, out) && StrAt(out, 0) == [] && StrAt(sec, 0) == []
    requires slot != 0 ==> exists x :: x in ps && x.used && x.str == slot
    ensures r == 0 && StrAt(out, off) == StrAt(sec, slot) && (slot == 0 ==> off == 0) && (off == 0 || IsStart(out, off))
  {
    r, off := 0, 0;
    if slot == 0 { return; }
    var i := FindPtr(ps, slot);
    if i < 0 {
      r := EINVAL;
      return;
    }
    assert ps[i] in ps;
    ghost var x :| x in ps && x.used && x.str == slot;
    ghost var u :| 0 <= u < |ps| && ps[u] == x;
    assert UsedText(sec, ps, Text(sec, ps[i]));
    off := ps[i].newOff;
  }

  // ----- the whole pass -----

  /** No two strings of the section are equal. */
  ghost predicate NoEqualStrings(sec: seq<nat>) {
    forall p: nat, q: nat :: IsStart(sec, p) && IsStart(sec, q) && StrAt(sec, p) == StrAt(sec, q) ==> p == q
  }

  /** The strings of the section stand in strcmp order. */
  ghost predicate Ascending(sec: seq<nat>) {
    forall p: nat, q: nat :: p < q && IsStart(sec, p) && IsStart(sec, q) ==> StrLess(StrAt(sec, p), StrAt(sec, q))
  }

  /** Every string of the section is the empty one or one a slot denoted in the old section. */
  ghost predicate OnlyReferenced(sec: seq<nat>, old_: seq<nat>, slots: seq<nat>) {
    forall p: nat :: IsStart(sec, p) ==>
      StrAt(sec, p) == [] || exists k :: 0 <= k < |slots| && StrAt(old_, slots[k]) == StrAt(sec, p)
  }

  lemma PackOrder(strs: seq<Str>, i: nat, j: nat)
    requires i <= j <= |strs|
    ensures PackOff(strs, i) <= PackOff(strs, j)
  {
    PackPrefix(strs[..j], i);
    assert strs[..j][..i] == strs[..i];
  }

  lemma PackedDistinct(strs: seq<Str>)
    requires Increasing(strs) && forall j :: 0 <= j < |strs| ==> 0 !in strs[j]
    ensures NoEqualStrings(Pack(strs)) && Ascending(Pack(strs))
  {
    var sec := Pack(strs);
    forall p: nat, q: nat | p < q && IsStart(sec, p) && IsStart(sec, q) ensures StrLess(StrAt(sec, p), StrAt(sec, q)) {
      var i := PackStart(strs, p);
      var j := PackStart(strs, q);
      PackAt(strs, i);
      PackAt(strs, j);
      if j <= i { PackOrder(strs, j, i); }
    }
    forall p: nat, q: nat | IsStart(sec, p) && IsStart(sec, q) && StrAt(sec, p) == StrAt(sec, q) ensures p == q {
      var i := PackStart(strs, p);
      var j := PackStart(strs, q);
      PackAt(strs, i);
      PackAt(strs, j);
      assert !(i < j) && !(j < i);
    }
  }

  /** The empty string sorts first, so it stays at offset 0. */
  lemma EmptyFirst(sec: seq<nat>, ps0: seq<StrPtr>, ps: seq<StrPtr>, strs: seq<Str>)
    requires Emitted(sec, ps0, ps, strs, |ps0|) && UsedText(sec, ps0, [])
    ensures |strs| > 0 && strs[0] == [] && SectionOk(Pack(strs)) && StrAt(Pack(strs), 0) == []
  {
    var u :| 0 <= u < |ps0| && ps0[u].used && Text(sec, ps0[u]) == [];
    assert Placed(sec, ps[u], strs);
    var j :| 0 <= j < |strs| && strs[j] == [];
    assert j > 0 ==> StrLess(strs[0], strs[j]);
    assert strs[..0] == [];
    PackAt(strs, 0);
    PackSlice(strs, |strs| - 1);
    PackStep(strs, |strs| - 1);
    assert strs[..|strs|] == strs;
    PackSlice(strs, 0);
  }

  lemma OffsetsPlaced(sec: seq<nat>, ps0: seq<StrPtr>, ps: seq<StrPtr>, strs: seq<Str>, qs: seq<StrPtr>)
    requires Emitted(sec, ps0, ps, strs, |ps0|) && multiset(qs) == multiset(ps)
    ensures OffsetsOk(sec, qs, Pack(strs))
  {
    SameMembers(ps, qs);
    forall x | x in qs && UsedText(sec, qs, Text(sec, x))
      ensures IsStart(Pack(strs), x.newOff) && StrAt(Pack(strs), x.newOff) == Text(sec, x)
    {
      var u :| 0 <= u < |qs| && qs[u].used && Text(sec, qs[u]) == Text(sec, x);
      assert qs[u] in ps && x in ps;
      var v :| 0 <= v < |ps| && ps[v] == qs[u];
      var k :| 0 <= k < |ps| && ps[k] == x;
      assert ps0[v].used && Text(sec, ps0[v]) == Text(sec, ps0[k]);
      assert UsedText(sec, ps0, Text(sec, ps0[k]));
      var j :| 0 <= j < |strs| && strs[j] == Text(sec, x) && x.newOff == PackOff(strs, j);
      PackAt(strs, j);
    }
  }

  lemma EmittedReferenced(sec: seq<nat>, ps0: seq<StrPtr>, ps: seq<StrPtr>, strs: seq<Str>, slots: seq<nat>)
    requires Emitted(sec, ps0, ps, strs, |ps0|) && StrAt(sec, 0) == []
    requires forall x :: x in ps0 && x.used ==> x.str == 0 || x.str in slots
    ensures OnlyReferenced(Pack(strs), sec, slots)
  {
    forall p: nat | IsStart(Pack(strs), p)
      ensures StrAt(Pack(strs), p) == [] || exists k :: 0 <= k < |slots| && StrAt(sec, slots[k]) == StrAt(Pack(strs), p)
    {
      var i := PackStart(strs, p);
      PackAt(strs, i);
      assert ps0[..|ps0|] == ps0;
      var u :| 0 <= u < |ps0| && ps0[u].used && Text(sec, ps0[u]) == strs[i];
      assert ps0[u] in ps0;
    }
  }

  /** After sorting and emitting, each nonzero slot is still found, marked as used. */
  lemma SlotsFound(sec: seq<nat>, marked: seq<StrPtr>, ps0: seq<StrPtr>, ps: seq<StrPtr>, qs: seq<StrPtr>, off: nat)
    requires multiset(ps0) == multiset(marked) && SameMarks(ps0, ps) && multiset(qs) == multiset(ps)
    requires exists x :: x in marked && x.used && x.str == off
    ensures exists x :: x in qs && x.used && x.str == off
  {
    SameMembers(marked, ps0);
    SameMembers(ps, qs);
    var x :| x in marked && x.used && x.str == off;
    var k :| 0 <= k < |ps0| && ps0[k] == x;
    assert ps[k] in qs;
  }

  method SortContent(sec: seq<nat>, ps: seq<StrPtr>) returns (qs: seq<StrPtr>)
    ensures multiset(qs) == multiset(ps) && SortedByContent(sec, qs)
  {
    forall a, b ensures StrLeq(Text(sec, a), Text(sec, b)) || StrLeq(Text(sec, b), Text(sec, a)) {
      StrLeqTotal(Text(sec, a), Text(sec, b));
    }
    forall a, b, c | StrLeq(Text(sec, a), Text(sec, b)) && StrLeq(Text(sec, b), Text(sec, c))
      ensures StrLeq(Text(sec, a), Text(sec, c))
    {
      StrLeqTrans(Text(sec, a), Text(sec, b), Text(sec, c));
    }
    qs := Sort(ps, (a, b) => StrLeq(Text(sec, a), Text(sec, b)));
  }

  method SortOffset(ps: seq<StrPtr>) returns (qs: seq<StrPtr>)
    ensures multiset(qs) == multiset(ps) && SortedByOffset(qs)
  {
    qs := Sort(ps, (a: StrPtr, b: StrPtr) => a.str <= b.str);
  }

  lemma {:induction false} BytesSame(sec: seq<nat>, ps: seq<StrPtr>, qs: seq<StrPtr>)
    requires SamePtrs(ps, qs)
    ensures Bytes(sec, ps) == Bytes(sec, qs)
    decreases |ps|
  {
    if ps != [] { BytesSame(sec, ps[..|ps| - 1], qs[..|qs| - 1]); }
  }

  ghost predicate Marked(sec: seq<nat>, ptrs: seq<StrPtr>, marked: seq<StrPtr>, slots: seq<nat>) {
    && SamePtrs(ptrs, marked) && |ptrs| > 0 && ptrs[0].str == 0
    && SlotsOk(sec, slots)
    && forall k :: 0 <= k < |marked| ==> (marked[k].used <==> k == 0 || (marked[k].str != 0 && marked[k].str in slots))
  }

  lemma SlotMarked(sec: seq<nat>, ptrs: seq<StrPtr>, marked: seq<StrPtr>, slots: seq<nat>, k: nat)
    requires IndexOk(sec, ptrs) && Marked(sec, ptrs, marked, slots) && k < |slots| && slots[k] != 0
    ensures exists x :: x in marked && x.used && x.str == slots[k]
  {
    PointsAt(sec, ptrs, marked, slots[k]);
    var x :| x in marked && x.str == slots[k];
  }

  /** The steps together: the new section and index are ready for the slots to be rewritten. */
  lemma StringsDone(sec: seq<nat>, ptrs: seq<StrPtr>, marked: seq<StrPtr>, sorted: seq<StrPtr>, ps: seq<StrPtr>,
                    strs: seq<Str>, qs: seq<StrPtr>, slots: seq<nat>)
    requires SectionOk(sec) && IndexOk(sec, ptrs) && Bytes(sec, ptrs) == |sec|
    requires Marked(sec, ptrs, marked, slots)
    requires multiset(sorted) == multiset(marked) && Emitted(sec, sorted, ps, strs, |sorted|) && multiset(qs) == multiset(ps)
    ensures OffsetsOk(sec, qs, Pack(strs)) && SectionOk(Pack(strs)) && StrAt(Pack(strs), 0) == [] && StrAt(sec, 0) == []
    ensures forall k :: 0 <= k < |slots| && slots[k] != 0 ==> exists x :: x in qs && x.used && x.str == slots[k]
    ensures NoEqualStrings(Pack(strs)) && Ascending(Pack(strs)) && OnlyReferenced(Pack(strs), sec, slots) && |Pack(strs)| <= |sec|
  {
    SameMembers(sorted, marked);
    assert marked[0] in sorted;
    var u :| 0 <= u < |sorted| && sorted[u] == marked[0];
    assert Text(sec, sorted[u]) == [];
    EmptyFirst(sec, sorted, ps, strs);
    OffsetsPlaced(sec, sorted, ps, strs, qs);
    forall k | 0 <= k < |slots| && slots[k] != 0 ensures exists x :: x in qs && x.used && x.str == slots[k] {
      SlotMarked(sec, ptrs, marked, slots, k);
      SlotsFound(sec, marked, sorted, ps, qs, slots[k]);
    }
    PackedDistinct(strs);
    EmittedReferenced(sec, sorted, ps, strs, slots);
    assert sorted[..|sorted|] == sorted;
    BytesPermuted(sec, sorted, marked);
    BytesSame(sec, ptrs, marked);
  }

  class StringSection {
    var section: seq<nat>
    var slots: seq<nat>    // the name offsets btf_for_each_str_off visits, in order

    constructor (section: seq<nat>, slots: seq<nat>)
      ensures this.section == section && this.slots == slots
    {
      this.section, this.slots := section, slots;
    }

    /**
     Rewrites section and slots. It fails exactly when some slot is not the offset of a string,
     and then changes nothing. On success every slot denotes the string it denoted before,
     offset 0 still is the empty string, the strings stand in strcmp order and none occurs twice, only the
     empty string and strings denoted by a slot remain, and the section did not grow.
     */
    method DedupStrings() returns (r: int)
      requires SectionOk(section)
      modifies this
      ensures r == 0 || r == EINVAL
      ensures r == 0 <==> SlotsOk(old(section), old(slots))
      ensures r != 0 ==> section == old(section) && slots == old(slots)
      ensures |slots| == |old(slots)| && SectionOk(section)
      ensures forall k :: 0 <= k < |slots| ==> StrAt(section, slots[k]) == StrAt(old(section), old(slots)[k])
      ensures r == 0 ==> SlotsOk(section, slots) && NoEqualStrings(section) && Ascending(section)
      ensures r == 0 ==> OnlyReferenced(section, old(section), old(slots))
      ensures |section| <= |old(section)|
    {
      var sec := section;
      var ptrs := BuildIndex(sec);
      var marked;
      r, marked := MarkUsed(sec, ptrs, slots);
      if r < 0 { return; }
      var sorted := SortContent(sec, marked);
      var ps, tmp;
      ghost var strs;
      ps, tmp, strs := EmitStrings(sec, sorted);
      var qs := SortOffset(ps);
      StringsDone(sec, ptrs, marked, sorted, ps, strs, qs, slots);
      var res;
      r, res := RemapSlots(sec, qs, tmp, slots);
      section, slots := tmp, res;
    }
  }
}
