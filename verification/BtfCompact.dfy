/**
 Type compaction on the bytes of the BTF data section (btf_dedup_compact_types): canonical
 records are moved down over the others in one pass, the index of record positions is
 rewritten in the same array it is read from, and the string section is moved up behind.
 */
module BtfCompact {
  import opened Machine
  import opened BtfGraph
  import opened BtfStages
  import opened BtfForest

  /** Size of the record at `off`, from its header; bytes are little-endian. */
  function TypeSize(d: seq<nat>, off: nat): int
    requires off + 8 <= |d|
  {
    var vlen := d[off + 4] + 256 * d[off + 5];
    var kind := d[off + 7] % 16;
    if kind in {7, 10, 9, 11, 2, 8, 12} then 12
    else if kind == 1 then 12 + 4
    else if kind == 6 then 12 + vlen * 8
    else if kind == 3 then 12 + 12
    else if kind == 4 || kind == 5 then 12 + vlen * 12
    else if kind == 13 then 12 + vlen * 8
    else if kind == 14 then 12 + 4
    else if kind == 15 then 12 + vlen * 12
    else EINVAL
  }

  // ----- the bytes of a record -----

  function KindCode(k: Kind): nat {
    match k
    case Unkn => 0 case Int => 1 case Ptr => 2 case Array => 3 case Struct => 4 case Union => 5 case Enum => 6 case Fwd => 7
    case Typedef => 8 case Volatile => 9 case Const => 10 case Restrict => 11 case Func => 12 case FuncProto => 13 case Var => 14 case Datasec => 15
  }

  function Word(x: int): (b: seq<nat>)
    ensures |b| == 4
  {
    [x % 256, x / 256 % 256, x / 65536 % 256, x / 16777216 % 256]
  }

  /** The k-th enumerator, member, parameter or variable of a record. */
  function Item(t: BtfType, k: nat): (b: seq<nat>)
    requires RecordOk(t) && t.Kind() in {Enum, Struct, Union, FuncProto, Datasec} && k < t.info.vlen
  {
    var name, value := Word(t.fields[k].first), Word(t.fields[k].second);
    if t.Kind() == Enum then name + value
    else if t.Kind() == FuncProto then name + Word(t.refs[k + 1])
    else if t.Kind() == Datasec then Word(t.refs[k]) + name + value
    else name + Word(t.refs[k]) + value
  }

  function Items(t: BtfType, n: nat): (b: seq<nat>)
    requires RecordOk(t) && t.Kind() in {Enum, Struct, Union, FuncProto, Datasec} && n <= t.info.vlen
  {
    if n == 0 then [] else Items(t, n - 1) + Item(t, n - 1)
  }

  /** What trails the header of a record. */
  function Trailing(t: BtfType): (b: seq<nat>)
    requires RecordOk(t)
  {
    if t.Kind() == Int || t.Kind() == Var then Word(t.fields[0].first)
    else if t.Kind() == Array then Word(t.refs[1]) + Word(t.refs[0]) + Word(t.fields[0].first)
    else if t.Kind() in {Enum, Struct, Union, FuncProto, Datasec} then Items(t, t.info.vlen)
    else []
  }

  function Header(t: BtfType): (b: seq<nat>)
    requires RecordOk(t)
    ensures |b| == 12
  {
    var info := [t.info.vlen % 256, t.info.vlen / 256, t.info.unused % 256, KindCode(t.Kind()) + if t.info.kflag then 128 else 0];
    var sizeOrType := if t.Kind() in {Fwd, Ptr, Typedef, Volatile, Const, Restrict, Func, FuncProto, Var} then t.refs[0] else t.size;
    Word(t.nameOff) + info + Word(sizeOrType)
  }

  /** A record as it lies in the section. */
  function Encoded(t: BtfType): (b: seq<nat>)
    requires RecordOk(t) && t.info.vlen < 65536
  {
    Header(t) + Trailing(t)
  }

  lemma {:induction false} ItemsSize(t: BtfType, n: nat)
    requires RecordOk(t) && t.Kind() in {Enum, Struct, Union, FuncProto, Datasec} && n <= t.info.vlen
    ensures |Items(t, n)| == n * if t.Kind() == Enum || t.Kind() == FuncProto then 8 else 12
    decreases n
  {
    if n > 0 { ItemsSize(t, n - 1); }
  }

  lemma HeaderWords(t: BtfType)
    requires RecordOk(t)
    ensures Header(t)[4] == t.info.vlen % 256 && Header(t)[5] == t.info.vlen / 256 && Header(t)[7] % 16 == KindCode(t.Kind())
  {
  }

  /** The size that is read from the header of a record is the length of the record. */
  lemma EncodedSize(t: BtfType, rest: seq<nat>)
    requires RecordOk(t) && t.Kind() != Unkn && t.info.vlen < 65536
    ensures |Encoded(t)| >= 12 && TypeSize(Encoded(t) + rest, 0) == |Encoded(t)|
  {
    hide Items, Word, Header;
    HeaderWords(t);
    var d := Encoded(t) + rest;
    assert d[..12] == Header(t);
    assert d[4] == Header(t)[4] && d[5] == Header(t)[5] && d[7] == Header(t)[7];
    if t.Kind() in {Enum, Struct, Union, FuncProto, Datasec} { ItemsSize(t, t.info.vlen); }
  }

  /** Records 1 to n lie one behind the other from `typeOff`, and end before the strings. */
  ghost predicate Layout(d: seq<nat>, offs: seq<nat>, typeOff: nat, strings: nat) {
    && |offs| > 0
    && strings <= |d|
    && (|offs| > 1 ==> offs[1] == typeOff)
    && (|offs| == 1 ==> typeOff <= strings)
    && forall i :: 1 <= i < |offs| ==> RecordEnds(d, offs, i, strings)
  }

  ghost predicate RecordEnds(d: seq<nat>, offs: seq<nat>, i: nat, strings: nat)
    requires 1 <= i < |offs|
  {
    && offs[i] + 12 <= |d|
    && TypeSize(d, offs[i]) >= 12
    && if i + 1 < |offs| then offs[i + 1] == offs[i] + TypeSize(d, offs[i])
       else offs[i] + TypeSize(d, offs[i]) <= strings
  }

  /** The bytes of record i. */
  ghost function Record(d: seq<nat>, offs: seq<nat>, typeOff: nat, strings: nat, i: nat): seq<nat>
    requires Layout(d, offs, typeOff, strings) && 1 <= i < |offs|
  {
    RecordFits(d, offs, typeOff, strings, i);
    d[offs[i]..offs[i] + TypeSize(d, offs[i])]
  }

  lemma {:induction false} RecordFits(d: seq<nat>, offs: seq<nat>, typeOff: nat, strings: nat, i: nat)
    requires Layout(d, offs, typeOff, strings) && 1 <= i < |offs|
    ensures offs[i] + 12 <= |d| && TypeSize(d, offs[i]) >= 12 && offs[i] + TypeSize(d, offs[i]) <= strings <= |d|
    decreases |offs| - i
  {
    assert RecordEnds(d, offs, i, strings);
    if i + 1 < |offs| { RecordFits(d, offs, typeOff, strings, i + 1); }
  }

  /** The given records, one behind the other. */
  ghost function Records(d: seq<nat>, offs: seq<nat>, typeOff: nat, strings: nat, ids: seq<nat>): seq<nat>
    requires Layout(d, offs, typeOff, strings) && forall p :: 0 <= p < |ids| ==> 1 <= ids[p] < |offs|
  {
    if ids == [] then []
    else Records(d, offs, typeOff, strings, ids[..|ids| - 1]) + Record(d, offs, typeOff, strings, ids[|ids| - 1])
  }

  /** Copies as if through a temporary, so the ranges may overlap. */
  method Memmove(a: array<nat>, dst: nat, src: nat, len: nat)
    requires dst + len <= a.Length && src + len <= a.Length
    modifies a
    ensures a[..] == old(a[..dst]) + old(a[src..src + len]) + old(a[dst + len..])
  {
    ghost var b := a[..];
    var bytes := a[src..src + len];
    var k := 0;
    while k < len
      invariant 0 <= k <= len
      invariant forall i :: 0 <= i < k ==> a[dst + i] == bytes[i]
      invariant forall i :: 0 <= i < dst || dst + k <= i < a.Length ==> a[i] == b[i]
    {
      a[dst + k] := bytes[k];
      k := k + 1;
    }
    assert a[dst..dst + len] == bytes;
    assert a[..] == a[..dst] + a[dst..dst + len] + a[dst + len..];
  }

  /** Where the next unread record begins, or where the records end. */
  ghost function NextOff(d: seq<nat>, offs: seq<nat>, typeOff: nat, strings: nat, i: nat): nat
    requires Layout(d, offs, typeOff, strings) && 1 <= i <= |offs|
  {
    if i == 1 then typeOff
    else RecordFits(d, offs, typeOff, strings, i - 1); offs[i - 1] + TypeSize(d, offs[i - 1])
  }

  lemma NextOffIs(d: seq<nat>, offs: seq<nat>, typeOff: nat, strings: nat, i: nat)
    requires Layout(d, offs, typeOff, strings) && 1 <= i <= |offs|
    ensures i < |offs| ==> NextOff(d, offs, typeOff, strings, i) == offs[i]
    ensures NextOff(d, offs, typeOff, strings, i) <= strings
  {
    if i > 1 { RecordFits(d, offs, typeOff, strings, i - 1); }
    if i < |offs| {
      RecordFits(d, offs, typeOff, strings, i);
      if i > 1 { assert RecordEnds(d, offs, i - 1, strings); }
    }
  }

  /** `packed` lies at `typeOff` up to `p`; the bytes before and the bytes not read yet are as given. */
  ghost predicate BytesPacked(d0: seq<nat>, d: seq<nat>, typeOff: nat, packed: seq<nat>, p: nat, next: nat) {
    && typeOff <= p <= next <= |d| == |d0|
    && d[..typeOff] == d0[..typeOff]
    && d[typeOff..p] == packed
    && d[next..] == d0[next..]
  }

  /** The index still holds unread positions, and the new positions of the records kept so far. */
  ghost predicate OffsPacked(d0: seq<nat>, offs0: seq<nat>, typeOff: nat, strings: nat, offs: seq<nat>, ids: seq<nat>, i: nat)
    requires Layout(d0, offs0, typeOff, strings) && forall p :: 0 <= p < |ids| ==> 1 <= ids[p] < |offs0|
  {
    && |offs| == |offs0| && |ids| < i
    && (forall k :: i <= k < |offs| ==> offs[k] == offs0[k])
    && (forall q :: 0 <= q < |ids| && q + 1 < |offs| ==>
          offs[q + 1] == typeOff + |Records(d0, offs0, typeOff, strings, ids[..q])|)
  }

  /** The state after records 1 to i - 1: the canonical ones among them are packed and numbered in order. */
  ghost predicate Compacted(d0: seq<nat>, offs0: seq<nat>, typeOff: nat, strings: nat, m: seq<nat>,
                            d: seq<nat>, offs: seq<nat>, h: seq<nat>, i: nat, p: nat)
    requires Layout(d0, offs0, typeOff, strings)
  {
    && |offs0| == |m| && 1 <= i <= |m|
    && BytesPacked(d0, d, typeOff, Records(d0, offs0, typeOff, strings, Kept(m, i)), p, NextOff(d0, offs0, typeOff, strings, i))
    && OffsPacked(d0, offs0, typeOff, strings, offs, Kept(m, i), i)
    && CompactMap(m, h, i)
  }

  /** Moving `len` bytes from `next` down to `p` appends them to what is packed and keeps the rest. */
  lemma MovedBytes(d0: seq<nat>, d: seq<nat>, typeOff: nat, packed: seq<nat>, p: nat, next: nat, len: nat)
    requires BytesPacked(d0, d, typeOff, packed, p, next) && next + len <= |d|
    ensures BytesPacked(d0, d[..p] + d[next..next + len] + d[p + len..], typeOff, packed + d0[next..next + len], p + len, next + len)
  {
    var d' := d[..p] + d[next..next + len] + d[p + len..];
    assert forall k :: next <= k < |d| ==> d[k] == d[next..][k - next] == d0[next..][k - next] == d0[k];
    assert d[next..next + len] == d0[next..next + len];
    assert d'[typeOff..p + len] == d[typeOff..p] + d[next..next + len];
    assert d'[next + len..] == d0[next + len..];
  }

  lemma SkippedBytes(d0: seq<nat>, d: seq<nat>, typeOff: nat, packed: seq<nat>, p: nat, next: nat, next': nat)
    requires BytesPacked(d0, d, typeOff, packed, p, next) && next <= next' <= |d|
    ensures BytesPacked(d0, d, typeOff, packed, p, next')
  {
    assert d[next'..] == d[next..][next' - next..] && d0[next'..] == d0[next..][next' - next..];
  }

  lemma RecordsSnoc(d0: seq<nat>, offs0: seq<nat>, typeOff: nat, strings: nat, ids: seq<nat>, i: nat)
    requires Layout(d0, offs0, typeOff, strings) && 1 <= i < |offs0|
    requires forall p :: 0 <= p < |ids| ==> 1 <= ids[p] < |offs0|
    ensures offs0[i] + 12 <= |d0| && 0 <= TypeSize(d0, offs0[i]) && offs0[i] + TypeSize(d0, offs0[i]) <= |d0|
    ensures Records(d0, offs0, typeOff, strings, ids + [i]) ==
            Records(d0, offs0, typeOff, strings, ids) + d0[offs0[i]..offs0[i] + TypeSize(d0, offs0[i])]
  {
    RecordFits(d0, offs0, typeOff, strings, i);
    assert (ids + [i])[..|ids|] == ids;
  }

  lemma PackedOffs(d0: seq<nat>, offs0: seq<nat>, typeOff: nat, strings: nat, offs: seq<nat>, ids: seq<nat>, i: nat, p: nat)
    requires Layout(d0, offs0, typeOff, strings) && 1 <= i < |offs0|
    requires forall q :: 0 <= q < |ids| ==> 1 <= ids[q] < |offs0|
    requires p == typeOff + |Records(d0, offs0, typeOff, strings, ids)|
    requires OffsPacked(d0, offs0, typeOff, strings, offs, ids, i)
    ensures |ids| + 1 <= i
    ensures OffsPacked(d0, offs0, typeOff, strings, offs[|ids| + 1 := p], ids + [i], i + 1)
  {
    var ids', offs' := ids + [i], offs[|ids| + 1 := p];
    forall q | 0 <= q < |ids'| && q + 1 < |offs'|
      ensures offs'[q + 1] == typeOff + |Records(d0, offs0, typeOff, strings, ids'[..q])|
    {
      assert q < |ids| ==> ids'[..q] == ids[..q];
      assert q == |ids| ==> ids'[..q] == ids;
    }
  }

  lemma NumberStep(m: seq<nat>, h: seq<nat>, i: nat)
    requires 1 <= i < |m| && CompactMap(m, h, i)
    ensures m[i] == i ==> CompactMap(m, h[i := |Kept(m, i)| + 1], i + 1) && Kept(m, i + 1) == Kept(m, i) + [i]
    ensures m[i] != i ==> CompactMap(m, h, i + 1) && Kept(m, i + 1) == Kept(m, i)
  {
  }

  lemma NextOffAfter(d0: seq<nat>, offs0: seq<nat>, typeOff: nat, strings: nat, i: nat)
    requires Layout(d0, offs0, typeOff, strings) && 1 <= i < |offs0|
    ensures offs0[i] + 12 <= |d0| && NextOff(d0, offs0, typeOff, strings, i + 1) == offs0[i] + TypeSize(d0, offs0[i])
  {
    RecordFits(d0, offs0, typeOff, strings, i);
  }

  lemma UnreadFacts(d0: seq<nat>, offs0: seq<nat>, typeOff: nat, strings: nat, m: seq<nat>,
                    d: seq<nat>, offs: seq<nat>, h: seq<nat>, i: nat, p: nat)
    requires Layout(d0, offs0, typeOff, strings)
    requires Compacted(d0, offs0, typeOff, strings, m, d, offs, h, i, p) && i < |m|
    ensures |offs| == |m| == |h| && |d| == |d0| && offs[i] == offs0[i] && p <= offs[i] && |Kept(m, i)| + 1 <= i
    ensures p == typeOff + |Records(d0, offs0, typeOff, strings, Kept(m, i))|
    ensures offs0[i] + 12 <= |d0| && 12 <= TypeSize(d0, offs0[i]) && offs[i] + TypeSize(d0, offs0[i]) <= |d|
  {
    hide Records, Layout;
    NextOffIs(d0, offs0, typeOff, strings, i);
    RecordFits(d0, offs0, typeOff, strings, i);
  }

  /** A canonical record moves down to `p`; everything not read yet keeps its place. */
  lemma MoveStep(d0: seq<nat>, offs0: seq<nat>, typeOff: nat, strings: nat, m: seq<nat>,
                 d: seq<nat>, offs: seq<nat>, h: seq<nat>, i: nat, p: nat, len: nat, d': seq<nat>)
    requires Layout(d0, offs0, typeOff, strings)
    requires Compacted(d0, offs0, typeOff, strings, m, d, offs, h, i, p) && i < |m| && m[i] == i
    requires |offs| == |m| == |h| && |d| == |d0| && |Kept(m, i)| + 1 <= i
    requires offs0[i] + 12 <= |d0| && len == TypeSize(d0, offs0[i]) && p <= offs0[i] && offs0[i] + len <= |d|
    requires p == typeOff + |Records(d0, offs0, typeOff, strings, Kept(m, i))|
    requires d' == d[..p] + d[offs0[i]..offs0[i] + len] + d[p + len..]
    ensures Compacted(d0, offs0, typeOff, strings, m, d', offs[|Kept(m, i)| + 1 := p], h[i := |Kept(m, i)| + 1], i + 1, p + len)
    ensures |Kept(m, i + 1)| == |Kept(m, i)| + 1
  {
    hide Layout, Records, BytesPacked, OffsPacked, CompactMap, NextOff;
    var ids := Kept(m, i);
    NextOffIs(d0, offs0, typeOff, strings, i);
    NextOffAfter(d0, offs0, typeOff, strings, i);
    NumberStep(m, h, i);
    RecordsSnoc(d0, offs0, typeOff, strings, ids, i);
    MovedBytes(d0, d, typeOff, Records(d0, offs0, typeOff, strings, ids), p, offs0[i], len);
    PackedOffs(d0, offs0, typeOff, strings, offs, ids, i, p);
  }

  lemma SkipStep(d0: seq<nat>, offs0: seq<nat>, typeOff: nat, strings: nat, m: seq<nat>,
                 d: seq<nat>, offs: seq<nat>, h: seq<nat>, i: nat, p: nat)
    requires Layout(d0, offs0, typeOff, strings)
    requires Compacted(d0, offs0, typeOff, strings, m, d, offs, h, i, p) && i < |m| && m[i] != i
    ensures Compacted(d0, offs0, typeOff, strings, m, d, offs, h, i + 1, p) && Kept(m, i + 1) == Kept(m, i)
  {
    hide Layout, Records;
    NextOffIs(d0, offs0, typeOff, strings, i);
    NextOffIs(d0, offs0, typeOff, strings, i + 1);
    NumberStep(m, h, i);
    RecordFits(d0, offs0, typeOff, strings, i);
    SkippedBytes(d0, d, typeOff, Records(d0, offs0, typeOff, strings, Kept(m, i)), p,
                 NextOff(d0, offs0, typeOff, strings, i), NextOff(d0, offs0, typeOff, strings, i + 1));
  }

  lemma CompactedStart(d0: seq<nat>, offs0: seq<nat>, typeOff: nat, strings: nat, m: seq<nat>, h: seq<nat>)
    requires Layout(d0, offs0, typeOff, strings) && |offs0| == |m| == |h| && m[0] == 0
    requires h[0] == 0 && forall k :: 1 <= k < |h| ==> h[k] == UNPROCESSED_ID
    ensures Compacted(d0, offs0, typeOff, strings, m, d0, offs0, h, 1, typeOff)
  {
    NextOffIs(d0, offs0, typeOff, strings, 1);
    assert d0[typeOff..typeOff] == [];
  }

  /** The header of the next record is still as given. */
  lemma UnreadHeader(d0: seq<nat>, offs0: seq<nat>, typeOff: nat, strings: nat, m: seq<nat>,
                     d: seq<nat>, offs: seq<nat>, h: seq<nat>, i: nat, p: nat)
    requires Layout(d0, offs0, typeOff, strings)
    requires Compacted(d0, offs0, typeOff, strings, m, d, offs, h, i, p) && i < |m|
    ensures offs[i] == offs0[i] && offs[i] + 12 <= |d| == |d0|
    ensures TypeSize(d, offs[i]) == TypeSize(d0, offs0[i]) >= 12
  {
    hide Layout;
    NextOffIs(d0, offs0, typeOff, strings, i);
    RecordFits(d0, offs0, typeOff, strings, i);
    var o := offs0[i];
    assert forall k :: o <= k < |d| ==> d[k] == d[o..][k - o] == d0[o..][k - o] == d0[k];
  }

  method ResetMap(hypot: array<nat>)
    requires hypot.Length > 0
    modifies hypot
    ensures hypot[0] == 0 && forall k :: 1 <= k < hypot.Length ==> hypot[k] == UNPROCESSED_ID
  {
    hypot[0] := 0;
    var k := 1;
    while k < hypot.Length
      invariant 1 <= k <= hypot.Length
      invariant hypot[0] == 0 && forall j :: 1 <= j < k ==> hypot[j] == UNPROCESSED_ID
    {
      hypot[k] := UNPROCESSED_ID;
      k := k + 1;
    }
  }

  lemma CompactedEnd(d0: seq<nat>, offs0: seq<nat>, typeOff: nat, strings: nat, m: seq<nat>,
                     d: seq<nat>, offs: seq<nat>, h: seq<nat>, p: nat)
    requires Layout(d0, offs0, typeOff, strings) && |offs0| == |m|
    requires Compacted(d0, offs0, typeOff, strings, m, d, offs, h, |m|, p)
    ensures |Kept(m, |m|)| < |m| == |offs| && CompactMap(m, h, |m|) && p <= strings <= |d| == |d0|
    ensures BytesPacked(d0, d, typeOff, Records(d0, offs0, typeOff, strings, Kept(m, |m|)), p, strings)
    ensures forall q :: 0 <= q < |Kept(m, |m|)| ==>
              offs[q + 1] == typeOff + |Records(d0, offs0, typeOff, strings, Kept(m, |m|)[..q])|
  {
    hide Records;
    NextOffIs(d0, offs0, typeOff, strings, |m|);
    SkippedBytes(d0, d, typeOff, Records(d0, offs0, typeOff, strings, Kept(m, |m|)), p,
                 NextOff(d0, offs0, typeOff, strings, |m|), strings);
  }

  lemma StringsMoved(d0: seq<nat>, d: seq<nat>, typeOff: nat, packed: seq<nat>, p: nat, strings: nat, len: nat)
    requires BytesPacked(d0, d, typeOff, packed, p, strings) && strings + len <= |d|
    ensures var d' := d[..p] + d[strings..strings + len] + d[p + len..];
            d'[..typeOff] == d0[..typeOff] && d'[typeOff..p] == packed && d'[p..p + len] == d0[strings..strings + len]
  {
    assert forall k :: strings <= k < |d| ==> d[k] == d[strings..][k - strings] == d0[strings..][k - strings] == d0[k];
  }

  /** Moves record i down to `p` and gives it the next free id. */
  method MoveRecord(data: array<nat>, offs: array<nat>, hypot: array<nat>, ghost m: seq<nat>, ghost d0: seq<nat>,
                    ghost offs0: seq<nat>, ghost typeOff: nat, ghost strings: nat, i: nat, p: nat, nextTypeId: nat)
    returns (p': nat)
    requires Layout(d0, offs0, typeOff, strings) && data != offs && offs != hypot && data != hypot
    requires 1 <= i < |m| == offs.Length == hypot.Length && m[i] == i && nextTypeId == |Kept(m, i)| + 1
    requires Compacted(d0, offs0, typeOff, strings, m, data[..], offs[..], hypot[..], i, p)
    modifies data, offs, hypot
    ensures Compacted(d0, offs0, typeOff, strings, m, data[..], offs[..], hypot[..], i + 1, p')
    ensures |Kept(m, i + 1)| == nextTypeId
  {
    hide Layout, Compacted, Records, NextOff, CompactMap, Kept;
    ghost var d, os, h := data[..], offs[..], hypot[..];
    UnreadHeader(d0, offs0, typeOff, strings, m, d, os, h, i, p);
    UnreadFacts(d0, offs0, typeOff, strings, m, d, os, h, i, p);
    var len := TypeSize(data[..], offs[i]);
    Memmove(data, p, offs[i], len);
    MoveStep(d0, offs0, typeOff, strings, m, d, os, h, i, p, len, data[..]);
    hypot[i] := nextTypeId;
    offs[nextTypeId] := p;
    assert hypot[..] == h[i := nextTypeId] && offs[..] == os[nextTypeId := p];
    p' := p + len;
  }

  /** The pass over the records. */
  method CompactRecords(data: array<nat>, offs: array<nat>, hypot: array<nat>, m: seq<nat>, typeOff: nat, ghost strings: nat)
    returns (nrTypes: nat, p: nat)
    requires Layout(data[..], offs[..], typeOff, strings)
    requires |m| == offs.Length == hypot.Length && m[0] == 0
    requires data != offs && offs != hypot && data != hypot
    modifies data, offs, hypot
    ensures nrTypes == |Kept(m, |m|)|
    ensures Compacted(old(data[..]), old(offs[..]), typeOff, strings, m, data[..], offs[..], hypot[..], |m|, p)
  {
    assert offs.Length > 0;
    hide Layout, Compacted, Records, NextOff, CompactMap, Kept;
    ghost var d0, offs0 := data[..], offs[..];
    ResetMap(hypot);
    var nextTypeId := 1;
    p := typeOff;
    CompactedStart(d0, offs0, typeOff, strings, m, hypot[..]);
    var i := 1;
    while i < offs.Length
      invariant 1 <= i <= offs.Length
      invariant Compacted(d0, offs0, typeOff, strings, m, data[..], offs[..], hypot[..], i, p)
      invariant nextTypeId == |Kept(m, i)| + 1
    {
      p, nextTypeId := CompactRecord(data, offs, hypot, m, d0, offs0, typeOff, strings, i, p, nextTypeId);
      i := i + 1;
    }
    nrTypes := nextTypeId - 1;
  }

  /** One record: moved down if its type is canonical, skipped otherwise. */
  method CompactRecord(data: array<nat>, offs: array<nat>, hypot: array<nat>, m: seq<nat>, ghost d0: seq<nat>,
                       ghost offs0: seq<nat>, ghost typeOff: nat, ghost strings: nat, i: nat, p: nat, nextTypeId: nat)
    returns (p': nat, next: nat)
    requires Layout(d0, offs0, typeOff, strings) && data != offs && offs != hypot && data != hypot
    requires 1 <= i < |m| == offs.Length == hypot.Length && nextTypeId == |Kept(m, i)| + 1
    requires Compacted(d0, offs0, typeOff, strings, m, data[..], offs[..], hypot[..], i, p)
    modifies data, offs, hypot
    ensures Compacted(d0, offs0, typeOff, strings, m, data[..], offs[..], hypot[..], i + 1, p')
    ensures next == |Kept(m, i + 1)| + 1
  {
    hide Layout, Compacted, Records, NextOff, CompactMap, Kept;
    next := nextTypeId;
    if m[i] == i {
      p' := MoveRecord(data, offs, hypot, m, d0, offs0, typeOff, strings, i, p, nextTypeId);
      next := next + 1;
    } else {
      SkipStep(d0, offs0, typeOff, strings, m, data[..], offs[..], hypot[..], i, p);
      p' := p;
    }
  }

  /**
   Compacts the type records of `data` and moves the strings behind them. The result is the
   records of the canonical types, in order, followed by the string section; `offs` then indexes
   the moved records and `hypot` numbers the canonical types.
   */
  method CompactBytes(data: array<nat>, offs: array<nat>, hypot: array<nat>, m: seq<nat>,
                      typeOff: nat, strings: nat, strLen: nat)
    returns (nrTypes: nat, strOff: nat)
    requires Layout(data[..], offs[..], typeOff, strings) && strings + strLen <= data.Length
    requires |m| == offs.Length == hypot.Length && m[0] == 0
    requires data != offs && offs != hypot && data != hypot
    modifies data, offs, hypot
    ensures nrTypes == |Kept(m, |m|)| < offs.Length
    ensures typeOff <= strOff <= strings
    ensures data[..typeOff] == old(data[..typeOff])
    ensures data[typeOff..strOff] == Records(old(data[..]), old(offs[..]), typeOff, strings, Kept(m, |m|))
    ensures data[strOff..strOff + strLen] == old(data[strings..strings + strLen])
    ensures forall q :: 0 <= q < nrTypes ==>
              offs[q + 1] == typeOff + |Records(old(data[..]), old(offs[..]), typeOff, strings, Kept(m, |m|)[..q])|
    ensures CompactMap(m, hypot[..], |m|)
  {
    hide Layout, Compacted, Records, NextOff, CompactMap, Kept;
    ghost var d0, offs0 := data[..], offs[..];
    nrTypes, strOff := CompactRecords(data, offs, hypot, m, typeOff, strings);
    ghost var d := data[..];
    CompactedEnd(d0, offs0, typeOff, strings, m, d, offs[..], hypot[..], strOff);
    Memmove(data, strOff, strings, strLen);
    StringsMoved(d0, d, typeOff, Records(d0, offs0, typeOff, strings, Kept(m, |m|)), strOff, strings, strLen);
  }
}
