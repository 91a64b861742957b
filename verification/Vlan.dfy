/**
 VLAN tags (clause 9 of IEEE 802.1Q) of a packet in place: pushing, popping and parsing, as
 common/rewrite_helpers.h and common/parsing_helpers.h do it in an XDP buffer with headroom.
 */
module Vlan {
  import opened Machine
  import opened Checksum

  const ETH_P_8021Q: uint16 := 0x8100
  const ETH_P_8021AD: uint16 := 0x88A8
  const ETH_HLEN: nat := 14
  const VLAN_HLEN: nat := 4

  predicate ProtoIsVlan(proto: uint16) { proto == ETH_P_8021Q || proto == ETH_P_8021AD }

  // ----- frames -----

  /** The `k`th EtherType of a frame: of the Ethernet header for 0, then of each tag. */
  function ProtoAt(f: seq<uint8>, k: nat): uint16
    requires ETH_HLEN + VLAN_HLEN * k <= |f|
  {
    NetWord(f[12 + 4 * k], f[13 + 4 * k])
  }

  /** Tag control information of the `k`th tag. */
  function TciAt(f: seq<uint8>, k: nat): uint16
    requires ETH_HLEN + VLAN_HLEN * (k + 1) <= |f|
  {
    NetWord(f[14 + 4 * k], f[15 + 4 * k])
  }

  /** The frame with a tag after its addresses. */
  function Tagged(f: seq<uint8>, tci: uint16): seq<uint8>
    requires |f| >= ETH_HLEN
  {
    f[..12] + [0x81, 0x00, tci / 256, tci % 256] + f[12..]
  }

  predicate HasTag(f: seq<uint8>) { |f| >= ETH_HLEN + VLAN_HLEN && ProtoIsVlan(ProtoAt(f, 0)) }

  /** The frame without its outer tag. */
  function Untagged(f: seq<uint8>): seq<uint8>
    requires |f| >= ETH_HLEN + VLAN_HLEN
  {
    f[..12] + f[16..]
  }

  /** Tags are told by their bytes: 81 00 for 802.1Q and 88 a8 for 802.1ad, most significant byte first. */
  lemma TagBytes(f: seq<uint8>)
    requires |f| >= ETH_HLEN + VLAN_HLEN
    ensures HasTag(f) <==> f[12..14] in {[0x81, 0x00], [0x88, 0xA8]}
    ensures TciAt(f, 0) as int == 256 * (f[14] as int) + (f[15] as int)
  {
    assert f[12..14] == [f[12], f[13]];
    assert [f[12], f[13]] == [0x81, 0x00] <==> f[12] == 0x81 && f[13] == 0;
    assert [f[12], f[13]] == [0x88, 0xA8] <==> f[12] == 0x88 && f[13] == 0xA8;
  }

  lemma UntagTagged(f: seq<uint8>, tci: uint16)
    requires |f| >= ETH_HLEN
    ensures HasTag(Tagged(f, tci)) && TciAt(Tagged(f, tci), 0) == tci && Untagged(Tagged(f, tci)) == f
  {
    var g := Tagged(f, tci);
    assert g[12] == 0x81 && g[13] == 0x00 && g[14] == tci / 256 && g[15] == tci % 256;
    assert g[..12] == f[..12] && g[16..] == f[12..];
  }

  /** Pushing back what was popped restores the frame exactly when the outer tag was an 802.1Q tag. */
  lemma TagUntagged(f: seq<uint8>)
    requires HasTag(f)
    ensures Tagged(Untagged(f), TciAt(f, 0)) == f <==> ProtoAt(f, 0) == ETH_P_8021Q
  {
    var u := Untagged(f);
    assert u[..12] == f[..12] && u[12..] == f[16..];
    var g := Tagged(u, TciAt(f, 0));
    assert g[14] == f[14] && g[15] == f[15];
    assert g[12] == 0x81 && g[13] == 0x00;
    if ProtoAt(f, 0) == ETH_P_8021Q {
      assert f[12] == 0x81 && f[13] == 0x00;
      assert f == f[..12] + [f[12], f[13], f[14], f[15]] + f[16..];
    }
  }

  // ----- the buffer -----

  class XdpBuff {
    const buf: array<uint8>
    var data: nat
    var dataEnd: nat

    constructor (buf: array<uint8>, data: nat, dataEnd: nat)
      requires data <= dataEnd <= buf.Length
      ensures Valid() && this.buf == buf && this.data == data && this.dataEnd == dataEnd
    {
      this.buf, this.data, this.dataEnd := buf, data, dataEnd;
    }

    ghost predicate Valid()
      reads this
    {
      data <= dataEnd <= buf.Length
    }

    ghost function Frame(): seq<uint8>
      requires Valid()
      reads this, buf
    {
      buf[data..dataEnd]
    }

    /** bpf_xdp_adjust_head: not before the buffer, and never leaving less than an Ethernet header. */
    method AdjustHead(delta: int) returns (r: int)
      requires Valid()
      modifies `data
      ensures Valid()
      ensures r == 0 <==> 0 <= old(data) + delta <= dataEnd - ETH_HLEN
      ensures r == 0 ==> data == old(data) + delta
      ensures r != 0 ==> r == -1 && data == old(data)
    {
      if data + delta < 0 || data + delta > dataEnd - ETH_HLEN { return -1; }
      data := data + delta;
      return 0;
    }

    method PutBytes(at: nat, bytes: seq<uint8>)
      requires at + |bytes| <= buf.Length
      modifies buf
      ensures buf[..] == old(buf[..at]) + bytes + old(buf[at + |bytes|..])
    {
      forall i | 0 <= i < |bytes| { buf[at + i] := bytes[i]; }
    }

    /** Takes the outer tag off and returns its TCI; fails, changing nothing, if there is no complete tag. */
    method TagPop() returns (r: int)
      requires Valid() && dataEnd - data >= ETH_HLEN
      modifies this, buf
      ensures Valid() && dataEnd == old(dataEnd)
      ensures r == -1 <==> !HasTag(old(Frame()))
      ensures r == -1 ==> Frame() == old(Frame())
      ensures r != -1 ==> r == TciAt(old(Frame()), 0) && Frame() == Untagged(old(Frame())) && data == old(data) + VLAN_HLEN
    {
      ghost var f := Frame();
      if !ProtoIsVlan(NetWord(buf[data + 12], buf[data + 13])) { return -1; }
      if data + ETH_HLEN + VLAN_HLEN > dataEnd { return -1; }
      var vlid := NetWord(buf[data + 14], buf[data + 15]);
      var proto := buf[data + 16..data + 18];
      var eth := buf[data..data + ETH_HLEN];
      var err := AdjustHead(VLAN_HLEN);
      if err != 0 { return -1; }
      ghost var was := buf[..];
      PutBytes(data, eth);
      PutBytes(data + 12, proto);
      PopBytes(was, old(data), dataEnd, f, buf[..]);
      return vlid;
    }

    /** Adds a tag with the low 16 bits of `vlid`; fails, changing nothing, without headroom. */
    method TagPush(vlid: int) returns (r: int)
      requires Valid() && dataEnd - data >= ETH_HLEN
      modifies this, buf
      ensures Valid() && dataEnd == old(dataEnd) && (r == 0 || r == -1)
      ensures r == 0 <==> old(data) >= VLAN_HLEN
      ensures r == 0 ==> Frame() == Tagged(old(Frame()), vlid % 65536) && data == old(data) - VLAN_HLEN
      ensures r == -1 ==> Frame() == old(Frame())
    {
      ghost var f := Frame();
      var eth := buf[data..data + ETH_HLEN];
      var err := AdjustHead(0 - VLAN_HLEN);
      if err != 0 { return -1; }
      ghost var was := buf[..];
      PutBytes(data, eth);
      var tci: uint16 := vlid % 65536;
      PutBytes(data + 14, [tci / 256, tci % 256]);
      PutBytes(data + 16, buf[data + 12..data + 14]);
      PutBytes(data + 12, [0x81, 0x00]);
      PushBytes(was, data, dataEnd, f, tci, buf[..]);
      return 0;
    }
  }

  /** Writes bytes over a sequence. */
  function Over(s: seq<uint8>, at: nat, bytes: seq<uint8>): seq<uint8>
    requires at + |bytes| <= |s|
  {
    s[..at] + bytes + s[at + |bytes|..]
  }

  lemma OverAt(s: seq<uint8>, at: nat, bytes: seq<uint8>, j: nat)
    requires at + |bytes| <= |s| && j < |s|
    ensures |Over(s, at, bytes)| == |s| && Over(s, at, bytes)[j] == if at <= j < at + |bytes| then bytes[j - at] else s[j]
  {
  }

  lemma PopBytes(was: seq<uint8>, at: nat, end: nat, f: seq<uint8>, now: seq<uint8>)
    requires at + 18 <= end <= |was| && f == was[at..end]
    requires now == Over(Over(was, at + 4, was[at..at + 14]), at + 16, was[at + 16..at + 18])
    ensures |now| == |was| && now[at + 4..end] == Untagged(f)
  {
    var eth, proto := was[at..at + 14], was[at + 16..at + 18];
    var one := Over(was, at + 4, eth);
    OverAt(was, at + 4, eth, 0);
    OverAt(one, at + 16, proto, 0);
    var u, g := Untagged(f), now[at + 4..end];
    hide Over;
    forall i | 0 <= i < |g| ensures g[i] == u[i] {
      OverAt(was, at + 4, eth, at + 4 + i);
      OverAt(one, at + 16, proto, at + 4 + i);
    }
  }

  /** Byte `i` of a tagged frame. */
  function TaggedByte(f: seq<uint8>, tci: uint16, i: nat): uint8
    requires |f| >= ETH_HLEN && i < |f| + VLAN_HLEN
  {
    if i < 12 then f[i] else if i == 12 then 0x81 else if i == 13 then 0x00
    else if i == 14 then tci / 256 else if i == 15 then tci % 256 else f[i - 4]
  }

  lemma TaggedByteIs(f: seq<uint8>, tci: uint16, i: nat)
    requires |f| >= ETH_HLEN && i < |f| + VLAN_HLEN
    ensures |Tagged(f, tci)| == |f| + VLAN_HLEN && Tagged(f, tci)[i] == TaggedByte(f, tci, i)
  {
  }

  lemma PushedByte(was: seq<uint8>, at: nat, end: nat, tci: uint16, i: nat)
    requires at + 18 <= end <= |was| && i < end - at
    ensures |PushSteps(was, at, tci)| == |was| && PushSteps(was, at, tci)[at + i] == TaggedByte(was[at + 4..end], tci, i)
  {
    var eth, tag, type' := was[at + 4..at + 18], [tci / 256, tci % 256], [0x81, 0x00];
    var one := Over(was, at, eth);
    var two := Over(one, at + 14, tag);
    var proto := two[at + 12..at + 14];
    var three := Over(two, at + 16, proto);
    var j := if 16 <= i < 18 then at + i - 4 else at + i;
    OverAt(was, at, eth, j);
    OverAt(one, at + 14, tag, j);
    OverAt(two, at + 16, proto, at + i);
    OverAt(three, at + 12, type', at + i);
    hide Over;
    assert 16 <= i < 18 ==> proto[i - 16] == two[at + i - 4];
  }

  lemma PushBytes(was: seq<uint8>, at: nat, end: nat, f: seq<uint8>, tci: uint16, now: seq<uint8>)
    requires at + 18 <= end <= |was| && f == was[at + 4..end]
    requires now == PushSteps(was, at, tci)
    ensures |now| == |was| && now[at..end] == Tagged(f, tci)
  {
    hide PushSteps, Tagged, TaggedByte;
    PushedByte(was, at, end, tci, 0);
    TaggedByteIs(f, tci, 0);
    var t, g := Tagged(f, tci), now[at..end];
    forall i | 0 <= i < |g| ensures g[i] == t[i] {
      PushedByte(was, at, end, tci, i);
      TaggedByteIs(f, tci, i);
    }
  }

  function PushSteps(was: seq<uint8>, at: nat, tci: uint16): seq<uint8>
    requires at + 18 <= |was|
  {
    var one := Over(was, at, was[at + 4..at + 18]);
    var two := Over(one, at + 14, [tci / 256, tci % 256]);
    var three := Over(two, at + 16, two[at + 12..at + 14]);
    Over(three, at + 12, [0x81, 0x00])
  }

  // ----- parsing -----

  /** `k` tags are consumed: as many as there are complete ones in a row, at most `maxDepth`. */
  ghost predicate IsTagCount(f: seq<uint8>, k: nat, maxDepth: nat) {
    && k <= maxDepth && ETH_HLEN + VLAN_HLEN * k <= |f|
    && (forall j :: 0 <= j < k ==> ProtoIsVlan(ProtoAt(f, j)))
    && (k == maxDepth || !ProtoIsVlan(ProtoAt(f, k)) || ETH_HLEN + VLAN_HLEN * (k + 1) > |f|)
  }

  lemma TagCountUnique(f: seq<uint8>, k: nat, k': nat, maxDepth: nat)
    requires IsTagCount(f, k, maxDepth) && IsTagCount(f, k', maxDepth)
    ensures k == k'
  {
  }

  ghost predicate IdsOf(f: seq<uint8>, ids: seq<nat>) {
    ETH_HLEN + VLAN_HLEN * |ids| <= |f| && forall j :: 0 <= j < |ids| ==> ids[j] == TciAt(f, j) % 4096
  }

  /** parse_ethhdr_vlan: skips up to `maxDepth` tags, never past the end, and collects their VLAN ids. */
  method ParseEthVlan(f: seq<uint8>, maxDepth: nat) returns (proto: int, pos: nat, ids: seq<nat>)
    ensures proto == -1 <==> |f| < ETH_HLEN
    ensures proto == -1 ==> pos == 0 && ids == []
    ensures proto != -1 ==> IsTagCount(f, |ids|, maxDepth) && IdsOf(f, ids) && pos == ETH_HLEN + VLAN_HLEN * |ids| <= |f|
    ensures proto != -1 ==> proto == ProtoAt(f, |ids|)
  {
    pos, ids := 0, [];
    if ETH_HLEN > |f| { return -1, 0, []; }
    pos := ETH_HLEN;
    proto := NetWord(f[12], f[13]);
    var i := 0;
    while i < maxDepth
      invariant 0 <= i <= maxDepth && |ids| == i && pos == ETH_HLEN + VLAN_HLEN * i <= |f|
      invariant proto == ProtoAt(f, i) && IdsOf(f, ids)
      invariant forall j :: 0 <= j < i ==> ProtoIsVlan(ProtoAt(f, j))
    {
      if !ProtoIsVlan(proto) { break; }
      if pos + VLAN_HLEN > |f| { break; }
      proto := NetWord(f[pos + 2], f[pos + 3]);
      ids := ids + [NetWord(f[pos], f[pos + 1]) % 4096];
      pos := pos + VLAN_HLEN;
      i := i + 1;
    }
  }

  lemma TaggedAt(f: seq<uint8>, tci: uint16, k: nat)
    requires |f| >= ETH_HLEN && ETH_HLEN + VLAN_HLEN * k <= |f|
    ensures ProtoAt(Tagged(f, tci), k + 1) == ProtoAt(f, k)
    ensures ETH_HLEN + VLAN_HLEN * (k + 1) <= |f| ==> TciAt(Tagged(f, tci), k + 1) == TciAt(f, k)
  {
    var g := Tagged(f, tci);
    assert forall i :: 12 <= i < |f| ==> g[i + 4] == f[i];
    assert g[12 + 4 * k + 4] == f[12 + 4 * k] && g[13 + 4 * k + 4] == f[13 + 4 * k];
    if ETH_HLEN + VLAN_HLEN * (k + 1) <= |f| {
      assert g[14 + 4 * k + 4] == f[14 + 4 * k] && g[15 + 4 * k + 4] == f[15 + 4 * k];
    }
  }

  lemma TaggedIds(f: seq<uint8>, tci: uint16, ids: seq<nat>)
    requires |f| >= ETH_HLEN && IdsOf(f, ids)
    ensures IdsOf(Tagged(f, tci), [tci % 4096] + ids)
  {
    var g, ids' := Tagged(f, tci), [tci % 4096] + ids;
    UntagTagged(f, tci);
    TaggedLength(f, tci);
    hide TciAt, Tagged;
    forall j | 0 <= j < |ids'| ensures ids'[j] == TciAt(g, j) % 4096 {
      if j > 0 {
        TaggedAt(f, tci, j - 1);
        assert ids'[j] == ids[j - 1];
      }
    }
  }

  /** After a push, parsing finds the same inner protocol four bytes further on, and the pushed id first. */
  lemma ParseTagged(f: seq<uint8>, tci: uint16, ids: seq<nat>, maxDepth: nat)
    requires |f| >= ETH_HLEN && IsTagCount(f, |ids|, maxDepth) && IdsOf(f, ids) && |ids| < maxDepth
    ensures var g := Tagged(f, tci);
      && IsTagCount(g, |ids| + 1, maxDepth) && IdsOf(g, [tci % 4096] + ids)
      && ProtoAt(g, |ids| + 1) == ProtoAt(f, |ids|) && |g| == |f| + VLAN_HLEN
  {
    var g, k := Tagged(f, tci), |ids|;
    UntagTagged(f, tci);
    TaggedLength(f, tci);
    hide ProtoAt, TciAt, Tagged, IdsOf, Untagged;
    TaggedIds(f, tci, ids);
    TaggedAt(f, tci, k);
    forall j | 0 <= j < k + 1 ensures ProtoIsVlan(ProtoAt(g, j)) {
      if j > 0 { TaggedAt(f, tci, j - 1); }
    }
  }

  lemma TaggedLength(f: seq<uint8>, tci: uint16)
    requires |f| >= ETH_HLEN
    ensures |Tagged(f, tci)| == |f| + VLAN_HLEN
  {
  }

  /** Pushing a tag and popping it again restores the frame and gives the tag back. */
  method PushThenPop(xdp: XdpBuff, vlid: int) returns (r: int)
    requires xdp.Valid() && xdp.dataEnd - xdp.data >= ETH_HLEN && xdp.data >= VLAN_HLEN
    modifies xdp, xdp.buf
    ensures xdp.Valid() && xdp.Frame() == old(xdp.Frame()) && xdp.data == old(xdp.data) && r == vlid % 65536
  {
    ghost var f := xdp.Frame();
    UntagTagged(f, vlid % 65536);
    hide Tagged, Untagged, TciAt, ProtoAt;
    var err := xdp.TagPush(vlid);
    r := xdp.TagPop();
  }

  /** Parsing before and after a push: unless the maximum was reached before, the same inner protocol four bytes
      further on, and the pushed id in front of the others. */
  method ParsePushed(xdp: XdpBuff, vlid: int, maxDepth: nat)
    returns (before: (int, nat, seq<nat>), after: (int, nat, seq<nat>))
    requires xdp.Valid() && xdp.dataEnd - xdp.data >= ETH_HLEN && xdp.data >= VLAN_HLEN
    modifies xdp, xdp.buf
    ensures xdp.Valid() && xdp.Frame() == Tagged(old(xdp.Frame()), vlid % 65536)
    ensures |before.2| <= maxDepth && (|before.2| < maxDepth ==> after == (before.0, before.1 + VLAN_HLEN, [vlid % 4096] + before.2))
  {
    ghost var f := xdp.Frame();
    hide Tagged, Untagged, TciAt, ProtoAt, IsTagCount, IdsOf;
    var proto, pos, ids := ParseEthVlan(xdp.buf[xdp.data..xdp.dataEnd], maxDepth);
    before := (proto, pos, ids);
    CountBelow(f, |ids|, maxDepth);
    var err := xdp.TagPush(vlid);
    proto, pos, ids := ParseEthVlan(xdp.buf[xdp.data..xdp.dataEnd], maxDepth);
    after := (proto, pos, ids);
    if |before.2| < maxDepth { PushedParse(f, vlid, before.2, ids, maxDepth); }
  }

  lemma CountBelow(f: seq<uint8>, k: nat, maxDepth: nat)
    requires IsTagCount(f, k, maxDepth)
    ensures k <= maxDepth
  {
  }

  lemma IdOfTci(vlid: int)
    ensures vlid % 65536 % 4096 == vlid % 4096
  {
  }

  lemma SameIds(f: seq<uint8>, ids: seq<nat>, ids': seq<nat>)
    requires |ids| == |ids'| && IdsOf(f, ids) && IdsOf(f, ids')
    ensures ids == ids'
  {
    hide TciAt;
  }

  lemma PushedParse(f: seq<uint8>, vlid: int, ids: seq<nat>, ids': seq<nat>, maxDepth: nat)
    requires |f| >= ETH_HLEN && IsTagCount(f, |ids|, maxDepth) && IdsOf(f, ids) && |ids| < maxDepth
    requires IsTagCount(Tagged(f, vlid % 65536), |ids'|, maxDepth) && IdsOf(Tagged(f, vlid % 65536), ids')
    ensures ids' == [vlid % 4096] + ids && ProtoAt(Tagged(f, vlid % 65536), |ids'|) == ProtoAt(f, |ids|)
  {
    hide Tagged, TciAt, ProtoAt, IsTagCount, IdsOf;
    var tci := vlid % 65536;
    ParseTagged(f, tci, ids, maxDepth);
    TagCountUnique(Tagged(f, tci), |ids'|, |ids| + 1, maxDepth);
    IdOfTci(vlid);
    SameIds(Tagged(f, tci), ids', [tci % 4096] + ids);
  }

  /** Popping a tag and pushing it back restores the frame exactly when it was an 802.1Q tag. */
  method PopThenPush(xdp: XdpBuff) returns (err: int)
    requires xdp.Valid() && HasTag(xdp.Frame())
    modifies xdp, xdp.buf
    ensures err == 0 && xdp.Valid() && xdp.data == old(xdp.data)
    ensures xdp.Frame() == old(xdp.Frame()) <==> ProtoAt(old(xdp.Frame()), 0) == ETH_P_8021Q
  {
    ghost var f := xdp.Frame();
    TagUntagged(f);
    var vlid := xdp.TagPop();
    err := xdp.TagPush(vlid);
  }
}
