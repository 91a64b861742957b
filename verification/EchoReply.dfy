/**
 Packets answered or forwarded with an incrementally updated checksum: the ICMPv6 echo reply of
 af_xdp_user.c, the ICMP echo reply and the IPv4 router of the packet03 solution. The host may be
 little-endian or big-endian.
 */
module EchoReply {
  import opened Machine
  import opened Checksum

  const ETH_P_IPV6: uint16 := 0x86DD
  const IPPROTO_ICMPV6: uint8 := 58
  const ICMPV6_ECHO_REQUEST: uint8 := 128
  const ICMPV6_ECHO_REPLY: uint8 := 129

  const ETH_LEN: nat := 14
  const IP6: nat := 14          // offset of the IPv6 header
  const SRC: nat := 22          // offsets of the addresses
  const DST: nat := 38
  const ICMP: nat := 54         // offset of the ICMPv6 header
  const MIN_LEN: nat := 62      // Ethernet, IPv6 and ICMPv6 headers

  // ----- the ICMPv6 checksum -----

  /** Payload length field of the IPv6 header. */
  function PayloadLen(pkt: seq<uint8>): nat
    requires |pkt| >= MIN_LEN
  {
    NetWord(pkt[IP6 + 4], pkt[IP6 + 5])
  }

  /** The packet holds the whole ICMPv6 message, and the message its own checksum. */
  predicate HasMessage(pkt: seq<uint8>) {
    |pkt| >= MIN_LEN && PayloadLen(pkt) >= 4 && ICMP + PayloadLen(pkt) <= |pkt|
  }

  /** What the ICMPv6 checksum covers: pseudo-header (section 8.1 of RFC 8200) and message (section 2.3 of RFC 4443). */
  function Covered(pkt: seq<uint8>): seq<uint8>
    requires HasMessage(pkt)
  {
    pkt[SRC..DST] + pkt[DST..ICMP] + [0, 0, pkt[IP6 + 4], pkt[IP6 + 5]] + [0, 0, 0, IPPROTO_ICMPV6] + pkt[ICMP..ICMP + PayloadLen(pkt)]
  }

  lemma CoveredSum(pkt: seq<uint8>)
    requires HasMessage(pkt)
    ensures WordSum(Covered(pkt)) ==
      WordSum(pkt[SRC..DST]) + WordSum(pkt[DST..ICMP]) + WordSum([0, 0, pkt[IP6 + 4], pkt[IP6 + 5]] + [0, 0, 0, IPPROTO_ICMPV6]) +
      WordSum(pkt[ICMP..ICMP + PayloadLen(pkt)])
  {
    var src, dst, pl, nh, msg := pkt[SRC..DST], pkt[DST..ICMP], [0, 0, pkt[IP6 + 4], pkt[IP6 + 5]], [0, 0, 0, IPPROTO_ICMPV6],
      pkt[ICMP..ICMP + PayloadLen(pkt)];
    hide WordSum;
    WordSumConcat(src + dst + pl + nh, msg);
    WordSumConcat(src + dst, pl + nh);
    WordSumConcat(src, dst);
    assert src + dst + pl + nh == src + dst + (pl + nh);
  }

  /** The fields of the reply that differ from the request. */
  ghost predicate IsReply(old': seq<uint8>, new': seq<uint8>, littleEndian: bool) {
    && |new'| == |old'| >= MIN_LEN
    && new'[0..6] == old'[6..12] && new'[6..12] == old'[0..6] && new'[12..SRC] == old'[12..SRC]
    && new'[SRC..DST] == old'[DST..ICMP] && new'[DST..ICMP] == old'[SRC..DST]
    && new'[ICMP] == ICMPV6_ECHO_REPLY && new'[ICMP + 1] == old'[ICMP + 1] && new'[ICMP + 4..] == old'[ICMP + 4..]
    && Load16(new'[ICMP + 2], new'[ICMP + 3], littleEndian) ==
       CsumReplace2(Load16(old'[ICMP + 2], old'[ICMP + 3], littleEndian),
                    Htons(ICMPV6_ECHO_REQUEST * 256, littleEndian), Htons(ICMPV6_ECHO_REPLY * 256, littleEndian))
  }

  /** A request verifies exactly when its reply does, for every payload and every code. */
  lemma ReplyVerifies(old': seq<uint8>, new': seq<uint8>, littleEndian: bool)
    requires IsReply(old', new', littleEndian) && HasMessage(old') && old'[ICMP] == ICMPV6_ECHO_REQUEST
    ensures HasMessage(new') && PayloadLen(new') == PayloadLen(old')
    ensures Verifies(Covered(new')) <==> Verifies(Covered(old'))
  {
    hide WordSum, OnesSum, Verifies, Congruent, CsumReplace2, NetWord, Htons;
    assert new'[12..SRC][IP6 + 4 - 12] == old'[12..SRC][IP6 + 4 - 12] && new'[12..SRC][IP6 + 5 - 12] == old'[12..SRC][IP6 + 5 - 12];
    assert new'[IP6 + 4] == old'[IP6 + 4] && new'[IP6 + 5] == old'[IP6 + 5];
    var n := PayloadLen(old');
    var msg, msg' := old'[ICMP..ICMP + n], new'[ICMP..ICMP + n];
    assert msg'[4..] == new'[ICMP + 4..][..n - 4] == old'[ICMP + 4..][..n - 4] == msg[4..];
    CoveredSum(old');
    CoveredSum(new');
    MessageSum(msg, msg', littleEndian);
    VerifiesIs(Covered(old'));
    VerifiesIs(Covered(new'));
    var fixed := [0, 0, old'[IP6 + 4], old'[IP6 + 5]] + [0, 0, 0, IPPROTO_ICMPV6];
    var a := WordSum(old'[SRC..DST]) + WordSum(old'[DST..ICMP]) + WordSum(fixed);
    CongruentBy(a, a, 0);
    CongruentAdd(a, a, WordSum(msg'), WordSum(msg));
    CongruentZero(WordSum(Covered(new')), WordSum(Covered(old')));
  }

  /** The patched message has the same sum modulo 65535, and neither is all zero. */
  lemma MessageSum(msg: seq<uint8>, msg': seq<uint8>, littleEndian: bool)
    requires |msg| == |msg'| >= 4 && msg'[4..] == msg[4..] && msg'[1] == msg[1]
    requires msg[0] == ICMPV6_ECHO_REQUEST && msg'[0] == ICMPV6_ECHO_REPLY
    requires Load16(msg'[2], msg'[3], littleEndian) ==
             CsumReplace2(Load16(msg[2], msg[3], littleEndian),
                          Htons(ICMPV6_ECHO_REQUEST * 256, littleEndian), Htons(ICMPV6_ECHO_REPLY * 256, littleEndian))
    ensures Congruent(WordSum(msg'), WordSum(msg)) && WordSum(msg) > 0 && WordSum(msg') > 0
  {
    WordSumPositive(msg, 0);
    WordSumPositive(msg', 0);
    HtonsType(ICMPV6_ECHO_REQUEST, littleEndian);
    HtonsType(ICMPV6_ECHO_REPLY, littleEndian);
    hide Load16, CsumReplace2, WordSum, NetWord, Congruent, Htons;
    CsumReplace2Is(Load16(msg[2], msg[3], littleEndian), Load16(msg[0], 0, littleEndian), Load16(msg'[0], 0, littleEndian));
    ByteChange(msg[2], msg[3], msg[0], msg'[2], msg'[3], msg'[0], littleEndian);
    HeaderSum(msg);
    HeaderSum(msg');
    var rest := msg[1] + WordSum(msg[4..]);
    CongruentBy(rest, rest, 0);
    CongruentAdd(NetWord(msg'[2], msg'[3]) + NetWord(msg'[0], 0), NetWord(msg[2], msg[3]) + NetWord(msg[0], 0), rest, rest);
  }

  lemma HtonsType(t: uint8, littleEndian: bool)
    ensures Htons(t * 256, littleEndian) == Load16(t, 0, littleEndian)
  {
  }

  lemma CongruentZero(x: int, y: int)
    requires Congruent(x, y)
    ensures Congruent(x, 0) <==> Congruent(y, 0)
  {
    hide Congruent;
    var k := Multiple(x, y);
    if Congruent(x, 0) {
      var j := Multiple(x, 0);
      CongruentBy(y, 0, j - k);
    }
    if Congruent(y, 0) { CongruentTrans(x, y, 0); }
  }

  lemma HeaderSum(msg: seq<uint8>)
    requires |msg| >= 4
    ensures WordSum(msg) == NetWord(msg[0], 0) + msg[1] + NetWord(msg[2], msg[3]) + WordSum(msg[4..])
  {
    assert msg[2..][2..] == msg[4..];
  }

  // ----- process_packet of af_xdp_user.c -----

  /** Swaps two ranges through a temporary copy. */
  method SwapRanges(pkt: array<uint8>, a: nat, b: nat, n: nat)
    requires a + n <= b && b + n <= pkt.Length
    modifies pkt
    ensures pkt[..] == old(pkt[..a] + pkt[b..b + n] + pkt[a + n..b] + pkt[a..a + n] + pkt[b + n..])
  {
    var tmp := pkt[a..a + n];
    forall i | 0 <= i < n { pkt[a + i] := pkt[b + i]; }
    forall i | 0 <= i < n { pkt[b + i] := tmp[i]; }
  }

  /** Turns an ICMPv6 echo request into its reply; anything else is left alone. */
  method AnswerEcho(pkt: array<uint8>, len: nat, littleEndian: bool) returns (ok: bool)
    requires pkt.Length >= MIN_LEN
    modifies pkt
    ensures ok <==> IsRequest(old(pkt[..]), len)
    ensures !ok ==> pkt[..] == old(pkt[..])
    ensures ok ==> IsReply(old(pkt[..]), pkt[..], littleEndian)
    ensures ok && HasMessage(old(pkt[..])) ==> HasMessage(pkt[..]) && (Verifies(Covered(pkt[..])) <==> Verifies(Covered(old(pkt[..]))))
  {
    if NetWord(pkt[12], pkt[13]) != ETH_P_IPV6 || len < MIN_LEN || pkt[IP6 + 6] != IPPROTO_ICMPV6 || pkt[ICMP] != ICMPV6_ECHO_REQUEST {
      return false;
    }
    ghost var before := pkt[..];
    SwapRanges(pkt, 0, 6, 6);
    SwapRanges(pkt, SRC, DST, 16);
    ghost var swapped: seq<uint8> := pkt[..];
    SwappedHeaders(before, swapped);
    pkt[ICMP] := ICMPV6_ECHO_REPLY;
    var csum := CsumReplace2(Load16(pkt[ICMP + 2], pkt[ICMP + 3], littleEndian),
                             Htons(ICMPV6_ECHO_REQUEST * 256, littleEndian), Htons(ICMPV6_ECHO_REPLY * 256, littleEndian));
    var bytes: (uint8, uint8) := Store16(csum, littleEndian);
    pkt[ICMP + 2], pkt[ICMP + 3] := bytes.0, bytes.1;
    assert pkt[..] == swapped[ICMP := ICMPV6_ECHO_REPLY][ICMP + 2 := bytes.0][ICMP + 3 := bytes.1];
    Patched(before, swapped, pkt[..], csum, littleEndian);
    if HasMessage(before) { ReplyVerifies(before, pkt[..], littleEndian); }
    return true;
  }

  predicate IsRequest(pkt: seq<uint8>, len: nat)
    requires |pkt| >= MIN_LEN
  {
    NetWord(pkt[12], pkt[13]) == ETH_P_IPV6 && len >= MIN_LEN && pkt[IP6 + 6] == IPPROTO_ICMPV6 && pkt[ICMP] == ICMPV6_ECHO_REQUEST
  }

  /** Addresses swapped, everything else as before. */
  ghost predicate Swapped(before: seq<uint8>, after: seq<uint8>) {
    && |after| == |before| >= MIN_LEN
    && after[0..6] == before[6..12] && after[6..12] == before[0..6] && after[12..SRC] == before[12..SRC]
    && after[SRC..DST] == before[DST..ICMP] && after[DST..ICMP] == before[SRC..DST] && after[ICMP..] == before[ICMP..]
  }

  lemma SwappedHeaders(before: seq<uint8>, after: seq<uint8>)
    requires |before| >= MIN_LEN
    requires var mac := before[..0] + before[6..12] + before[6..6] + before[0..6] + before[12..];
      after == mac[..SRC] + mac[DST..DST + 16] + mac[DST..DST] + mac[SRC..DST] + mac[DST + 16..]
    ensures Swapped(before, after)
  {
    var mac := before[..0] + before[6..12] + before[6..6] + before[0..6] + before[12..];
    assert mac == before[6..12] + before[0..6] + before[12..];
    assert mac[0..6] == before[6..12] && mac[6..12] == before[0..6] && mac[12..] == before[12..];
    assert after == mac[..SRC] + mac[DST..ICMP] + mac[SRC..DST] + mac[ICMP..];
    assert after[0..6] == mac[0..6] && after[6..12] == mac[6..12] && after[12..SRC] == mac[12..SRC];
    assert mac[12..SRC] == mac[12..][..SRC - 12] && before[12..SRC] == before[12..][..SRC - 12];
    assert mac[SRC..DST] == before[SRC..DST] && mac[DST..ICMP] == before[DST..ICMP] && mac[ICMP..] == before[ICMP..];
    assert after[SRC..DST] == mac[DST..ICMP] && after[DST..ICMP] == mac[SRC..DST] && after[ICMP..] == mac[ICMP..];
  }

  lemma Patched(before: seq<uint8>, swapped: seq<uint8>, after: seq<uint8>, csum: uint16, littleEndian: bool)
    requires Swapped(before, swapped)
    requires csum == CsumReplace2(Load16(swapped[ICMP + 2], swapped[ICMP + 3], littleEndian),
                                  Htons(ICMPV6_ECHO_REQUEST * 256, littleEndian), Htons(ICMPV6_ECHO_REPLY * 256, littleEndian))
    requires after == swapped[ICMP := ICMPV6_ECHO_REPLY][ICMP + 2 := Store16(csum, littleEndian).0][ICMP + 3 := Store16(csum, littleEndian).1]
    ensures IsReply(before, after, littleEndian)
  {
    assert forall i :: 0 <= i < |before| - ICMP ==> before[ICMP..][i] == swapped[ICMP..][i];
    assert before[ICMP..][0 + 1] == swapped[ICMP..][0 + 1] && before[ICMP..][0 + 2] == swapped[ICMP..][0 + 2] && before[ICMP..][0 + 3] == swapped[ICMP..][0 + 3];
    assert after[0..6] == swapped[0..6] && after[6..12] == swapped[6..12] && after[12..SRC] == swapped[12..SRC];
    assert after[SRC..DST] == swapped[SRC..DST] && after[DST..ICMP] == swapped[DST..ICMP];
    assert after[ICMP + 4..] == swapped[ICMP..][4..] == before[ICMP..][4..];
  }

  // ----- the ICMP patch of the packet03 solution -----

  /** The first four bytes of an ICMP header with a zero checksum, as the host reads them. */
  function Header32(type_: uint8, code: uint8, littleEndian: bool): uint32 {
    if littleEndian then Load16(type_, code, true) else 65536 * Load16(type_, code, false)
  }

  /** What bpf_csum_diff may return: a one's complement sum, whose 32-bit form depends on the machine. */
  ghost predicate IsCsumDiff(from: uint32, to: uint32, seed: uint16, csum: uint32) {
    var total := seed + (0xFFFF_FFFF - from) + to;
    Congruent(csum, total) && (csum == 0 <==> total == 0)
  }

  lemma HeaderWord(type_: uint8, code: uint8, littleEndian: bool)
    ensures Congruent(Header32(type_, code, littleEndian), Load16(type_, code, littleEndian))
    ensures Header32(type_, code, littleEndian) < 0xFFFF_FFFF
  {
    hide Congruent;
    var w: int := NetWord(type_, code);
    CongruentBy(Header32(type_, code, littleEndian), Load16(type_, code, littleEndian), if littleEndian then 0 else w);
  }

  lemma DiffTotal(seed: int, from: int, to: int, m0: int, m1: int)
    requires Congruent(from, m0) && Congruent(to, m1)
    ensures Congruent(seed + (0xFFFF_FFFF - from) + to, seed + (65535 - m0) + m1)
  {
    hide Congruent;
    var j := Multiple(from, m0);
    var k := Multiple(to, m1);
    CongruentBy(seed + (0xFFFF_FFFF - from) + to, seed + (65535 - m0) + m1, 65536 - j + k);
  }

  /** The terms of the 16-bit formula are never all zero, because both words hold the same code. */
  lemma WordsShareCode(type_: uint8, reply: uint8, code: uint8, littleEndian: bool)
    ensures !(Load16(type_, code, littleEndian) == 0xFFFF && Load16(reply, code, littleEndian) == 0)
  {
  }

  /** Diff and fold give exactly the 16-bit formula. */
  lemma DiffFold(sum: uint16, type_: uint8, reply: uint8, code: uint8, csum: uint32, littleEndian: bool)
    requires IsCsumDiff(Header32(type_, code, littleEndian), Header32(reply, code, littleEndian), Not16(sum), csum)
    ensures var m0, m1 := Load16(type_, code, littleEndian), Load16(reply, code, littleEndian);
      CsumFold(csum) == Not16(Csum16Add(Csum16Add(Not16(sum), Not16(m0)), m1))
  {
    var m0: int, m1: int := Load16(type_, code, littleEndian), Load16(reply, code, littleEndian);
    var s: int, n0: int := Not16(sum), Not16(m0);
    WordsShareCode(type_, reply, code, littleEndian);
    HeaderWord(type_, code, littleEndian);
    HeaderWord(reply, code, littleEndian);
    var from: int, to: int := Header32(type_, code, littleEndian), Header32(reply, code, littleEndian);
    var f, g := Not16(CsumFold(csum)), Csum16Add(Csum16Add(s, n0), m1);
    CsumFoldIs(csum);
    FormulaSum(s, n0, m1);
    hide Congruent, Load16, Header32, CsumFold, Csum16Add;
    DiffTotal(s, from, to, m0, m1);
    CongruentTrans(csum, s + (0xFFFF_FFFF - from) + to, s + n0 + m1);
    SumUnique(f, csum, g, s + n0 + m1);
  }

  lemma FormulaSum(s: uint16, n0: uint16, m1: uint16)
    ensures IsSum(Csum16Add(Csum16Add(s, n0), m1), s + n0 + m1)
  {
    hide Congruent, Csum16Add;
    SumItself(s);
    SumItself(n0);
    SumItself(m1);
    Csum16AddIs(s, n0, s, n0);
    var t: int, u: int := s, n0;
    Csum16AddIs(Csum16Add(s, n0), m1, t + u, m1);
  }

  /** The patched header of a message: a new type, the same code, a checksum updated for the change. */
  ghost predicate IsPatched(old': seq<uint8>, new': seq<uint8>, reply: uint8, littleEndian: bool) {
    && |new'| == |old'| >= 4 && new'[0] == reply && new'[1] == old'[1] && new'[4..] == old'[4..]
    && Load16(new'[2], new'[3], littleEndian) ==
       CsumReplace2(Load16(old'[2], old'[3], littleEndian), Load16(old'[0], old'[1], littleEndian), Load16(reply, old'[1], littleEndian))
  }

  /** Patches type and checksum in place, for any faithful bpf_csum_diff. */
  method PatchIcmp(icmp: array<uint8>, reply: uint8, littleEndian: bool, csumDiff: (uint32, uint32, uint16) -> uint32)
    requires icmp.Length >= 4
    requires forall from, to, seed :: IsCsumDiff(from, to, seed, csumDiff(from, to, seed))
    modifies icmp
    ensures IsPatched(old(icmp[..]), icmp[..], reply, littleEndian)
  {
    var oldCsum := Load16(icmp[2], icmp[3], littleEndian);
    ghost var before: seq<uint8> := icmp[..];
    icmp[2], icmp[3] := 0, 0;
    var from := Header32(icmp[0], icmp[1], littleEndian);
    icmp[0] := reply;
    var to := Header32(icmp[0], icmp[1], littleEndian);
    var diff := csumDiff(from, to, Not16(oldCsum));
    var csum := CsumFold(diff);
    DiffFold(oldCsum, before[0], reply, before[1], diff, littleEndian);
    var bytes: (uint8, uint8) := Store16(csum, littleEndian);
    icmp[2], icmp[3] := bytes.0, bytes.1;
    LoadStore(csum, littleEndian);
    assert icmp[4..] == before[4..];
  }

  /** Whether anything but the type and the checksum is non-zero. */
  predicate HasContent(msg: seq<uint8>)
    requires |msg| >= 4
  {
    msg[1] > 0 || WordSum(msg[4..]) > 0
  }

  /** A patched message has the same sum as before modulo 65535. */
  lemma PatchedSum(old': seq<uint8>, new': seq<uint8>, reply: uint8, littleEndian: bool)
    requires IsPatched(old', new', reply, littleEndian)
    ensures Congruent(WordSum(new'), WordSum(old'))
  {
    hide Load16, CsumReplace2, WordSum, NetWord, Congruent;
    var c: int, c': int := Load16(old'[2], old'[3], littleEndian), Load16(new'[2], new'[3], littleEndian);
    CsumReplace2Is(c, Load16(old'[0], old'[1], littleEndian), Load16(reply, old'[1], littleEndian));
    SplitLoad(old'[0], old'[1], littleEndian);
    SplitLoad(reply, old'[1], littleEndian);
    CancelRight(c' + Load16(reply, 0, littleEndian), c + Load16(old'[0], 0, littleEndian), Load16(0, old'[1], littleEndian));
    ByteChange(old'[2], old'[3], old'[0], new'[2], new'[3], new'[0], littleEndian);
    HeaderSum(old');
    HeaderSum(new');
    var rest := old'[1] + WordSum(old'[4..]);
    CongruentBy(rest, rest, 0);
    CongruentAdd(NetWord(new'[2], new'[3]) + NetWord(new'[0], 0), NetWord(old'[2], old'[3]) + NetWord(old'[0], 0), rest, rest);
  }

  lemma SplitLoad(b0: uint8, b1: uint8, littleEndian: bool)
    ensures Load16(b0, b1, littleEndian) == Load16(b0, 0, littleEndian) + Load16(0, b1, littleEndian)
  {
  }

  lemma CancelRight(x: int, y: int, k: int)
    requires Congruent(x + k, y + k)
    ensures Congruent(x, y)
  {
  }

  /** A patched message verifies if it did before and is not all zero; a patch to type 0, an ICMP echo reply, gives a
      message that is all zero, and does not verify, exactly when a verifying request had no other content. */
  lemma PatchedVerifies(old': seq<uint8>, new': seq<uint8>, reply: uint8, littleEndian: bool)
    requires IsPatched(old', new', reply, littleEndian) && Verifies(old') && old'[0] > 0
    ensures Verifies(new') <==> reply > 0 || HasContent(old')
  {
    PatchedSum(old', new', reply, littleEndian);
    VerifiesIs(old');
    VerifiesIs(new');
    HeaderSum(new');
    HeaderSum(old');
    CongruentZero(WordSum(new'), WordSum(old'));
    if reply == 0 && !HasContent(old') { EmptyReply(old', new', littleEndian); }
  }

  lemma EmptyReply(old': seq<uint8>, new': seq<uint8>, littleEndian: bool)
    requires IsPatched(old', new', 0, littleEndian) && Verifies(old') && old'[0] > 0 && !HasContent(old')
    ensures WordSum(new') == 0
  {
    VerifiesIs(old');
    HeaderSum(old');
    HeaderSum(new');
    var t := old'[0];
    var k := Multiple(WordSum(old'), 0);
    assert k == 1 && old'[2] == 255 - t && old'[3] == 255;
    var c: int, w: int := Load16(old'[2], old'[3], littleEndian), Load16(t, 0, littleEndian);
    assert c + w == 65535;
    EndAroundCarry(Not16(c), Not16(w));
    EndAroundCarry(65535, 0);
    assert CsumReplace2(c, w, 0) == 0;
  }

  // ----- the router -----

  /** ip_decrease_ttl: one hop less, and a checksum that verifies exactly when it did before. */
  method DecreaseTtl(iph: array<uint8>, littleEndian: bool)
    requires iph.Length >= 20 && iph[8] > 1
    modifies iph
    ensures iph.Length == |old(iph[..])| && iph[8] == old(iph[8]) - 1
    ensures forall i :: 0 <= i < iph.Length && i !in {8, 10, 11} ==> iph[i] == old(iph[i])
    ensures Verifies(iph[..]) <==> Verifies(old(iph[..]))
  {
    ghost var before: seq<uint8> := iph[..];
    var check: uint32 := Load16(iph[10], iph[11], littleEndian);
    var sum: nat := check + Htons(0x0100, littleEndian);
    var csum: uint16 := (sum + if sum >= 0xFFFF then 1 else 0) % 65536;
    var bytes: (uint8, uint8) := Store16(csum, littleEndian);
    iph[10], iph[11] := bytes.0, bytes.1;
    iph[8] := iph[8] - 1;
    LoadStore(csum, littleEndian);
    assert iph[..] == before[10 := bytes.0][11 := bytes.1][8 := before[8] - 1];
    TtlVerifies(before, iph[..], littleEndian);
  }

  /** The router's treatment of an IPv4 header for which it has a route: a TTL of at most one is not forwarded. */
  method RouteIpv4(iph: array<uint8>, littleEndian: bool) returns (forwarded: bool)
    requires iph.Length >= 20
    modifies iph
    ensures forwarded <==> old(iph[8]) > 1
    ensures !forwarded ==> iph[..] == old(iph[..])
    ensures forwarded ==> iph[8] == old(iph[8]) - 1 >= 1
    ensures forall i :: 0 <= i < iph.Length && i !in {8, 10, 11} ==> iph[i] == old(iph[i])
    ensures Verifies(iph[..]) <==> Verifies(old(iph[..]))
  {
    hide Verifies;
    if iph[8] <= 1 { return false; }
    DecreaseTtl(iph, littleEndian);
    return true;
  }

  /** The header after one hop. */
  ghost predicate OneHop(old': seq<uint8>, new': seq<uint8>, littleEndian: bool) {
    && |new'| == |old'| >= 20 && old'[8] > 1 && new'[8] == old'[8] - 1
    && new' == old'[10 := new'[10]][11 := new'[11]][8 := new'[8]]
    && var sum := Load16(old'[10], old'[11], littleEndian) + Htons(0x0100, littleEndian);
       Load16(new'[10], new'[11], littleEndian) == (sum + if sum >= 0xFFFF then 1 else 0) % 65536
  }

  lemma TtlVerifies(old': seq<uint8>, new': seq<uint8>, littleEndian: bool)
    requires OneHop(old', new', littleEndian)
    ensures Verifies(new') <==> Verifies(old')
  {
    VerifiesIs(old');
    VerifiesIs(new');
    WordSumPositive(old', 8);
    WordSumPositive(new', 8);
    TtlSum(old', new', littleEndian);
    CongruentZero(WordSum(new'), WordSum(old'));
  }

  lemma TtlWord(old': seq<uint8>, new': seq<uint8>, littleEndian: bool)
    requires OneHop(old', new', littleEndian)
    ensures Congruent(Load16(new'[10], new'[11], littleEndian) + Load16(new'[8], 0, littleEndian),
                      Load16(old'[10], old'[11], littleEndian) + Load16(old'[8], 0, littleEndian))
  {
    var c: int, c': int := Load16(old'[10], old'[11], littleEndian), Load16(new'[10], new'[11], littleEndian);
    var t: int, one: int := Load16(new'[8], 0, littleEndian), Htons(0x0100, littleEndian);
    assert one == Load16(1, 0, littleEndian);
    assert Load16(old'[8], 0, littleEndian) == t + one;
    CarryOnce(c, one, c');
    hide Load16, Htons, Congruent;
    CongruentBy(c' + t, c + (t + one), if c + one >= 0xFFFF then -1 else 0);
  }

  lemma CarryOnce(c: int, one: int, c': int)
    requires 0 <= c < 65536 && 0 <= one <= 0x0100 && c' == (c + one + if c + one >= 0xFFFF then 1 else 0) % 65536
    ensures c' == if c + one >= 0xFFFF then c + one - 65535 else c + one
  {
  }

  lemma TtlSum(old': seq<uint8>, new': seq<uint8>, littleEndian: bool)
    requires OneHop(old', new', littleEndian)
    ensures Congruent(WordSum(new'), WordSum(old'))
  {
    TtlWord(old', new', littleEndian);
    ByteChange(old'[10], old'[11], old'[8], new'[10], new'[11], new'[8], littleEndian);
    HopSum(old', new', littleEndian);
    hide WordSum, NetWord, Load16, Htons, Congruent;
    var a: int, b: int := NetWord(old'[10], old'[11]) as int + NetWord(old'[8], 0), NetWord(new'[10], new'[11]) as int + NetWord(new'[8], 0);
    var k := Multiple(b, a);
    CongruentBy(WordSum(new'), WordSum(old'), k);
  }

  lemma HopSum(old': seq<uint8>, new': seq<uint8>, littleEndian: bool)
    requires OneHop(old', new', littleEndian)
    ensures WordSum(new') + (NetWord(old'[10], old'[11]) + NetWord(old'[8], 0)) ==
            WordSum(old') + (NetWord(new'[10], new'[11]) + NetWord(new'[8], 0))
  {
    hide WordSum, Htons;
    var a := old'[10 := new'[10]];
    var b := a[11 := new'[11]];
    WordSumUpdate(old', 10, new'[10]);
    WordSumUpdate(a, 11, new'[11]);
    WordSumUpdate(b, 8, new'[8]);
  }
}
