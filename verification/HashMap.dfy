/**
 libbpf's generic hash map: chained buckets, a power-of-two capacity that doubles when the
 table gets more than three quarters full, and four insertion strategies. A chain is a
 sequence whose first element is the head of the linked list.
 */
module HashMap {
  import opened Machine

  const MIN_CAP_BITS: nat := 2

  lemma {:induction false} ShiftRightBelow(x: nat, n: nat, bits: nat)
    requires x < Pow2(bits + n)
    ensures ShiftRight(x, n) < Pow2(bits)
    decreases n
  {
    if n > 0 { ShiftRightBelow(x / 2, n - 1, bits); }
  }

  function Shuffle(h: nat): (r: nat)
    ensures r < WORD64
  {
    h * 11400714819323198485 % WORD64
  }

  /** The upper `bits` bits of the shuffled hash. */
  function HashBits(h: nat, bits: nat): nat
    requires bits <= 64
  {
    ShiftRight(Shuffle(h), 64 - bits)
  }

  /** The selected bucket always exists. */
  lemma HashBitsBelow(h: nat, bits: nat)
    requires bits <= 64
    ensures HashBits(h, bits) < Pow2(bits)
  {
    Pow2Words();
    ShiftRightBelow(Shuffle(h), 64 - bits, bits);
  }

  /** The multiplier is the golden ratio of 64-bit words. */
  lemma HashBitsKnown()
    ensures HashBits(1, 60) == 0x9E3779B97F4A7C1 && HashBits(3, 62) == 0x36A99B4B1F77DD0F
  {
    assert Shuffle(1) == 0x9E3779B97F4A7C15 && Shuffle(3) == 0xDAA66D2C7DDF743F;
    assert ShiftRight(Shuffle(1), 4) == ShiftRight(Shuffle(1) / 2, 3) == ShiftRight(Shuffle(1) / 4, 2) == Shuffle(1) / 16;
    assert ShiftRight(Shuffle(3), 2) == Shuffle(3) / 4;
  }

  /** One more entry makes a table of `cap` buckets more than three quarters full. */
  predicate Due(sz: nat, cap: nat) { cap == 0 || 4 * (sz + 1) > 3 * cap }

  lemma Pow2Quarter(bits: nat)
    requires bits >= 2
    ensures Pow2(bits) == 4 * Pow2(bits - 2)
  {
    assert Pow2(bits) == 2 * Pow2(bits - 1) && Pow2(bits - 1) == 2 * Pow2(bits - 2);
  }

  lemma Rounded(n: nat, cap: nat, quarter: nat)
    requires cap == 4 * quarter
    ensures n * 4 / 3 > cap <==> 4 * n > 3 * cap
  {
  }

  datatype Entry<K, V> = Entry(key: K, value: V)

  datatype Strategy = Add | Set | Update | Append

  /** All entries of a table. */
  ghost function Entries<K, V>(bs: seq<seq<Entry<K, V>>>): multiset<Entry<K, V>> {
    if bs == [] then multiset{} else Entries(bs[..|bs| - 1]) + multiset(bs[|bs| - 1])
  }

  lemma {:induction false} EntriesUpdate<K, V>(bs: seq<seq<Entry<K, V>>>, i: nat, c: seq<Entry<K, V>>)
    requires i < |bs|
    ensures multiset(bs[i]) <= Entries(bs)
    ensures Entries(bs[i := c]) == Entries(bs) - multiset(bs[i]) + multiset(c)
    decreases |bs|
  {
    var n := |bs| - 1;
    if i < n {
      EntriesUpdate(bs[..n], i, c);
      assert bs[i := c][..n] == bs[..n][i := c];
    } else {
      assert bs[i := c][..n] == bs[..n];
    }
  }

  lemma {:induction false} EntriesEmpty<K, V>(bs: seq<seq<Entry<K, V>>>)
    requires forall i :: 0 <= i < |bs| ==> bs[i] == []
    ensures Entries(bs) == multiset{}
    decreases |bs|
  {
    if bs != [] { EntriesEmpty(bs[..|bs| - 1]); }
  }

  lemma {:induction false} EntriesSplit<K, V>(bs: seq<seq<Entry<K, V>>>, i: nat)
    requires i < |bs|
    ensures Entries(bs[..i + 1]) == Entries(bs[..i]) + multiset(bs[i])
  {
    assert bs[..i + 1][..i] == bs[..i];
  }

  lemma {:induction false} EntryIn<K, V>(bs: seq<seq<Entry<K, V>>>, e: Entry<K, V>)
    ensures e in Entries(bs) <==> exists i :: 0 <= i < |bs| && e in bs[i]
    decreases |bs|
  {
    if bs != [] {
      var n := |bs| - 1;
      EntryIn(bs[..n], e);
      if e in Entries(bs[..n]) {
        var i :| 0 <= i < n && e in bs[..n][i];
        assert e in bs[i];
      }
      if i :| 0 <= i < |bs| && e in bs[i] {
        if i < n { assert e in bs[..n][i]; }
      }
    }
  }

  /** Key equality is an equivalence that the hash respects, as callers must provide. */
  ghost predicate KeysOk<K(!new)>(hash: K -> nat, eq: (K, K) -> bool) {
    && (forall a :: eq(a, a))
    && (forall a, b :: eq(a, b) ==> eq(b, a) && hash(a) == hash(b))
    && (forall a, b, c :: eq(a, b) && eq(b, c) ==> eq(a, c))
  }

  lemma KeysSymmetric<K(!new)>(hash: K -> nat, eq: (K, K) -> bool)
    requires KeysOk(hash, eq)
    ensures forall a, b :: eq(a, b) ==> eq(b, a)
  {
  }

  lemma KeyIsItself<K(!new)>(hash: K -> nat, eq: (K, K) -> bool, key: K)
    requires KeysOk(hash, eq)
    ensures eq(key, key)
  {
  }

  ghost predicate HasKey<K, V(!new)>(m: multiset<Entry<K, V>>, eq: (K, K) -> bool, key: K) {
    exists e :: e in m && eq(e.key, key)
  }

  /** Every entry is in the bucket its hash selects. */
  ghost predicate InPlace<K, V>(bs: seq<seq<Entry<K, V>>>, hash: K -> nat, bits: nat)
    requires bits <= 64
  {
    forall i, e :: 0 <= i < |bs| && e in bs[i] ==> HashBits(hash(e.key), bits) == i
  }

  /** A key missing from its bucket is missing from the table. */
  lemma KeyOnlyInBucket<K(!new), V>(bs: seq<seq<Entry<K, V>>>, hash: K -> nat, eq: (K, K) -> bool, bits: nat, key: K)
    requires KeysOk(hash, eq) && bits <= 64 && |bs| == Pow2(bits) && InPlace(bs, hash, bits)
    ensures HashBits(hash(key), bits) < |bs|
    ensures forall e :: e in Entries(bs) && eq(e.key, key) ==> e in bs[HashBits(hash(key), bits)]
  {
    HashBitsBelow(hash(key), bits);
    forall e | e in Entries(bs) && eq(e.key, key) ensures e in bs[HashBits(hash(key), bits)] {
      EntryIn(bs, e);
    }
  }

  // ----- what the operations mean for a map and a multimap -----

  /** No two entries have equal keys: the table is a map. */
  ghost predicate UniqueKeys<K, V(!new)>(m: multiset<Entry<K, V>>, eq: (K, K) -> bool) {
    && (forall e :: e in m ==> m[e] == 1)
    && (forall e, f :: e in m && f in m && eq(e.key, f.key) ==> e == f)
  }

  lemma AddKeepsUnique<K(!new), V(!new)>(m: multiset<Entry<K, V>>, hash: K -> nat, eq: (K, K) -> bool, e: Entry<K, V>)
    requires KeysOk(hash, eq) && UniqueKeys(m, eq) && !HasKey(m, eq, e.key)
    ensures UniqueKeys(m + multiset{e}, eq)
  {
    assert e !in m by { assert eq(e.key, e.key); }
    assert forall f :: f in m ==> !eq(f.key, e.key) && !eq(e.key, f.key);
  }

  lemma ReplaceKeepsUnique<K(!new), V(!new)>(m: multiset<Entry<K, V>>, hash: K -> nat, eq: (K, K) -> bool,
                                             e: Entry<K, V>, f: Entry<K, V>)
    requires KeysOk(hash, eq) && UniqueKeys(m, eq) && e in m && eq(e.key, f.key)
    ensures UniqueKeys(m - multiset{e} + multiset{f}, eq)
  {
    var rest := m - multiset{e};
    assert UniqueKeys(rest, eq);
    forall g | g in rest ensures !eq(g.key, f.key) {
      assert eq(g.key, f.key) ==> eq(g.key, e.key);
    }
    AddKeepsUnique(rest, hash, eq, f);
  }

  lemma RemoveKeepsUnique<K(!new), V(!new)>(m: multiset<Entry<K, V>>, hash: K -> nat, eq: (K, K) -> bool, e: Entry<K, V>, key: K)
    requires KeysOk(hash, eq) && UniqueKeys(m, eq) && e in m && eq(e.key, key)
    ensures UniqueKeys(m - multiset{e}, eq) && !HasKey(m - multiset{e}, eq, key)
  {
    var rest := m - multiset{e};
    forall f | f in rest ensures f in m && f != e && !eq(f.key, key) {
      assert eq(f.key, key) ==> eq(f.key, e.key);
    }
  }

  /** The part of a chain whose keys match. */
  ghost function Matching<K, V>(c: seq<Entry<K, V>>, eq: (K, K) -> bool, key: K): seq<Entry<K, V>> {
    if c == [] then []
    else Matching(c[..|c| - 1], eq, key) + if eq(c[|c| - 1].key, key) then [c[|c| - 1]] else []
  }

  lemma MatchingNone<K, V>(c: seq<Entry<K, V>>, eq: (K, K) -> bool, key: K)
    ensures Matching(c[..0], eq, key) == []
  {
  }

  lemma MatchingStep<K, V>(c: seq<Entry<K, V>>, eq: (K, K) -> bool, key: K, j: nat)
    requires j < |c|
    ensures Matching(c[..j + 1], eq, key) == Matching(c[..j], eq, key) + if eq(c[j].key, key) then [c[j]] else []
  {
    assert c[..j + 1][..j] == c[..j];
  }

  lemma {:induction false} MatchingCount<K, V>(c: seq<Entry<K, V>>, eq: (K, K) -> bool, key: K, e: Entry<K, V>)
    ensures multiset(Matching(c, eq, key))[e] == if eq(e.key, key) then multiset(c)[e] else 0
    decreases |c|
  {
    if c != [] {
      var n := |c| - 1;
      MatchingCount(c[..n], eq, key, e);
      assert c == c[..n] + [c[n]];
    }
  }

  lemma ChainUpdate<K, V>(c: seq<Entry<K, V>>, i: nat, e: Entry<K, V>)
    requires i < |c|
    ensures multiset(c[i := e]) == multiset(c) - multiset{c[i]} + multiset{e}
  {
  }

  lemma ChainRemove<K, V>(c: seq<Entry<K, V>>, i: nat)
    requires i < |c|
    ensures multiset(c[..i] + c[i + 1..]) == multiset(c) - multiset{c[i]}
  {
    assert c == c[..i] + [c[i]] + c[i + 1..];
  }

  /** Entries occur outside the bucket their hash selects zero times. */
  lemma {:induction false} CountInPrefix<K, V>(bs: seq<seq<Entry<K, V>>>, hash: K -> nat, bits: nat, e: Entry<K, V>, n: nat)
    requires bits <= 64 && n <= |bs| && InPlace(bs, hash, bits)
    ensures Entries(bs[..n])[e] == if HashBits(hash(e.key), bits) < n then multiset(bs[HashBits(hash(e.key), bits)])[e] else 0
    decreases n
  {
    if n > 0 {
      CountInPrefix(bs, hash, bits, e, n - 1);
      EntriesSplit(bs, n - 1);
      if HashBits(hash(e.key), bits) != n - 1 { assert e !in bs[n - 1]; }
    }
  }

  lemma KeyCount<K(!new), V>(bs: seq<seq<Entry<K, V>>>, hash: K -> nat, eq: (K, K) -> bool, bits: nat, key: K, e: Entry<K, V>)
    requires KeysOk(hash, eq) && bits <= 64 && |bs| == Pow2(bits) && InPlace(bs, hash, bits)
    ensures HashBits(hash(key), bits) < |bs|
    ensures eq(e.key, key) ==> Entries(bs)[e] == multiset(bs[HashBits(hash(key), bits)])[e]
  {
    HashBitsBelow(hash(key), bits);
    assert bs[..|bs|] == bs;
    CountInPrefix(bs, hash, bits, e, |bs|);
  }

  lemma InPlaceUpdate<K, V>(bs: seq<seq<Entry<K, V>>>, hash: K -> nat, bits: nat, h: nat, c: seq<Entry<K, V>>)
    requires bits <= 64 && h < |bs| && InPlace(bs, hash, bits)
    requires forall e :: e in c ==> e in bs[h] || HashBits(hash(e.key), bits) == h
    ensures InPlace(bs[h := c], hash, bits)
  {
  }

  lemma NothingMisplaced<K, V>(bs: seq<seq<Entry<K, V>>>, hash: K -> nat, bits: nat)
    requires bits <= 64 && forall i :: 0 <= i < |bs| ==> bs[i] == []
    ensures InPlace(bs, hash, bits)
  {
  }

  lemma EntriesStart<K, V>(bs: seq<seq<Entry<K, V>>>)
    ensures Entries(bs[..0]) == multiset{}
  {
  }

  lemma ReplaceInTable<K, V>(bs: seq<seq<Entry<K, V>>>, hash: K -> nat, bits: nat, h: nat, i: nat, e: Entry<K, V>)
    requires bits <= 64 && h < |bs| && i < |bs[h]| && InPlace(bs, hash, bits)
    requires HashBits(hash(e.key), bits) == h
    ensures var bs' := bs[h := bs[h][i := e]];
      && InPlace(bs', hash, bits) && |Entries(bs')| == |Entries(bs)|
      && Entries(bs') == Entries(bs) - multiset{bs[h][i]} + multiset{e}
  {
    hide InPlace, Entries, HashBits;
    var c := bs[h];
    EntriesUpdate(bs, h, c[i := e]);
    ChainUpdate(c, i, e);
    assert c[i] in multiset(c);
    InPlaceUpdate(bs, hash, bits, h, c[i := e]);
  }

  lemma UnlinkInTable<K, V>(bs: seq<seq<Entry<K, V>>>, hash: K -> nat, bits: nat, h: nat, i: nat)
    requires bits <= 64 && h < |bs| && i < |bs[h]| && InPlace(bs, hash, bits)
    ensures var bs' := bs[h := bs[h][..i] + bs[h][i + 1..]];
      && InPlace(bs', hash, bits) && |Entries(bs')| == |Entries(bs)| - 1
      && Entries(bs') == Entries(bs) - multiset{bs[h][i]}
  {
    hide InPlace, Entries, HashBits;
    var c := bs[h];
    EntriesUpdate(bs, h, c[..i] + c[i + 1..]);
    ChainRemove(c, i);
    assert c[i] in multiset(c);
    InPlaceUpdate(bs, hash, bits, h, c[..i] + c[i + 1..]);
  }

  // ----- the order of the entries under one key -----

  ghost function Rev<T>(s: seq<T>): seq<T> { seq(|s|, i requires 0 <= i < |s| => s[|s| - 1 - i]) }

  lemma RevSnoc<T>(s: seq<T>, x: T)
    ensures Rev(s + [x]) == [x] + Rev(s)
  {
  }

  lemma RevNone<T>()
    ensures Rev<T>([]) == []
  {
  }

  lemma RevEnds<T>(s: seq<T>)
    requires s != []
    ensures |Rev(s)| == |s| && Rev(s)[0] == s[|s| - 1]
  {
  }

  lemma RevRev<T>(s: seq<T>)
    ensures Rev(Rev(s)) == s
  {
  }

  /** The entries under a key, in the order in which a search meets them. */
  ghost function KeyChain<K, V>(bs: seq<seq<Entry<K, V>>>, hash: K -> nat, eq: (K, K) -> bool, bits: nat, key: K): seq<Entry<K, V>>
    requires bits <= 64
  {
    var h := HashBits(hash(key), bits);
    if h < |bs| then Matching(bs[h], eq, key) else []
  }

  lemma {:induction false} MatchingConcat<K, V>(a: seq<Entry<K, V>>, b: seq<Entry<K, V>>, eq: (K, K) -> bool, key: K)
    ensures Matching(a + b, eq, key) == Matching(a, eq, key) + Matching(b, eq, key)
    decreases |b|
  {
    if b == [] {
      assert a + b == a;
    } else {
      var n := |b| - 1;
      MatchingConcat(a, b[..n], eq, key);
      assert (a + b)[..|a + b| - 1] == a + b[..n] && (a + b)[|a + b| - 1] == b[n];
    }
  }

  lemma MatchingOne<K, V>(e: Entry<K, V>, eq: (K, K) -> bool, key: K)
    ensures Matching([e], eq, key) == if eq(e.key, key) then [e] else []
  {
    assert [e][..0] == [];
  }

  /** Equal keys have the same entries. */
  lemma {:induction false} MatchingSame<K(!new), V>(c: seq<Entry<K, V>>, hash: K -> nat, eq: (K, K) -> bool, key: K, key': K)
    requires KeysOk(hash, eq) && eq(key, key')
    ensures Matching(c, eq, key) == Matching(c, eq, key')
    decreases |c|
  {
    if c != [] {
      var n := |c| - 1;
      MatchingSame(c[..n], hash, eq, key, key');
      assert eq(c[n].key, key) <==> eq(c[n].key, key');
    }
  }

  lemma {:induction false} MatchingNothing<K, V>(c: seq<Entry<K, V>>, eq: (K, K) -> bool, key: K)
    requires forall j :: 0 <= j < |c| ==> !eq(c[j].key, key)
    ensures Matching(c, eq, key) == []
    decreases |c|
  {
    if c != [] { MatchingNothing(c[..|c| - 1], eq, key); }
  }

  /** A new head of a chain is the first entry under its key. */
  lemma Prepended<K(!new), V>(bs: seq<seq<Entry<K, V>>>, hash: K -> nat, eq: (K, K) -> bool, bits: nat, h: nat, e: Entry<K, V>, key: K)
    requires KeysOk(hash, eq) && bits <= 64 && h < |bs| && HashBits(hash(e.key), bits) == h
    ensures KeyChain(bs[h := [e] + bs[h]], hash, eq, bits, key) ==
            (if eq(e.key, key) then [e] else []) + KeyChain(bs, hash, eq, bits, key)
  {
    MatchingConcat([e], bs[h], eq, key);
    MatchingOne(e, eq, key);
    hide HashBits, Matching;
  }

  /** An entry whose key matches neither before nor after makes no difference. */
  lemma MatchingAround<K, V>(c: seq<Entry<K, V>>, eq: (K, K) -> bool, key: K, i: nat, mid: seq<Entry<K, V>>)
    requires i < |c|
    ensures Matching(c, eq, key) == Matching(c[..i], eq, key) + Matching([c[i]], eq, key) + Matching(c[i + 1..], eq, key)
    ensures Matching(c[..i] + mid + c[i + 1..], eq, key) == Matching(c[..i], eq, key) + Matching(mid, eq, key) + Matching(c[i + 1..], eq, key)
  {
    hide Matching;
    assert c == c[..i] + [c[i]] + c[i + 1..];
    MatchingConcat(c[..i] + [c[i]], c[i + 1..], eq, key);
    MatchingConcat(c[..i], [c[i]], eq, key);
    MatchingConcat(c[..i] + mid, c[i + 1..], eq, key);
    MatchingConcat(c[..i], mid, eq, key);
  }

  /** What a key's entries become when the first one, found under `key`, gives way to `mid`. */
  ghost function Instead<K, V>(olds: seq<Entry<K, V>>, hit: bool, mid: seq<Entry<K, V>>): seq<Entry<K, V>> {
    if hit && olds != [] then mid + olds[1..] else olds
  }

  /** Exchanging the first entry found under a key for `mid`, which is empty or an entry under that key. */
  lemma Exchanged<K(!new), V>(bs: seq<seq<Entry<K, V>>>, hash: K -> nat, eq: (K, K) -> bool, bits: nat, h: nat, i: nat, key: K,
                              mid: seq<Entry<K, V>>, k: K)
    requires KeysOk(hash, eq) && bits <= 64 && h < |bs| && i < |bs[h]| && InPlace(bs, hash, bits) && HashBits(hash(key), bits) == h
    requires eq(bs[h][i].key, key) && (forall j :: 0 <= j < i ==> !eq(bs[h][j].key, key))
    requires mid == [] || (|mid| == 1 && eq(mid[0].key, key))
    ensures KeyChain(bs[h := bs[h][..i] + mid + bs[h][i + 1..]], hash, eq, bits, k) ==
            Instead(KeyChain(bs, hash, eq, bits, k), eq(key, k), mid)
    ensures eq(key, k) ==> KeyChain(bs, hash, eq, bits, k) != [] && KeyChain(bs, hash, eq, bits, k)[0] == bs[h][i]
  {
    var c := bs[h];
    MatchingAround(c, eq, k, i, mid);
    MatchingOne(c[i], eq, k);
    if mid != [] { MatchingOne(mid[0], eq, k); assert mid == [mid[0]]; }
    assert c[i] in bs[h];
    if eq(key, k) {
      forall j | 0 <= j < |c[..i]| ensures !eq(c[..i][j].key, k) { }
      MatchingNothing(c[..i], eq, k);
      assert eq(c[i].key, k) && hash(key) == hash(k);
    } else {
      assert !eq(c[i].key, k);
    }
    hide HashBits, Matching, InPlace;
  }

  /** The keys of every chain keep their entries, in reverse order and in front of what was there. */
  ghost predicate MovedOrder<K(!new), V>(bs: seq<seq<Entry<K, V>>>, bs': seq<seq<Entry<K, V>>>, chain: seq<Entry<K, V>>,
                                         hash: K -> nat, eq: (K, K) -> bool, bits: nat)
    requires bits <= 64
  {
    forall key :: KeyChain(bs', hash, eq, bits, key) == Rev(Matching(chain, eq, key)) + KeyChain(bs, hash, eq, bits, key)
  }

  lemma MovedNone<K(!new), V>(bs: seq<seq<Entry<K, V>>>, hash: K -> nat, eq: (K, K) -> bool, bits: nat)
    requires bits <= 64
    ensures MovedOrder(bs, bs, [], hash, eq, bits)
  {
  }

  lemma MovedStep<K(!new), V>(bs: seq<seq<Entry<K, V>>>, bs': seq<seq<Entry<K, V>>>, chain: seq<Entry<K, V>>, j: nat,
                              hash: K -> nat, eq: (K, K) -> bool, bits: nat, h: nat)
    requires KeysOk(hash, eq) && bits <= 64 && j < |chain| && MovedOrder(bs, bs', chain[..j], hash, eq, bits)
    requires h < |bs'| && HashBits(hash(chain[j].key), bits) == h
    ensures MovedOrder(bs, bs'[h := [chain[j]] + bs'[h]], chain[..j + 1], hash, eq, bits)
  {
    hide HashBits, Matching, KeyChain, Rev, KeysOk;
    var e := chain[j];
    forall key ensures KeyChain(bs'[h := [e] + bs'[h]], hash, eq, bits, key) ==
                       Rev(Matching(chain[..j + 1], eq, key)) + KeyChain(bs, hash, eq, bits, key) {
      Prepended(bs', hash, eq, bits, h, e, key);
      MatchingStep(chain, eq, key, j);
      var m, rest := Matching(chain[..j], eq, key), KeyChain(bs, hash, eq, bits, key);
      assert KeyChain(bs', hash, eq, bits, key) == Rev(m) + rest;
      if eq(e.key, key) {
        RevSnoc(m, e);
        assert [e] + (Rev(m) + rest) == ([e] + Rev(m)) + rest;
      } else {
        assert m + [] == m && [] + (Rev(m) + rest) == Rev(m) + rest;
      }
    }
  }

  /** The chains below `n` are moved: their keys have their entries in reverse order, the other keys have none yet. */
  ghost predicate RehashedOrder<K(!new), V>(t: seq<seq<Entry<K, V>>>, bits: nat, bs: seq<seq<Entry<K, V>>>, bits': nat, n: nat,
                                            hash: K -> nat, eq: (K, K) -> bool)
    requires bits <= 64 && bits' <= 64
  {
    forall key :: KeyChain(bs, hash, eq, bits', key) ==
      if HashBits(hash(key), bits) < n then Rev(KeyChain(t, hash, eq, bits, key)) else []
  }

  lemma RehashedNone<K(!new), V>(t: seq<seq<Entry<K, V>>>, bits: nat, bs: seq<seq<Entry<K, V>>>, bits': nat, hash: K -> nat, eq: (K, K) -> bool)
    requires bits <= 64 && bits' <= 64 && forall i :: 0 <= i < |bs| ==> bs[i] == []
    ensures RehashedOrder(t, bits, bs, bits', 0, hash, eq)
  {
    hide HashBits;
  }

  lemma RehashedStep<K(!new), V>(t: seq<seq<Entry<K, V>>>, bits: nat, bs: seq<seq<Entry<K, V>>>, bs': seq<seq<Entry<K, V>>>, bits': nat, n: nat,
                                 hash: K -> nat, eq: (K, K) -> bool)
    requires KeysOk(hash, eq) && bits <= 64 && bits' <= 64 && n < |t| && InPlace(t, hash, bits)
    requires RehashedOrder(t, bits, bs, bits', n, hash, eq) && MovedOrder(bs, bs', t[n], hash, eq, bits')
    ensures RehashedOrder(t, bits, bs', bits', n + 1, hash, eq)
  {
    forall key ensures KeyChain(bs', hash, eq, bits', key) ==
                       if HashBits(hash(key), bits) < n + 1 then Rev(KeyChain(t, hash, eq, bits, key)) else [] {
      hide Matching;
      assert KeyChain(bs', hash, eq, bits', key) == Rev(Matching(t[n], eq, key)) + KeyChain(bs, hash, eq, bits', key);
      if HashBits(hash(key), bits) != n {
        forall j | 0 <= j < |t[n]| ensures !eq(t[n][j].key, key) { assert t[n][j] in t[n]; }
        MatchingNothing(t[n], eq, key);
      }
    }
  }

  lemma RehashedAll<K(!new), V>(t: seq<seq<Entry<K, V>>>, bits: nat, bs: seq<seq<Entry<K, V>>>, bits': nat,
                                hash: K -> nat, eq: (K, K) -> bool, key: K)
    requires bits <= 64 && bits' <= 64 && (|t| == Pow2(bits) || t == []) && RehashedOrder(t, bits, bs, bits', |t|, hash, eq)
    ensures KeyChain(bs, hash, eq, bits', key) == Rev(KeyChain(t, hash, eq, bits, key))
  {
    hide HashBits, Matching;
    HashBitsBelow(hash(key), bits);
  }

  /** What a key's entries become when an entry `e` is inserted; `hit` says whether it is the key of `e`. */
  ghost function AfterInsert<K, V>(olds: seq<Entry<K, V>>, hit: bool, e: Entry<K, V>, found: bool, strategy: Strategy, r: int, grew: bool): seq<Entry<K, V>> {
    if found then (if strategy == Add then olds else Instead(olds, hit, [e]))
    else (if r == 0 && hit then [e] else []) + (if grew then Rev(olds) else olds)
  }

  lemma MatchesExist<K, V>(c: seq<Entry<K, V>>, eq: (K, K) -> bool, key: K, i: nat)
    requires i < |c| && eq(c[i].key, key) && forall j :: 0 <= j < i ==> !eq(c[j].key, key)
    ensures Matching(c, eq, key) != [] && Matching(c, eq, key)[0] == c[i]
  {
    MatchingAround(c, eq, key, i, []);
    MatchingOne(c[i], eq, key);
    MatchingNothing(c[..i], eq, key);
    hide Matching;
  }

  // ----- operations in a row -----

  datatype Op<K, V> =
    | InsertOp(key: K, value: V, strategy: Strategy, bucketsOk: bool, entryOk: bool)
    | DeleteOp(key: K)
  {
    predicate Appends() { InsertOp? && strategy == Append }
  }

  /** What an operation does to a multiset of entries. A deletion returns 1 or 0. */
  ghost predicate IsStep<K(!new), V(!new)>(m: multiset<Entry<K, V>>, eq: (K, K) -> bool, op: Op<K, V>, r: int, m': multiset<Entry<K, V>>) {
    match op
    case InsertOp(key, value, strategy, _, _) =>
      var e := Entry(key, value);
      if strategy != Append && HasKey(m, eq, key) then
        if strategy == Add then r == EEXIST && m' == m
        else r == 0 && exists f :: f in m && eq(f.key, key) && m' == m - multiset{f} + multiset{e}
      else if strategy == Update then r == ENOENT && m' == m
      else (r == 0 && m' == m + multiset{e}) || (r == ENOMEM && m' == m)
    case DeleteOp(key) =>
      if HasKey(m, eq, key) then r == 1 && exists f :: f in m && eq(f.key, key) && m' == m - multiset{f}
      else r == 0 && m' == m
  }

  ghost predicate IsRun<K(!new), V(!new)>(trace: seq<multiset<Entry<K, V>>>, eq: (K, K) -> bool, ops: seq<Op<K, V>>, results: seq<int>) {
    && |trace| == |ops| + 1 && |results| == |ops|
    && forall i :: 0 <= i < |ops| ==> IsStep(trace[i], eq, ops[i], results[i], trace[i + 1])
  }

  ghost predicate NoAppend<K, V>(ops: seq<Op<K, V>>) { forall i :: 0 <= i < |ops| ==> !ops[i].Appends() }

  /** No operation names the key. */
  ghost predicate Unnamed<K, V>(ops: seq<Op<K, V>>, eq: (K, K) -> bool, key: K) {
    forall i :: 0 <= i < |ops| ==> !eq(ops[i].key, key)
  }

  /** Turned round `n` times. */
  ghost function Turned<T>(s: seq<T>, n: int): seq<T> { if n % 2 == 0 then s else Rev(s) }

  lemma TurnedNone<T>(s: seq<T>)
    ensures Turned(s, 0) == s
  {
  }

  lemma TurnedAgain<T>(s: seq<T>, n: int, d: int)
    requires 0 <= d <= 1
    ensures Turned(Turned(s, n), d) == Turned(s, n + d)
  {
    RevRev(s);
    hide Rev;
    assert d == 0 || n % 2 == 0 || (n + d) % 2 == 0;
  }

  lemma UnnamedPrefix<K, V>(ops: seq<Op<K, V>>, i: nat, eq: (K, K) -> bool, key: K)
    requires i < |ops| && Unnamed(ops[..i + 1], eq, key)
    ensures Unnamed(ops[..i], eq, key) && !eq(ops[i].key, key)
  {
    forall j | 0 <= j < i ensures !eq(ops[..i][j].key, key) { assert ops[..i + 1][j] == ops[..i][j]; }
    assert ops[..i + 1][i] == ops[i];
  }

  class HashMap<K(!new), V(!new)> {
    const hashFn: K -> nat
    const equalFn: (K, K) -> bool
    var buckets: array?<seq<Entry<K, V>>>
    var cap: nat
    var capBits: nat
    var sz: nat
    ghost var growths: nat   // how often the table has grown

    ghost function Table(): seq<seq<Entry<K, V>>>
      reads this, buckets
    {
      if buckets == null then [] else buckets[..]
    }

    /** The entries of the table. */
    ghost function Contents(): multiset<Entry<K, V>>
      reads this, buckets
    {
      Entries(Table())
    }

    /** The entries under a key, in the order in which a search meets them. */
    ghost function Under(key: K): seq<Entry<K, V>>
      requires capBits <= 64
      reads this, buckets
    {
      KeyChain(Table(), hashFn, equalFn, capBits, key)
    }

    ghost predicate Valid()
      reads this, buckets
    {
      && KeysOk(hashFn, equalFn)
      && capBits <= 63
      && (buckets == null ==> cap == 0 && capBits == 0)
      && (buckets != null ==> cap == buckets.Length == Pow2(capBits) && capBits >= MIN_CAP_BITS)
      && InPlace(Table(), hashFn, capBits)
      && sz == |Contents()|
      && sz * 4 / 3 <= cap
    }

    constructor (hashFn: K -> nat, equalFn: (K, K) -> bool)
      requires KeysOk(hashFn, equalFn)
      ensures Valid() && Contents() == multiset{} && buckets == null && cap == growths == 0
      ensures this.hashFn == hashFn && this.equalFn == equalFn
    {
      this.hashFn := hashFn;
      this.equalFn := equalFn;
      buckets, cap, capBits, sz, growths := null, 0, 0, 0, 0;
    }

    lemma NothingYet(key: K)
      requires Valid() && buckets == null
      ensures Under(key) == [] && sz == 0
    {
    }

    predicate NeedsToGrow()
      reads this
    {
      cap == 0 || (sz + 1) * 4 / 3 > cap
    }

    /** The rounding in the test does no harm: it says that one more entry makes the table more than three quarters full. */
    lemma GrowsWhenDue()
      requires Valid()
      ensures NeedsToGrow() <==> Due(sz, cap)
      ensures 4 * sz <= 3 * cap
    {
      var quarter := if buckets == null then 0 else Pow2(capBits - 2);
      if buckets != null { Pow2Quarter(capBits); }
      assert cap == 4 * quarter && sz * 4 / 3 <= cap;
      hide *;
      Rounded(sz, cap, quarter);
      Rounded(sz + 1, cap, quarter);
    }

    /** Doubles the buckets and moves every entry to the one its hash now selects; the entries under each key are
        then in reverse order. */
    method Grow(allocOk: bool) returns (r: int)
      requires Valid() && (allocOk ==> capBits < 63) && NeedsToGrow()
      modifies this
      ensures Valid() && Contents() == old(Contents()) && sz == old(sz)
      ensures r == (if allocOk then 0 else ENOMEM) && growths == old(growths) + if allocOk then 1 else 0
      ensures allocOk ==> fresh(buckets) && !NeedsToGrow() && cap == (if old(cap) == 0 then 4 else 2 * old(cap)) && capBits <= old(capBits) + 2
      ensures !allocOk ==> buckets == old(buckets) && cap == old(cap) && capBits == old(capBits)
      ensures forall key :: Under(key) == if allocOk then Rev(old(Under(key))) else old(Under(key))
    {
      var newCapBits := capBits + 1;
      if newCapBits < MIN_CAP_BITS { newCapBits := MIN_CAP_BITS; }
      if !allocOk { return ENOMEM; }
      var newCap := Pow2(newCapBits);
      Doubling(newCapBits);
      var nb := Rehash(newCapBits);
      hide KeysOk, InPlace, Entries, HashBits, Pow2, KeyChain, Rev;
      cap, capBits, buckets := newCap, newCapBits, nb;
      growths := growths + 1;
      r := 0;
    }

    lemma Doubling(newCapBits: nat)
      requires Valid() && NeedsToGrow() && newCapBits == if capBits + 1 < MIN_CAP_BITS then MIN_CAP_BITS else capBits + 1
      ensures Pow2(newCapBits) == (if cap == 0 then 4 else 2 * cap) && (sz + 1) * 4 / 3 <= Pow2(newCapBits)
    {
      hide KeysOk, InPlace, Entries, HashBits;
      if cap == 0 { assert Pow2(1) == 2; }
    }

    /** Builds the new bucket array, bucket by bucket. */
    method Rehash(newCapBits: nat) returns (nb: array<seq<Entry<K, V>>>)
      requires Valid() && newCapBits <= 63
      ensures fresh(nb) && nb.Length == Pow2(newCapBits)
      ensures InPlace(nb[..], hashFn, newCapBits) && Entries(nb[..]) == Contents()
      ensures forall key :: KeyChain(nb[..], hashFn, equalFn, newCapBits, key) == Rev(Under(key))
    {
      nb := new seq<Entry<K, V>>[Pow2(newCapBits)](i => []);
      EntriesEmpty(nb[..]);
      RehashedNone(Table(), capBits, nb[..], newCapBits, hashFn, equalFn);
      hide KeysOk, InPlace, Entries, HashBits, Pow2, KeyChain, Rev, MovedOrder, RehashedOrder;
      assert InPlace(nb[..], hashFn, newCapBits) by { NothingMisplaced(nb[..], hashFn, newCapBits); }
      ghost var t := Table();
      EntriesStart(t);
      var bkt := 0;
      while bkt < cap
        invariant 0 <= bkt <= cap == |t| && t == Table()
        invariant InPlace(nb[..], hashFn, newCapBits)
        invariant Entries(nb[..]) == Entries(t[..bkt])
        invariant RehashedOrder(t, capBits, nb[..], newCapBits, bkt, hashFn, equalFn)
      {
        ghost var was := nb[..];
        EntriesSplit(t, bkt);
        MoveChain(nb, buckets[bkt], newCapBits);
        RehashedStep(t, capBits, was, nb[..], newCapBits, bkt, hashFn, equalFn);
        bkt := bkt + 1;
      }
      assert t[..bkt] == t;
      forall key ensures KeyChain(nb[..], hashFn, equalFn, newCapBits, key) == Rev(Under(key)) {
        RehashedAll(t, capBits, nb[..], newCapBits, hashFn, equalFn, key);
      }
    }

    /** Moves the entries of one chain, from the head on, each to the head of its new chain. */
    method MoveChain(nb: array<seq<Entry<K, V>>>, chain: seq<Entry<K, V>>, bits: nat)
      requires bits <= 63 && nb.Length == Pow2(bits) && InPlace(nb[..], hashFn, bits) && KeysOk(hashFn, equalFn)
      modifies nb
      ensures InPlace(nb[..], hashFn, bits) && Entries(nb[..]) == Entries(old(nb[..])) + multiset(chain)
      ensures MovedOrder(old(nb[..]), nb[..], chain, hashFn, equalFn, bits)
    {
      hide InPlace, Entries, HashBits, Pow2, KeysOk, MovedOrder;
      ghost var start := nb[..];
      MovedNone(start, hashFn, equalFn, bits);
      assert chain[..0] == [];
      var j := 0;
      while j < |chain|
        invariant 0 <= j <= |chain|
        invariant InPlace(nb[..], hashFn, bits)
        invariant Entries(nb[..]) == Entries(start) + multiset(chain[..j])
        invariant MovedOrder(start, nb[..], chain[..j], hashFn, equalFn, bits)
      {
        HashBitsBelow(hashFn(chain[j].key), bits);
        MovedStep(start, nb[..], chain, j, hashFn, equalFn, bits, HashBits(hashFn(chain[j].key), bits));
        AddEntry(nb, HashBits(hashFn(chain[j].key), bits), chain[j], bits);
        assert chain[..j + 1] == chain[..j] + [chain[j]];
        j := j + 1;
      }
      assert chain[..j] == chain;
    }

    /** Makes an entry the head of its chain. */
    method AddEntry(bs: array<seq<Entry<K, V>>>, h: nat, e: Entry<K, V>, ghost bits: nat)
      requires bits <= 63 && h < bs.Length && InPlace(bs[..], hashFn, bits) && HashBits(hashFn(e.key), bits) == h
      modifies bs
      ensures bs[..] == old(bs[..])[h := [e] + old(bs[..])[h]]
      ensures InPlace(bs[..], hashFn, bits) && Entries(bs[..]) == Entries(old(bs[..])) + multiset{e}
    {
      ghost var t := bs[..];
      InPlaceUpdate(t, hashFn, bits, h, [e] + t[h]);
      EntriesUpdate(t, h, [e] + t[h]);
      hide InPlace, Entries, HashBits;
      bs[h] := [e] + bs[h];
      assert bs[..] == t[h := [e] + t[h]];
    }

    /** The first entry of the key's chain with an equal key; there is one exactly when the table has one. */
    method FindEntry(key: K, h: nat) returns (found: bool, i: nat)
      requires Valid() && (buckets != null ==> h == HashBits(hashFn(key), capBits))
      ensures found <==> HasKey(Contents(), equalFn, key)
      ensures found ==> buckets != null && h < buckets.Length && i < |buckets[h]| && equalFn(buckets[h][i].key, key)
      ensures found ==> buckets[h][i] in Contents()
      ensures found ==> forall j :: 0 <= j < i ==> !equalFn(buckets[h][j].key, key)
      ensures found <==> Under(key) != []
      ensures found ==> Under(key)[0] == buckets[h][i]
    {
      hide KeysOk, InPlace, Entries, HashBits, Pow2, Matching;
      i := 0;
      if buckets == null {
        EntriesEmpty(Table());
        return false, 0;
      }
      KeyOnlyInBucket(Table(), hashFn, equalFn, capBits, key);
      while i < |buckets[h]|
        invariant 0 <= i <= |buckets[h]|
        invariant forall j :: 0 <= j < i ==> !equalFn(buckets[h][j].key, key)
      {
        if equalFn(buckets[h][i].key, key) {
          EntryIn(Table(), buckets[h][i]);
          assert buckets[h][i] in Table()[h];
          MatchesExist(buckets[h], equalFn, key, i);
          return true, i;
        }
        i := i + 1;
      }
      MatchingNothing(buckets[h], equalFn, key);
      found := false;
    }

    method InsertEntry(key: K, value: V, strategy: Strategy, bucketsOk: bool, entryOk: bool)
      returns (r: int, previous: Option<Entry<K, V>>)
      requires Valid() && (bucketsOk ==> capBits < 63)
      modifies this, buckets
      ensures Valid() && (buckets == old(buckets) || fresh(buckets))
      ensures previous.Some? ==> previous.value in old(Contents()) && equalFn(previous.value.key, key)
      ensures previous.Some? <==> strategy != Append && HasKey(old(Contents()), equalFn, key)
      ensures previous.Some? && strategy == Add ==> r == EEXIST && Contents() == old(Contents())
      ensures previous.Some? && strategy != Add ==>
                r == 0 && Contents() == old(Contents()) - multiset{previous.value} + multiset{Entry(key, value)}
      ensures previous.None? && strategy == Update ==> r == ENOENT && Contents() == old(Contents())
      ensures previous.None? && strategy != Update ==>
                || (r == 0 && Contents() == old(Contents()) + multiset{Entry(key, value)})
                || (r == ENOMEM && Contents() == old(Contents()))
      ensures previous.None? && strategy != Update ==> (r == 0 <==> entryOk && (bucketsOk || !Due(old(sz), old(cap))))
      ensures previous.Some? ==> old(Under(key)) != [] && previous.value == old(Under(key))[0]
      ensures growths == old(growths) + if previous.None? && strategy != Update && Due(old(sz), old(cap)) && bucketsOk then 1 else 0
      ensures growths == old(growths) ==> cap == old(cap) && capBits == old(capBits)
      ensures growths > old(growths) ==> cap == (if old(cap) == 0 then 4 else 2 * old(cap)) && capBits <= old(capBits) + 2
      ensures forall k :: Under(k) ==
                AfterInsert(old(Under(k)), equalFn(key, k), Entry(key, value), previous.Some?, strategy, r, growths > old(growths))
    {
      hide KeysOk, InPlace, Entries, HashBits, Pow2, HasKey, KeyChain, Rev;
      previous := None;
      var h := HashBits(hashFn(key), capBits);
      if strategy != Append {
        var found, i := FindEntry(key, h);
        if found {
          previous := Some(buckets[h][i]);
          if strategy == Set || strategy == Update {
            Replace(key, h, i, Entry(key, value));
            return 0, previous;
          }
          return EEXIST, previous;
        }
      }
      if strategy == Update { return ENOENT, previous; }
      r := AddNew(key, value, bucketsOk, entryOk);
    }

    /**
     Inserts under a strategy. `previous` is the entry found under the key, which SET and UPDATE
     replace. Failing allocations leave the entries as they were.
     */
    method Insert(key: K, value: V, strategy: Strategy, bucketsOk: bool, entryOk: bool)
      returns (r: int, previous: Option<Entry<K, V>>)
      requires Valid() && (bucketsOk ==> capBits < 63)
      modifies this, buckets
      ensures Valid() && (buckets == old(buckets) || fresh(buckets))
      ensures previous.Some? ==> previous.value in old(Contents()) && equalFn(previous.value.key, key)
      ensures previous.Some? <==> strategy != Append && HasKey(old(Contents()), equalFn, key)
      ensures previous.Some? && strategy == Add ==> r == EEXIST && Contents() == old(Contents())
      ensures previous.Some? && strategy != Add ==>
                r == 0 && Contents() == old(Contents()) - multiset{previous.value} + multiset{Entry(key, value)}
      ensures previous.None? && strategy == Update ==> r == ENOENT && Contents() == old(Contents())
      ensures previous.None? && strategy != Update ==>
                || (r == 0 && Contents() == old(Contents()) + multiset{Entry(key, value)})
                || (r == ENOMEM && Contents() == old(Contents()))
      ensures previous.None? && strategy != Update ==> (r == 0 <==> entryOk && (bucketsOk || !Due(old(sz), old(cap))))
      ensures previous.Some? ==> old(Under(key)) != [] && previous.value == old(Under(key))[0]
      ensures growths == old(growths) + if previous.None? && strategy != Update && Due(old(sz), old(cap)) && bucketsOk then 1 else 0
      ensures growths == old(growths) ==> cap == old(cap) && capBits == old(capBits)
      ensures growths > old(growths) ==> cap == (if old(cap) == 0 then 4 else 2 * old(cap)) && capBits <= old(capBits) + 2
      ensures forall k :: Under(k) ==
                AfterInsert(old(Under(k)), equalFn(key, k), Entry(key, value), previous.Some?, strategy, r, growths > old(growths))
      ensures strategy != Append && UniqueKeys(old(Contents()), equalFn) ==> UniqueKeys(Contents(), equalFn)
    {
      hide KeysOk, InPlace, Entries, HashBits, Pow2, HasKey, KeyChain, Rev, UniqueKeys, AfterInsert, Under;
      ghost var m := Contents();
      r, previous := InsertEntry(key, value, strategy, bucketsOk, entryOk);
      if strategy != Append && UniqueKeys(m, equalFn) && Contents() != m {
        KeysSymmetric(hashFn, equalFn);
        if previous.Some? {
          ReplaceKeepsUnique(m, hashFn, equalFn, previous.value, Entry(key, value));
        } else {
          AddKeepsUnique(m, hashFn, equalFn, Entry(key, value));
        }
      }
    }

    /** Adds an entry whatever the table holds, growing it first if it is due. */
    method AddNew(key: K, value: V, bucketsOk: bool, entryOk: bool) returns (r: int)
      requires Valid() && (bucketsOk ==> capBits < 63)
      modifies this, buckets
      ensures Valid() && (buckets == old(buckets) || fresh(buckets))
      ensures r == if entryOk && (bucketsOk || !Due(old(sz), old(cap))) then 0 else ENOMEM
      ensures Contents() == if r == 0 then old(Contents()) + multiset{Entry(key, value)} else old(Contents())
      ensures growths == old(growths) + if Due(old(sz), old(cap)) && bucketsOk then 1 else 0
      ensures growths == old(growths) ==> cap == old(cap) && capBits == old(capBits)
      ensures growths > old(growths) ==> cap == (if old(cap) == 0 then 4 else 2 * old(cap)) && capBits <= old(capBits) + 2
      ensures forall k :: Under(k) ==
                (if r == 0 && equalFn(key, k) then [Entry(key, value)] else []) + (if growths > old(growths) then Rev(old(Under(k))) else old(Under(k)))
    {
      hide KeysOk, InPlace, Entries, HashBits, Pow2, KeyChain, Rev;
      GrowsWhenDue();
      if NeedsToGrow() {
        r := Grow(bucketsOk);
        if r != 0 { return; }
      }
      if !entryOk { return ENOMEM; }
      AddHead(Entry(key, value));
      r := 0;
    }

    method AddHead(e: Entry<K, V>)
      requires Valid() && !NeedsToGrow()
      modifies buckets, `sz
      ensures Valid() && Contents() == old(Contents()) + multiset{e}
      ensures forall k :: Under(k) == (if equalFn(e.key, k) then [e] else []) + old(Under(k))
    {
      hide KeysOk, InPlace, Entries, HashBits, Pow2, KeyChain, Rev;
      HashBitsBelow(hashFn(e.key), capBits);
      var h := HashBits(hashFn(e.key), capBits);
      ghost var t := buckets[..];
      AddEntry(buckets, h, e, capBits);
      sz := sz + 1;
      forall k ensures Under(k) == (if equalFn(e.key, k) then [e] else []) + old(Under(k)) {
        Prepended(t, hashFn, equalFn, capBits, h, e, k);
      }
    }

    /** Overwrites the first entry found under a key by one with that key. */
    method Replace(key: K, h: nat, i: nat, e: Entry<K, V>)
      requires Valid() && buckets != null && h < buckets.Length && i < |buckets[h]| && e.key == key
      requires HashBits(hashFn(key), capBits) == h && buckets[h][i] in Contents() && equalFn(buckets[h][i].key, key)
      requires forall j :: 0 <= j < i ==> !equalFn(buckets[h][j].key, key)
      modifies buckets
      ensures Valid()
      ensures Contents() == old(Contents()) - multiset{old(buckets[h][i])} + multiset{e}
      ensures forall k :: Under(k) == Instead(old(Under(k)), equalFn(key, k), [e])
    {
      hide KeysOk, InPlace, Entries, HashBits, Pow2, KeyChain, Instead;
      KeyIsItself(hashFn, equalFn, key);
      ghost var t := buckets[..];
      var c := buckets[h];
      ReplaceInTable(t, hashFn, capBits, h, i, e);
      assert c[i := e] == c[..i] + [e] + c[i + 1..];
      buckets[h] := c[i := e];
      assert buckets[..] == t[h := c[i := e]];
      forall k ensures Under(k) == Instead(old(Under(k)), equalFn(key, k), [e]) {
        Exchanged(t, hashFn, equalFn, capBits, h, i, key, [e], k);
      }
    }

    /** Unlinks the found entry, if any: the first one under the key. */
    method Delete(key: K) returns (found: bool, previous: Option<Entry<K, V>>)
      requires Valid()
      modifies this, buckets
      ensures Valid() && buckets == old(buckets) && growths == old(growths) && cap == old(cap) && capBits == old(capBits)
      ensures found <==> HasKey(old(Contents()), equalFn, key)
      ensures !found ==> previous.None? && Contents() == old(Contents())
      ensures found ==> previous.Some? && previous.value in old(Contents()) && equalFn(previous.value.key, key)
      ensures found ==> Contents() == old(Contents()) - multiset{previous.value}
      ensures found ==> old(Under(key)) != [] && previous.value == old(Under(key))[0]
      ensures forall k :: Under(k) == Instead(old(Under(k)), found && equalFn(key, k), [])
      ensures UniqueKeys(old(Contents()), equalFn) ==> UniqueKeys(Contents(), equalFn) && !HasKey(Contents(), equalFn, key)
    {
      hide KeysOk, InPlace, Entries, HashBits, Pow2, HasKey, KeyChain, UniqueKeys;
      ghost var m := Contents();
      var h := HashBits(hashFn(key), capBits);
      var i;
      found, i := FindEntry(key, h);
      if !found { return false, None; }
      previous := Some(buckets[h][i]);
      Unlink(key, h, i);
      if UniqueKeys(m, equalFn) { RemoveKeepsUnique(m, hashFn, equalFn, previous.value, key); }
    }

    /** Removes the first entry found under a key. */
    method Unlink(key: K, h: nat, i: nat)
      requires Valid() && buckets != null && h < buckets.Length && i < |buckets[h]|
      requires HashBits(hashFn(key), capBits) == h && buckets[h][i] in Contents() && equalFn(buckets[h][i].key, key)
      requires forall j :: 0 <= j < i ==> !equalFn(buckets[h][j].key, key)
      modifies buckets, `sz
      ensures Valid() && Contents() == old(Contents()) - multiset{old(buckets[h][i])}
      ensures forall k :: Under(k) == Instead(old(Under(k)), equalFn(key, k), [])
    {
      hide KeysOk, InPlace, Entries, HashBits, Pow2, KeyChain, Instead;
      ghost var t := buckets[..];
      var c := buckets[h];
      UnlinkInTable(t, hashFn, capBits, h, i);
      assert c[..i] + [] + c[i + 1..] == c[..i] + c[i + 1..];
      buckets[h] := c[..i] + c[i + 1..];
      assert buckets[..] == t[h := c[..i] + c[i + 1..]];
      sz := sz - 1;
      forall k ensures Under(k) == Instead(old(Under(k)), equalFn(key, k), []) {
        Exchanged(t, hashFn, equalFn, capBits, h, i, key, [], k);
      }
    }

    /** The value of the first entry under the key. */
    method Find(key: K) returns (found: bool, value: Option<V>)
      requires Valid()
      ensures found <==> HasKey(Contents(), equalFn, key)
      ensures found <==> value.Some?
      ensures found ==> exists e :: e in Contents() && equalFn(e.key, key) && e.value == value.value
      ensures value == if Under(key) == [] then None else Some(Under(key)[0].value)
    {
      hide KeysOk, InPlace, Entries, HashBits, Pow2, HasKey, KeyChain;
      var h := HashBits(hashFn(key), capBits);
      var i;
      found, i := FindEntry(key, h);
      if !found { return false, None; }
      value := Some(buckets[h][i].value);
    }

    /** Iterating over a key visits every entry of the table with an equal key, as often as it occurs and in the order
        of its chain. */
    method KeyEntries(key: K) returns (visited: seq<Entry<K, V>>)
      requires Valid()
      ensures forall e :: multiset(visited)[e] == if equalFn(e.key, key) then Contents()[e] else 0
      ensures visited == Under(key)
    {
      hide KeysOk, InPlace, Entries, HashBits, Pow2, Matching;
      visited := [];
      if buckets == null {
        EntriesEmpty(Table());
        return;
      }
      var h := HashBits(hashFn(key), capBits);
      HashBitsBelow(hashFn(key), capBits);
      ghost var c := buckets[h];
      MatchingNone(c, equalFn, key);
      var j := 0;
      while j < |buckets[h]|
        invariant 0 <= j <= |buckets[h]|
        invariant visited == Matching(c[..j], equalFn, key)
      {
        MatchingStep(c, equalFn, key, j);
        if equalFn(buckets[h][j].key, key) {
          visited := visited + [buckets[h][j]];
        }
        j := j + 1;
      }
      assert c[..j] == c;
      forall e ensures multiset(visited)[e] == if equalFn(e.key, key) then Contents()[e] else 0 {
        MatchingCount(c, equalFn, key, e);
        KeyCount(Table(), hashFn, equalFn, capBits, key, e);
      }
    }

    // ----- any sequence of operations -----

    /** One operation. Tables of 2^64 buckets are never allocated. */
    method Do(op: Op<K, V>) returns (r: int)
      requires Valid()
      modifies this, buckets
      ensures Valid() && (buckets == old(buckets) || fresh(buckets))
      ensures IsStep(old(Contents()), equalFn, op, r, Contents())
      ensures !op.Appends() && UniqueKeys(old(Contents()), equalFn) ==> UniqueKeys(Contents(), equalFn)
      ensures old(growths) <= growths <= old(growths) + 1
      ensures forall k :: !equalFn(op.key, k) ==> Under(k) == Turned(old(Under(k)), growths - old(growths))
    {
      hide KeysOk, InPlace, Entries, HashBits, Pow2, HasKey, KeyChain, Rev, UniqueKeys;
      match op
      case InsertOp(key, value, strategy, bucketsOk, entryOk) =>
        var previous;
        r, previous := Insert(key, value, strategy, bucketsOk && capBits < 63, entryOk);
      case DeleteOp(key) =>
        var found, previous := Delete(key);
        r := if found then 1 else 0;
    }

    /** Any sequence of operations runs like the same operations on a multiset of entries; without APPEND keys stay
        unique. The entries under a key that no operation names are turned round by every growth. */
    method Run(ops: seq<Op<K, V>>) returns (results: seq<int>, ghost trace: seq<multiset<Entry<K, V>>>)
      requires Valid()
      modifies this, buckets
      ensures Valid() && (buckets == old(buckets) || fresh(buckets)) && growths >= old(growths)
      ensures IsRun(trace, equalFn, ops, results) && trace[0] == old(Contents()) && trace[|ops|] == Contents()
      ensures NoAppend(ops) && UniqueKeys(old(Contents()), equalFn) ==> UniqueKeys(Contents(), equalFn)
      ensures forall k :: Unnamed(ops, equalFn, k) ==> Under(k) == Turned(old(Under(k)), growths - old(growths))
    {
      hide KeysOk, InPlace, Entries, HashBits, Pow2, HasKey, KeyChain, UniqueKeys, Turned, IsStep;
      results, trace := [], [Contents()];
      assert forall k :: Turned(Under(k), 0) == Under(k) by { forall k { TurnedNone(Under(k)); } }
      var i := 0;
      while i < |ops|
        invariant 0 <= i <= |ops| && Valid() && (buckets == old(buckets) || fresh(buckets)) && growths >= old(growths)
        invariant IsRun(trace, equalFn, ops[..i], results) && trace[0] == old(Contents()) && trace[i] == Contents()
        invariant NoAppend(ops[..i]) && UniqueKeys(old(Contents()), equalFn) ==> UniqueKeys(Contents(), equalFn)
        invariant forall k :: Unnamed(ops[..i], equalFn, k) ==> Under(k) == Turned(old(Under(k)), growths - old(growths))
      {
        ghost var before := growths;
        assert ops[..i + 1] == ops[..i] + [ops[i]];
        label Before:
        var r := Do(ops[i]);
        forall k | Unnamed(ops[..i + 1], equalFn, k) ensures Under(k) == Turned(old(Under(k)), growths - old(growths)) {
          UnnamedPrefix(ops, i, equalFn, k);
          assert old@Before(Under(k)) == Turned(old(Under(k)), before - old(growths));
          TurnedAgain(old(Under(k)), before - old(growths), growths - before);
        }
        results, trace := results + [r], trace + [Contents()];
        i := i + 1;
      }
    }

    /** Appends an entry: it is the first one under its key. */
    method AppendEntry(key: K, value: V) returns (r: int, ghost chain: seq<Entry<K, V>>)
      requires Valid() && capBits < 63
      modifies this, buckets
      ensures Valid() && (buckets == old(buckets) || fresh(buckets)) && r == 0 && chain == Under(key)
      ensures chain != [] && chain[0] == Entry(key, value) && |chain| == |old(Under(key))| + 1
      ensures growths == old(growths) + if Due(old(sz), old(cap)) then 1 else 0
    {
      hide KeysOk, InPlace, Entries, HashBits, Pow2, HasKey, KeyChain, UniqueKeys;
      KeyIsItself(hashFn, equalFn, key);
      var previous;
      r, previous := InsertEntry(key, value, Append, true, true);
      chain := Under(key);
    }

    /** Appends an entry, lets any operations that do not name its key follow, and looks the key up: the last appended
        value is found exactly if the table has grown an even number of times since, or if the oldest value under the
        key is the same, as when there is only one. */
    method AppendThenFind(key: K, value: V, ops: seq<Op<K, V>>)
      returns (r: int, found: Option<V>, ghost chain: seq<Entry<K, V>>, ghost grown: nat)
      requires Valid() && capBits < 63 && Unnamed(ops, equalFn, key)
      modifies this, buckets
      ensures r == 0 && chain != [] && chain[0] == Entry(key, value)
      ensures |chain| == |old(Under(key))| + 1 && grown == growths - old(growths) - if Due(old(sz), old(cap)) then 1 else 0
      ensures found == Some(if grown % 2 == 0 then chain[0].value else chain[|chain| - 1].value)
      ensures found == Some(value) <==> grown % 2 == 0 || chain[|chain| - 1].value == value
    {
      hide KeysOk, InPlace, Entries, HashBits, Pow2, HasKey, KeyChain, UniqueKeys, IsRun, Unnamed, Rev;
      r, chain := AppendEntry(key, value);
      ghost var before := growths;
      var results, trace := Run(ops);
      grown := growths - before;
      RevEnds(chain);
      var b;
      b, found := Find(key);
    }
  }

  /** Three values appended under one key to a new table are found last one first. */
  method AppendThree<K(!new), V(!new)>(hash: K -> nat, eq: (K, K) -> bool, key: K, first: V, second: V, last: V) returns (m: HashMap<K, V>)
    requires KeysOk(hash, eq)
    ensures fresh(m) && fresh(m.buckets) && m.Valid() && m.equalFn == eq && m.capBits < 63 && m.sz == 3 && m.cap == 4
    ensures m.Under(key) == [Entry(key, last), Entry(key, second), Entry(key, first)]
  {
    hide KeysOk, InPlace, Entries, HashBits, HasKey, KeyChain, UniqueKeys, Pow2, Rev;
    KeyIsItself(hash, eq, key);
    m := new HashMap<K, V>(hash, eq);
    m.NothingYet(key);
    RevNone<Entry<K, V>>();
    var r, previous := m.InsertEntry(key, first, Append, true, true);
    assert m.Under(key) == [Entry(key, first)];
    r, previous := m.InsertEntry(key, second, Append, true, true);
    assert m.Under(key) == [Entry(key, second), Entry(key, first)];
    r, previous := m.InsertEntry(key, last, Append, true, true);
  }

  /** Three values appended under one key to a new table and one under another: the fourth entry makes the table grow,
      and a lookup then gives the first value, not the last. */
  method FirstAppendedFound<K(!new), V(!new)>(hash: K -> nat, eq: (K, K) -> bool, key: K, other: K, first: V, second: V, last: V, value: V)
    returns (found: Option<V>)
    requires KeysOk(hash, eq) && !eq(other, key)
    ensures found == Some(first)
  {
    hide KeysOk, InPlace, Entries, HashBits, HasKey, KeyChain, UniqueKeys, Pow2, Rev;
    var m := AppendThree(hash, eq, key, first, second, last);
    RevEnds(m.Under(key));
    var r, previous := m.InsertEntry(other, value, Append, true, true);
    var b;
    b, found := m.Find(key);
  }
}
