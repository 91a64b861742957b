/**
 Jenkins' hash (headers/jhash.h): the mixing steps are bijections of the 96-bit state, the hash of an
 array of words is the hash of its bytes on a little-endian machine, and the forms for one, two and
 three words agree with it.
 */
module Jhash {

  const JHASH_INITVAL: bv32 := 0xdeadbeef

  datatype State = State(a: bv32, b: bv32, c: bv32)

  function Rol32(word: bv32, shift: bv32): bv32
    requires shift < 32
  {
    (word << shift) | (word >> ((0 - shift) & 31))
  }

  // ----- mixing -----

  function Add(x: bv32, y: bv32): bv32 { x + y }

  function Sub(x: bv32, y: bv32): bv32 { x - y }

  function Xor(x: bv32, y: bv32): bv32 { x ^ y }

  /** One line of __jhash_mix; the roles of the words rotate from line to line. */
  function MixLine(s: State, shift: bv32): State
    requires shift < 32
  {
    State(s.b, Add(s.c, s.b), Xor(Sub(s.a, s.c), Rol32(s.c, shift)))
  }

  function UnmixLine(s: State, shift: bv32): State
    requires shift < 32
  {
    var c := Sub(s.b, s.a);
    State(Add(Xor(s.c, Rol32(c, shift)), c), s.a, c)
  }

  /** __jhash_mix, as written: six lines on named words. */
  function Mix(s: State): State {
    var a, b, c := s.a, s.b, s.c;
    var a := Sub(a, c); var a := Xor(a, Rol32(c, 4));  var c := Add(c, b);
    var b := Sub(b, a); var b := Xor(b, Rol32(a, 6));  var a := Add(a, c);
    var c := Sub(c, b); var c := Xor(c, Rol32(b, 8));  var b := Add(b, a);
    var a := Sub(a, c); var a := Xor(a, Rol32(c, 16)); var c := Add(c, b);
    var b := Sub(b, a); var b := Xor(b, Rol32(a, 19)); var a := Add(a, c);
    var c := Sub(c, b); var c := Xor(c, Rol32(b, 4));  var b := Add(b, a);
    State(a, b, c)
  }

  function MixLines(s: State): State {
    MixLine(MixLine(MixLine(MixLine(MixLine(MixLine(s, 4), 6), 8), 16), 19), 4)
  }

  function Unmix(s: State): State {
    UnmixLine(UnmixLine(UnmixLine(UnmixLine(UnmixLine(UnmixLine(s, 4), 19), 16), 8), 6), 4)
  }

  lemma MixIsLines(s: State)
    ensures Mix(s) == MixLines(s)
  {
    hide Rol32, Add, Sub, Xor;
  }

  lemma UnmixMixLine(s: State, shift: bv32)
    requires shift < 32
    ensures UnmixLine(MixLine(s, shift), shift) == s
  {
    hide Rol32, Add, Sub, Xor;
    SubAdd(s.c, s.b);
    XorXor(Sub(s.a, s.c), Rol32(s.c, shift));
    SubBack(s.a, s.c);
  }

  lemma MixUnmixLine(s: State, shift: bv32)
    requires shift < 32
    ensures MixLine(UnmixLine(s, shift), shift) == s
  {
    hide Rol32, Add, Sub, Xor;
    var c := Sub(s.b, s.a);
    SubBack(s.b, s.a);
    SubAdd(Xor(s.c, Rol32(c, shift)), c);
    XorXor(s.c, Rol32(c, shift));
  }

  lemma RawSubAdd(x: bv32, y: bv32)
    ensures (x + y) - y == x && (x - y) + y == x
  {
  }

  lemma SubAdd(x: bv32, y: bv32)
    ensures Sub(Add(x, y), y) == x
  {
    RawSubAdd(x, y);
    assert Add(x, y) == x + y;
    assert Sub(x + y, y) == (x + y) - y;
  }

  lemma SubBack(x: bv32, y: bv32)
    ensures Add(Sub(x, y), y) == x
  {
    RawSubAdd(x, y);
    assert Sub(x, y) == x - y;
    assert Add(x - y, y) == (x - y) + y;
  }

  lemma XorXor(x: bv32, y: bv32)
    ensures Xor(Xor(x, y), y) == x
  {
  }

  /** __jhash_mix loses nothing and reaches every state. */
  lemma MixBijective(s: State)
    ensures Unmix(Mix(s)) == s && Mix(Unmix(s)) == s
  {
    hide MixLine, UnmixLine, Mix;
    MixIsLines(s);
    MixIsLines(Unmix(s));
    var s1 := MixLine(s, 4);
    var s2 := MixLine(s1, 6);
    var s3 := MixLine(s2, 8);
    var s4 := MixLine(s3, 16);
    var s5 := MixLine(s4, 19);
    UnmixMixLine(s5, 4);
    UnmixMixLine(s4, 19);
    UnmixMixLine(s3, 16);
    UnmixMixLine(s2, 8);
    UnmixMixLine(s1, 6);
    UnmixMixLine(s, 4);
    var t1 := UnmixLine(s, 4);
    var t2 := UnmixLine(t1, 19);
    var t3 := UnmixLine(t2, 16);
    var t4 := UnmixLine(t3, 8);
    var t5 := UnmixLine(t4, 6);
    MixUnmixLine(t5, 4);
    MixUnmixLine(t4, 6);
    MixUnmixLine(t3, 8);
    MixUnmixLine(t2, 16);
    MixUnmixLine(t1, 19);
    MixUnmixLine(s, 4);
  }

  /** __jhash_final, as written. */
  function Final(s: State): State {
    var a, b, c := s.a, s.b, s.c;
    var c := Xor(c, b); var c := Sub(c, Rol32(b, 14));
    var a := Xor(a, c); var a := Sub(a, Rol32(c, 11));
    var b := Xor(b, a); var b := Sub(b, Rol32(a, 25));
    var c := Xor(c, b); var c := Sub(c, Rol32(b, 16));
    var a := Xor(a, c); var a := Sub(a, Rol32(c, 4));
    var b := Xor(b, a); var b := Sub(b, Rol32(a, 14));
    var c := Xor(c, b); var c := Sub(c, Rol32(b, 24));
    State(a, b, c)
  }

  /** One step of __jhash_final on a word `x` and its predecessor `y`. */
  function FinalStep(x: bv32, y: bv32, shift: bv32): bv32
    requires shift < 32
  {
    Sub(Xor(x, y), Rol32(y, shift))
  }

  function UnfinalStep(x: bv32, y: bv32, shift: bv32): bv32
    requires shift < 32
  {
    Xor(Add(x, Rol32(y, shift)), y)
  }

  lemma StepInverse(x: bv32, y: bv32, shift: bv32)
    requires shift < 32
    ensures UnfinalStep(FinalStep(x, y, shift), y, shift) == x && FinalStep(UnfinalStep(x, y, shift), y, shift) == x
  {
    hide Rol32, Add, Sub, Xor;
    var r := Rol32(y, shift);
    SubBack(Xor(x, y), r);
    XorXor(x, y);
    XorXor(Add(x, r), y);
    SubAdd(x, r);
  }

  function Unfinal(s: State): State {
    var c6 := UnfinalStep(s.c, s.b, 24);
    var b5 := UnfinalStep(s.b, s.a, 14);
    var a4 := UnfinalStep(s.a, c6, 4);
    var c3 := UnfinalStep(c6, b5, 16);
    var b2 := UnfinalStep(b5, a4, 25);
    var a1 := UnfinalStep(a4, c3, 11);
    var c0 := UnfinalStep(c3, b2, 14);
    State(a1, b2, c0)
  }

  function FinalSteps(s: State): State {
    var c1 := FinalStep(s.c, s.b, 14);
    var a1 := FinalStep(s.a, c1, 11);
    var b1 := FinalStep(s.b, a1, 25);
    var c2 := FinalStep(c1, b1, 16);
    var a2 := FinalStep(a1, c2, 4);
    var b2 := FinalStep(b1, a2, 14);
    var c3 := FinalStep(c2, b2, 24);
    State(a2, b2, c3)
  }

  lemma FinalIsSteps(s: State)
    ensures Final(s) == FinalSteps(s)
  {
    hide Rol32, Add, Sub, Xor;
  }

  /** __jhash_final loses nothing and reaches every state. */
  lemma FinalBijective(s: State)
    ensures Unfinal(Final(s)) == s && Final(Unfinal(s)) == s
  {
    hide FinalStep, UnfinalStep, Final;
    FinalIsSteps(s);
    FinalIsSteps(Unfinal(s));
    FinalForth(s);
    FinalBack(s);
  }

  lemma FinalForth(s: State)
    ensures Unfinal(FinalSteps(s)) == s
  {
    hide FinalStep, UnfinalStep;
    var c1 := FinalStep(s.c, s.b, 14);
    var a1 := FinalStep(s.a, c1, 11);
    var b1 := FinalStep(s.b, a1, 25);
    var c2 := FinalStep(c1, b1, 16);
    var a2 := FinalStep(a1, c2, 4);
    var b2 := FinalStep(b1, a2, 14);
    StepInverse(s.c, s.b, 14);
    StepInverse(s.a, c1, 11);
    StepInverse(s.b, a1, 25);
    StepInverse(c1, b1, 16);
    StepInverse(a1, c2, 4);
    StepInverse(b1, a2, 14);
    StepInverse(c2, b2, 24);
  }

  lemma FinalBack(s: State)
    ensures FinalSteps(Unfinal(s)) == s
  {
    hide FinalStep, UnfinalStep;
    var c6 := UnfinalStep(s.c, s.b, 24);
    var b5 := UnfinalStep(s.b, s.a, 14);
    var a4 := UnfinalStep(s.a, c6, 4);
    var c3 := UnfinalStep(c6, b5, 16);
    var b2 := UnfinalStep(b5, a4, 25);
    var a1 := UnfinalStep(a4, c3, 11);
    StepInverse(s.c, s.b, 24);
    StepInverse(s.b, s.a, 14);
    StepInverse(s.a, c6, 4);
    StepInverse(c6, b5, 16);
    StepInverse(b5, a4, 25);
    StepInverse(a4, c3, 11);
    StepInverse(c3, b2, 14);
  }

  // ----- hashing bytes and words -----

  function Shifted(b: bv8, shift: bv32): bv32
    requires shift < 32
  {
    (b as bv32) << shift
  }

  function Or(x: bv32, y: bv32): bv32 { x | y }

  /** Four bytes as a little-endian machine reads them. */
  function Load32(b0: bv8, b1: bv8, b2: bv8, b3: bv8): bv32 {
    Or(Or(Or(Shifted(b3, 24), Shifted(b2, 16)), Shifted(b1, 8)), Shifted(b0, 0))
  }

  function LoadAt(k: seq<bv8>, i: nat): bv32
    requires i + 4 <= |k|
  {
    Load32(k[i], k[i + 1], k[i + 2], k[i + 3])
  }

  /** The words of a byte array. */
  function Words(k: seq<bv8>): seq<bv32>
    requires |k| % 4 == 0
  {
    if k == [] then [] else [LoadAt(k, 0)] + Words(k[4..])
  }

  /** The initial state; `length` is in bytes. */
  function Init(length: nat, initval: bv32): State
    requires length < 0x1_0000_0000
  {
    var x := Add(Add(JHASH_INITVAL, length as bv32), initval);
    State(x, x, x)
  }

  function Block(s: State, x: bv32, y: bv32, z: bv32): State { Mix(State(Add(s.a, x), Add(s.b, y), Add(s.c, z))) }

  /** Up to four bytes are added to a word, the highest first. */
  function AddBytes(x: bv32, k: seq<bv8>): bv32
    requires |k| <= 4
  {
    var x := if |k| >= 4 then Add(x, Shifted(k[3], 24)) else x;
    var x := if |k| >= 3 then Add(x, Shifted(k[2], 16)) else x;
    var x := if |k| >= 2 then Add(x, Shifted(k[1], 8)) else x;
    if |k| >= 1 then Add(x, Shifted(k[0], 0)) else x
  }

  function Clip(k: seq<bv8>, i: nat): (r: seq<bv8>)
    ensures |r| <= 4
  {
    if 4 * i >= |k| then [] else if 4 * i + 4 >= |k| then k[4 * i..] else k[4 * i..4 * i + 4]
  }

  /** The hash of bytes, block by block. */
  function HashBytes(k: seq<bv8>, s: State): bv32
    decreases |k|
  {
    if |k| > 12 then
      HashBytes(k[12..], Block(s, LoadAt(k, 0), LoadAt(k, 4), LoadAt(k, 8)))
    else if |k| == 0 then s.c
    else Final(State(AddBytes(s.a, Clip(k, 0)), AddBytes(s.b, Clip(k, 1)), AddBytes(s.c, Clip(k, 2)))).c
  }

  function HashWords(k: seq<bv32>, s: State): bv32
    decreases |k|
  {
    if |k| > 3 then HashWords(k[3..], Block(s, k[0], k[1], k[2]))
    else if |k| == 0 then s.c
    else Final(State(Add(s.a, k[0]), if |k| >= 2 then Add(s.b, k[1]) else s.b, if |k| >= 3 then Add(s.c, k[2]) else s.c)).c
  }

  lemma LoadSlice(k: seq<bv8>, from: nat, i: nat)
    requires from + i + 4 <= |k|
    ensures LoadAt(k[from..], i) == LoadAt(k, from + i)
  {
    hide Load32;
  }

  method Jhash(key: seq<bv8>, initval: bv32) returns (h: bv32)
    requires |key| < 0x1_0000_0000
    ensures h == HashBytes(key, Init(|key|, initval))
  {
    hide Mix, Final, Add, LoadAt;
    var s := Init(|key|, initval);
    var length, k := |key|, 0;
    ghost var result := HashBytes(key, s);
    assert key[0..] == key;
    while length > 12
      invariant 0 <= k <= |key| && length == |key| - k && HashBytes(key[k..], s) == result
    {
      ghost var rest := key[k..];
      LoadSlice(key, k, 0);
      LoadSlice(key, k, 4);
      LoadSlice(key, k, 8);
      s := Block(s, LoadAt(key, k), LoadAt(key, k + 4), LoadAt(key, k + 8));
      assert rest[12..] == key[k + 12..];
      length, k := length - 12, k + 12;
    }
    h := LastBytes(key[k..], s);
  }

  /** The last block, with its fall-through cases. */
  method LastBytes(k: seq<bv8>, s: State) returns (h: bv32)
    requires |k| <= 12
    ensures h == HashBytes(k, s)
  {
    hide Mix, Final, Add, Load32, Shifted;
    var a, b, c := s.a, s.b, s.c;
    if |k| >= 12 { c := Add(c, Shifted(k[11], 24)); }
    if |k| >= 11 { c := Add(c, Shifted(k[10], 16)); }
    if |k| >= 10 { c := Add(c, Shifted(k[9], 8)); }
    if |k| >= 9 { c := Add(c, Shifted(k[8], 0)); }
    assert c == AddBytes(s.c, Clip(k, 2));
    if |k| >= 8 { b := Add(b, Shifted(k[7], 24)); }
    if |k| >= 7 { b := Add(b, Shifted(k[6], 16)); }
    if |k| >= 6 { b := Add(b, Shifted(k[5], 8)); }
    if |k| >= 5 { b := Add(b, Shifted(k[4], 0)); }
    assert b == AddBytes(s.b, Clip(k, 1));
    if |k| >= 4 { a := Add(a, Shifted(k[3], 24)); }
    if |k| >= 3 { a := Add(a, Shifted(k[2], 16)); }
    if |k| >= 2 { a := Add(a, Shifted(k[1], 8)); }
    if |k| >= 1 {
      a := Add(a, Shifted(k[0], 0));
      assert a == AddBytes(s.a, Clip(k, 0));
      c := Final(State(a, b, c)).c;
    }
    h := c;
  }

  /** The length in bytes wraps around; the equality with Jhash is for lengths that do not. */
  method Jhash2(key: seq<bv32>, initval: bv32) returns (h: bv32)
    ensures h == HashWords(key, Init(4 * |key| % 0x1_0000_0000, initval))
  {
    hide Mix, Final, Add;
    var s := Init(4 * |key| % 0x1_0000_0000, initval);
    var length, k := |key|, 0;
    ghost var result := HashWords(key, s);
    assert key[0..] == key;
    while length > 3
      invariant 0 <= k <= |key| && length == |key| - k && HashWords(key[k..], s) == result
    {
      ghost var rest := key[k..];
      s := Block(s, key[k], key[k + 1], key[k + 2]);
      assert rest[3..] == key[k + 3..];
      length, k := length - 3, k + 3;
    }
    var a, b, c := s.a, s.b, s.c;
    if length >= 3 { c := Add(c, key[k + 2]); }
    if length >= 2 { b := Add(b, key[k + 1]); }
    if length >= 1 {
      a := Add(a, key[k]);
      c := Final(State(a, b, c)).c;
    }
    h := c;
  }

  // ----- the hash of words is the hash of their bytes -----

  predicate Disjoint(x: bv32, y: bv32) { x & y == 0 }

  lemma DisjointOr(x: bv32, y: bv32)
    requires Disjoint(x, y)
    ensures Or(x, y) == Add(x, y)
  {
    assert x | y == x + y;
  }

  lemma Apart(x: bv32, y: bv32, z: bv32, w: bv32)
    requires x & 0xffff_ff00 == 0 && y & 0xffff_00ff == 0 && z & 0xff00_ffff == 0 && w & 0x00ff_ffff == 0
    ensures Disjoint(w, z) && Disjoint(Or(w, z), y) && Disjoint(Or(Or(w, z), y), x)
  {
    assert w & z == 0 && (w | z) & y == 0 && (w | z | y) & x == 0;
  }

  lemma ShiftedBits(b: bv8)
    ensures Shifted(b, 0) & 0xffff_ff00 == 0 && Shifted(b, 8) & 0xffff_00ff == 0
    ensures Shifted(b, 16) & 0xff00_ffff == 0 && Shifted(b, 24) & 0x00ff_ffff == 0
  {
  }

  lemma RawAssoc(x: bv32, y: bv32, z: bv32)
    ensures (x + y) + z == x + (y + z)
  {
  }

  lemma AddAssoc(x: bv32, y: bv32, z: bv32)
    ensures Add(Add(x, y), z) == Add(x, Add(y, z))
  {
    RawAssoc(x, y, z);
    assert Add(x, y) == x + y && Add(y, z) == y + z;
    assert Add(x + y, z) == (x + y) + z && Add(x, y + z) == x + (y + z);
  }

  lemma LoadIsSum(b0: bv8, b1: bv8, b2: bv8, b3: bv8)
    ensures Load32(b0, b1, b2, b3) == Add(Add(Add(Shifted(b3, 24), Shifted(b2, 16)), Shifted(b1, 8)), Shifted(b0, 0))
  {
    ShiftedBits(b0);
    ShiftedBits(b1);
    ShiftedBits(b2);
    ShiftedBits(b3);
    var p, q, r, t := Shifted(b0, 0), Shifted(b1, 8), Shifted(b2, 16), Shifted(b3, 24);
    Apart(p, q, r, t);
    hide Shifted, Add, Or, Disjoint;
    DisjointOr(t, r);
    DisjointOr(Or(t, r), q);
    DisjointOr(Or(Or(t, r), q), p);
  }

  /** Adding four bytes one by one adds the word they form. */
  lemma AddWord(x: bv32, b0: bv8, b1: bv8, b2: bv8, b3: bv8)
    ensures AddBytes(x, [b0, b1, b2, b3]) == Add(x, Load32(b0, b1, b2, b3))
  {
    hide Shifted, Add, Load32;
    LoadIsSum(b0, b1, b2, b3);
    var p, q, r, t := Shifted(b0, 0), Shifted(b1, 8), Shifted(b2, 16), Shifted(b3, 24);
    AddAssoc(x, t, r);
    AddAssoc(x, Add(t, r), q);
    AddAssoc(x, Add(Add(t, r), q), p);
  }

  lemma WordsFirst(k: seq<bv8>)
    requires |k| % 4 == 0 && |k| >= 4
    ensures Words(k) == [LoadAt(k, 0)] + Words(k[4..])
  {
    hide LoadAt;
  }

  lemma WordsTail(k: seq<bv8>)
    requires |k| % 4 == 0 && |k| >= 12
    ensures |Words(k)| >= 3 && Words(k)[3..] == Words(k[12..])
    ensures Words(k)[0] == LoadAt(k, 0) && Words(k)[1] == LoadAt(k, 4) && Words(k)[2] == LoadAt(k, 8)
  {
    hide LoadAt, Words;
    var k1 := k[4..];
    var k2 := k1[4..];
    assert k2 == k[8..] && k2[4..] == k[12..];
    LoadSlice(k, 4, 0);
    LoadSlice(k, 8, 0);
    WordsFirst(k);
    WordsFirst(k1);
    WordsFirst(k2);
    assert Words(k) == [LoadAt(k, 0), LoadAt(k, 4), LoadAt(k, 8)] + Words(k[12..]);
  }

  lemma {:induction false} WordsLength(k: seq<bv8>)
    requires |k| % 4 == 0
    ensures 4 * |Words(k)| == |k|
    decreases |k|
  {
    hide LoadAt;
    if k != [] { WordsLength(k[4..]); }
  }

  lemma {:induction false} SameHash(k: seq<bv8>, s: State)
    requires |k| % 4 == 0
    ensures HashWords(Words(k), s) == HashBytes(k, s)
    decreases |k|
  {
    WordsLength(k);
    if |k| > 12 {
      WordsTail(k);
      hide LoadAt, Mix, Final, Add;
      SameHash(k[12..], Block(s, Words(k)[0], Words(k)[1], Words(k)[2]));
    } else {
      SameTail(k, s);
    }
  }

  /** A full word of the last block. */
  lemma TailWord(k: seq<bv8>, i: nat, x: bv32)
    requires 4 * i + 4 <= |k|
    ensures AddBytes(x, Clip(k, i)) == Add(x, LoadAt(k, 4 * i))
  {
    hide Add, Shifted, Load32, AddBytes;
    var j := 4 * i;
    assert Clip(k, i) == [k[j], k[j + 1], k[j + 2], k[j + 3]];
    AddWord(x, k[j], k[j + 1], k[j + 2], k[j + 3]);
  }

  lemma SameTail(k: seq<bv8>, s: State)
    requires |k| % 4 == 0 && |k| <= 12
    ensures HashWords(Words(k), s) == HashBytes(k, s)
  {
    hide LoadAt, Mix, Final, Add, Shifted, AddBytes;
    if |k| >= 4 {
      TailWord(k, 0, s.a);
      assert Words(k) == [LoadAt(k, 0)] + Words(k[4..]);
    }
    if |k| >= 8 {
      TailWord(k, 1, s.b);
      LoadSlice(k, 4, 0);
      assert Words(k[4..]) == [LoadAt(k[4..], 0)] + Words(k[4..][4..]);
    }
    if |k| >= 12 {
      TailWord(k, 2, s.c);
      WordsTail(k);
    }
    WordsLength(k);
    NoBytes(s.b);
    NoBytes(s.c);
  }

  lemma NoBytes(x: bv32)
    ensures AddBytes(x, []) == x
  {
  }

  /** jhash2 of an array of fewer than 2^30 words is jhash of its bytes. */
  lemma WordsHashLikeBytes(k: seq<bv8>, initval: bv32)
    requires |k| % 4 == 0 && |k| < 0x1_0000_0000
    ensures HashWords(Words(k), Init(4 * |Words(k)| % 0x1_0000_0000, initval)) == HashBytes(k, Init(|k|, initval))
  {
    hide Init, HashWords, HashBytes, Words;
    WordsLength(k);
    SameHash(k, Init(|k|, initval));
  }

  // ----- one, two and three words -----

  function HashNWords(a: bv32, b: bv32, c: bv32, initval: bv32): bv32 { Final(State(Add(a, initval), Add(b, initval), Add(c, initval))).c }

  function Hash3Words(a: bv32, b: bv32, c: bv32, initval: bv32): bv32 { HashNWords(a, b, c, Add(Add(initval, JHASH_INITVAL), 12)) }

  function Hash2Words(a: bv32, b: bv32, initval: bv32): bv32 { HashNWords(a, b, 0, Add(Add(initval, JHASH_INITVAL), 8)) }

  function Hash1Word(a: bv32, initval: bv32): bv32 { HashNWords(a, 0, 0, Add(Add(initval, JHASH_INITVAL), 4)) }

  lemma AddCommutes(x: bv32, y: bv32)
    ensures Add(x, y) == Add(y, x) && Add(0, x) == x
  {
  }

  lemma InitIs(n: bv32, length: nat, initval: bv32)
    requires length < 0x1_0000_0000 && n == length as bv32
    ensures Init(length, initval).a == Add(Add(initval, JHASH_INITVAL), n)
  {
    hide Add;
    AddAssoc(initval, JHASH_INITVAL, n);
    AddCommutes(initval, Add(JHASH_INITVAL, n));
  }

  /** The fixed forms are the general hash of one, two and three words. */
  lemma FixedForms(a: bv32, b: bv32, c: bv32, initval: bv32)
    ensures Hash3Words(a, b, c, initval) == HashWords([a, b, c], Init(12, initval))
    ensures Hash2Words(a, b, initval) == HashWords([a, b], Init(8, initval))
    ensures Hash1Word(a, initval) == HashWords([a], Init(4, initval))
  {
    hide Add, Final, HashNWords, HashWords;
    InitIs(12, 12, initval);
    InitIs(8, 8, initval);
    InitIs(4, 4, initval);
    FixedForm(a, b, c, 12, initval);
    FixedForm(a, b, c, 8, initval);
    FixedForm(a, b, c, 4, initval);
  }

  lemma FixedForm(a: bv32, b: bv32, c: bv32, n: bv32, initval: bv32)
    ensures var x := Add(Add(initval, JHASH_INITVAL), n);
      && HashNWords(a, b, c, x) == HashWords([a, b, c], State(x, x, x))
      && HashNWords(a, b, 0, x) == HashWords([a, b], State(x, x, x))
      && HashNWords(a, 0, 0, x) == HashWords([a], State(x, x, x))
  {
    hide Add, Mix, Final;
    var x := Add(Add(initval, JHASH_INITVAL), n);
    AddCommutes(a, x);
    AddCommutes(b, x);
    AddCommutes(c, x);
    AddCommutes(x, 0);
  }

  /** A word hash of two blocks. */
  lemma KnownWords()
    ensures HashWords([1, 2, 3, 4], Init(16, 0)) == 0x66491246
  {
    var s := State(0xdc01260d, 0xf13d0a7b, 0xa7e6880a);
    assert Block(Init(16, 0), 1, 2, 3) == s;
    assert HashWords([4], s) == 0x66491246;
    hide Block, Init, Final;
    assert [1 as bv32, 2, 3, 4][3..] == [4];
  }

  /** The value of the last block, whose three words are already sums. */
  lemma LastBlock(k: seq<bv8>, s: State, w: State)
    requires 0 < |k| <= 12
    requires w == State(AddBytes(s.a, Clip(k, 0)), AddBytes(s.b, Clip(k, 1)), AddBytes(s.c, Clip(k, 2)))
    ensures HashBytes(k, s) == Final(w).c
  {
    hide AddBytes, Final;
  }

  lemma KnownSums()
    ensures AddBytes(0xdeadbef6, [1, 2, 3, 4]) == 0xe2b0c0f7
    ensures AddBytes(0xdeadbef6, [5, 6, 7]) == 0xdeb4c4fb
    ensures AddBytes(0x7bc8cb04, [13, 14]) == 0x7bc8d911
  {
  }

  lemma NothingAdded(x: bv32)
    ensures AddBytes(x, []) == x
  {
  }

  /** A byte hash with an incomplete word. */
  lemma KnownBytes()
    ensures HashBytes([1, 2, 3, 4, 5, 6, 7], Init(7, 0)) == 0xf0f71a09
  {
    var x: bv32 := 0xdeadbef6;
    assert Init(7, 0) == State(x, x, x);
    assert Final(State(0xe2b0c0f7, 0xdeb4c4fb, 0xdeadbef6)).c == 0xf0f71a09;
    hide Init, Final, AddBytes, HashBytes;
    var k: seq<bv8> := [1, 2, 3, 4, 5, 6, 7];
    assert k[0..4] == [1, 2, 3, 4] && k[4..] == [5, 6, 7];
    KnownSums();
    NothingAdded(x);
    LastBlock(k, State(x, x, x), State(0xe2b0c0f7, 0xdeb4c4fb, x));
  }

  lemma KnownBlock()
    ensures Block(Init(14, 7), Load32(1, 2, 3, 4), Load32(5, 6, 7, 8), Load32(9, 10, 11, 12)) == State(0x7bc8cb04, 0xc0dcfdab, 0x088ece4b)
  {
    assert Load32(1, 2, 3, 4) == 0x04030201 && Load32(5, 6, 7, 8) == 0x08070605 && Load32(9, 10, 11, 12) == 0x0c0b0a09;
    hide Load32;
    assert Init(14, 7) == State(0xdeadbf04, 0xdeadbf04, 0xdeadbf04);
  }

  /** A byte hash of two blocks, the second one incomplete. */
  lemma KnownBlocks()
    ensures HashBytes([1, 2, 3, 4, 5, 6, 7, 8, 9, 10, 11, 12, 13, 14], Init(14, 7)) == 0x273d9e32
  {
    var s := State(0x7bc8cb04, 0xc0dcfdab, 0x088ece4b);
    KnownBlock();
    assert Final(State(0x7bc8d911, 0xc0dcfdab, 0x088ece4b)).c == 0x273d9e32;
    hide Block, Init, Final, Load32, AddBytes;
    var k: seq<bv8> := [13, 14];
    assert k[0..] == k;
    KnownSums();
    NothingAdded(s.b);
    NothingAdded(s.c);
    LastBlock(k, s, State(0x7bc8d911, s.b, s.c));
    assert [1 as bv8, 2, 3, 4, 5, 6, 7, 8, 9, 10, 11, 12, 13, 14][12..] == k;
  }
}
