/**
 Line information of a loaded BPF program (libbpf/src/bpf_prog_linfo.c): the jited addresses are
 cut into one run per function, and a record is looked up in a run by address, or in the whole
 program by instruction offset.
 */
module ProgLinfo {
  import opened Machine

  // ----- how line infos are cut into functions -----

  ghost predicate Increasing(a: seq<uint64>, from: nat, to: nat) {
    to <= |a| && forall j :: from <= j < to - 1 ==> Before(a, j)
  }

  predicate Before(a: seq<uint64>, j: nat)
    requires j + 1 < |a|
  {
    a[j] < a[j + 1]
  }

  lemma {:induction false} IncreasingOrder(a: seq<uint64>, from: nat, to: nat, i: nat, j: nat)
    requires Increasing(a, from, to) && from <= i < j < to
    ensures a[i] < a[j]
    decreases j
  {
    assert Before(a, j - 1);
    if i < j - 1 { IncreasingOrder(a, from, to, i, j - 1); }
  }

  /** The distance to the last address of a function, in 64-bit arithmetic. */
  function Extent(start: uint64, last: uint64): nat { (last - start + 1) % WORD64 }

  /** Run `f` goes from `start` up to but not including `end`, where the next function begins: its addresses increase,
      `end` is the first place where the next function's address occurs, and the run fits into the function's length. */
  ghost predicate IsRun(jited: seq<uint64>, ksym: seq<uint64>, len: seq<nat>, f: nat, start: nat, end: nat)
    requires f + 1 < |ksym| == |len|
  {
    && start < end < |jited| && Increasing(jited, start, end)
    && jited[start] == ksym[f] && jited[end] == ksym[f + 1]
    && (forall j :: start < j < end ==> jited[j] != ksym[f + 1])
    && LiesWithin(ksym[f], len[f], jited[end - 1])
  }

  /** The address is among the `len` ones from `start` on; if they are all 64-bit addresses, the code does not count them. */
  predicate LiesWithin(start: uint64, len: nat, addr: uint64) { start <= addr < start + len || (start == 0 && addr == WORD64 - 1) }

  lemma ExtentFits(start: uint64, len: nat, last: uint64)
    requires start <= last
    ensures Extent(start, last) <= len <==> LiesWithin(start, len, last)
  {
  }

  /** The addresses of a run do not lie below its first one. */
  lemma NotBelow(jited: seq<uint64>, from: nat, to: nat)
    requires from < to && Increasing(jited, from, to)
    ensures jited[from] <= jited[to - 1]
  {
    if from < to - 1 { IncreasingOrder(jited, from, to, from, to - 1); }
  }

  /** `idx` are the starts of all runs. */
  ghost predicate IsDissection(jited: seq<uint64>, ksym: seq<uint64>, len: seq<nat>, idx: seq<nat>)
    requires |ksym| == |len|
  {
    && |idx| == |ksym| > 0 && |jited| > 0 && idx[0] == 0 && jited[0] == ksym[0]
    && forall f :: 0 <= f < |idx| - 1 ==> IsRun(jited, ksym, len, f, idx[f], idx[f + 1])
  }

  /** The runs found so far. */
  ghost predicate Runs(jited: seq<uint64>, ksym: seq<uint64>, len: seq<nat>, idx: seq<nat>, n: nat)
    requires |ksym| == |len|
  {
    && 0 < n <= |idx| == |ksym| && |jited| > 0 && idx[0] == 0 && jited[0] == ksym[0]
    && forall f :: 0 <= f < n - 1 ==> IsRun(jited, ksym, len, f, idx[f], idx[f + 1])
  }

  /** The search for the next function has reached `i`. */
  ghost predicate Searching(jited: seq<uint64>, ksym: seq<uint64>, f: nat, start: nat, i: nat)
    requires 0 < f <= |ksym|
  {
    && start < i <= |jited| && jited[start] == ksym[f - 1]
    && (f < |ksym| ==> Increasing(jited, start, i) && forall j :: start < j < i ==> jited[j] != ksym[f])
  }

  lemma FirstRun(jited: seq<uint64>, ksym: seq<uint64>, len: seq<nat>, idx: seq<nat>)
    requires |ksym| == |len| == |idx| > 0 && |jited| > 0 && idx[0] == 0 && jited[0] == ksym[0]
    ensures Runs(jited, ksym, len, idx, 1) && Searching(jited, ksym, 1, 0, 1)
  {
  }

  lemma SearchOn(jited: seq<uint64>, ksym: seq<uint64>, f: nat, start: nat, i: nat)
    requires 0 < f < |ksym| && Searching(jited, ksym, f, start, i) && i < |jited| && jited[i] != ksym[f] && jited[i] > jited[i - 1]
    ensures Searching(jited, ksym, f, start, i + 1)
  {
  }

  lemma AllRuns(jited: seq<uint64>, ksym: seq<uint64>, len: seq<nat>, idx: seq<nat>)
    requires |ksym| == |len| && Runs(jited, ksym, len, idx, |ksym|)
    ensures IsDissection(jited, ksym, len, idx)
  {
  }

  /** Any dissection starts like the runs found so far. */
  lemma {:induction false} SameRuns(jited: seq<uint64>, ksym: seq<uint64>, len: seq<nat>, idx: seq<nat>, n: nat, other: seq<nat>, f: nat)
    requires |ksym| == |len| && Runs(jited, ksym, len, idx, n) && IsDissection(jited, ksym, len, other) && f < n
    ensures other[f] == idx[f]
    decreases f
  {
    if f > 0 {
      SameRuns(jited, ksym, len, idx, n, other, f - 1);
      var g := f - 1;
      assert IsRun(jited, ksym, len, g, idx[g], idx[g + 1]);
      assert IsRun(jited, ksym, len, g, other[g], other[g + 1]);
    }
  }

  /** If the search gets stuck, there is no dissection. */
  lemma Stuck(jited: seq<uint64>, ksym: seq<uint64>, len: seq<nat>, idx: seq<nat>, f: nat, i: nat, other: seq<nat>)
    requires |ksym| == |len| && 0 < f < |ksym| && Runs(jited, ksym, len, idx, f) && Searching(jited, ksym, f, idx[f - 1], i)
    requires i < |jited| ==> (if jited[i] == ksym[f] then Extent(ksym[f - 1], jited[i - 1]) > len[f - 1] else jited[i] <= jited[i - 1])
    ensures !IsDissection(jited, ksym, len, other)
  {
    if IsDissection(jited, ksym, len, other) {
      var g := f - 1;
      SameRuns(jited, ksym, len, idx, f, other, g);
      assert IsRun(jited, ksym, len, g, other[g], other[g + 1]);
      NotBelow(jited, other[g], other[g + 1]);
      ExtentFits(ksym[g], len[g], jited[other[g + 1] - 1]);
      var ordered := i < |jited| && Before(jited, i - 1);
    }
  }

  /** The sizes of the first `n - 1` runs. */
  ghost predicate Sizes(nr: seq<nat>, idx: seq<nat>, n: nat) {
    n <= |nr| == |idx| && forall f :: 0 <= f < n - 1 ==> idx[f] + nr[f] == idx[f + 1]
  }

  // ----- the index -----

  class LineInfo {
    const linfo: seq<nat>          // instruction offsets
    const jited: seq<uint64>       // addresses of the same records
    const nrPerFunc: array<nat>
    const funcIdx: array<nat>

    constructor (linfo: seq<nat>, jited: seq<uint64>, nrFuncs: nat)
      requires |linfo| == |jited|
      ensures this.linfo == linfo && this.jited == jited && nrPerFunc.Length == funcIdx.Length == nrFuncs && nrPerFunc != funcIdx
      ensures fresh(nrPerFunc) && fresh(funcIdx)
    {
      this.linfo, this.jited := linfo, jited;
      nrPerFunc, funcIdx := new nat[nrFuncs], new nat[nrFuncs];
    }

    /** The index holds a dissection and the sizes of its runs, which together are all records. */
    ghost predicate Indexed(ksym: seq<uint64>, len: seq<nat>)
      requires |ksym| == |len|
      reads nrPerFunc, funcIdx
    {
      && nrPerFunc.Length == funcIdx.Length == |ksym| && IsDissection(jited, ksym, len, funcIdx[..])
      && Sizes(nrPerFunc[..], funcIdx[..], |ksym|)
      && funcIdx[|ksym| - 1] < |jited| && nrPerFunc[|ksym| - 1] == |jited| - funcIdx[|ksym| - 1]
    }

    /** dissect_jited_func succeeds exactly when there is a dissection, and finds it. */
    method Dissect(ksym: seq<uint64>, len: seq<nat>) returns (ok: bool)
      requires |ksym| == |len| == nrPerFunc.Length == funcIdx.Length && |ksym| > 0 && |jited| > 0 && nrPerFunc != funcIdx
      modifies nrPerFunc, funcIdx
      ensures ok ==> Indexed(ksym, len)
      ensures !ok ==> forall other: seq<nat> :: !IsDissection(jited, ksym, len, other)
    {
      if ksym[0] != jited[0] { return false; }
      funcIdx[0] := 0;
      FirstRun(jited, ksym, len, funcIdx[..]);
      hide Runs, Searching, IsDissection, Extent;
      var prev: nat, i: nat, f: nat := 0, 1, 1;
      while i < |jited| && f < |ksym|
        invariant 1 <= i <= |jited| && 1 <= f <= |ksym| && prev == funcIdx[f - 1] < i
        invariant Runs(jited, ksym, len, funcIdx[..], f) && Searching(jited, ksym, f, prev, i)
        invariant Sizes(nrPerFunc[..], funcIdx[..], f)
      {
        var last := jited[i - 1];
        if ksym[f] == jited[i] {
          ghost var was, sizes := funcIdx[..], nrPerFunc[..];
          if Extent(ksym[f - 1], last) > len[f - 1] {
            forall other: seq<nat> ensures !IsDissection(jited, ksym, len, other) { Stuck(jited, ksym, len, funcIdx[..], f, i, other); }
            return false;
          }
          RunFound(jited, ksym, len, was, f, i);
          funcIdx[f] := i;
          var n: nat := i - prev;
          nrPerFunc[f - 1] := n;
          prev := i;
          assert funcIdx[..] == was[f := i] && nrPerFunc[..] == sizes[f - 1 := n];
          f := f + 1;
        } else if jited[i] <= last {
          forall other: seq<nat> ensures !IsDissection(jited, ksym, len, other) { Stuck(jited, ksym, len, funcIdx[..], f, i, other); }
          return false;
        } else {
          SearchOn(jited, ksym, f, prev, i);
        }
        i := i + 1;
      }
      if f != |ksym| {
        forall other: seq<nat> ensures !IsDissection(jited, ksym, len, other) { Stuck(jited, ksym, len, funcIdx[..], f, i, other); }
        return false;
      }
      AllRuns(jited, ksym, len, funcIdx[..]);
      ghost var sizes := nrPerFunc[..];
      var n: nat := |jited| - prev;
      nrPerFunc[|ksym| - 1] := n;
      assert nrPerFunc[..] == sizes[|ksym| - 1 := n];
      return true;
    }

    /** The records of a function after the first `skip` of it, as far as their addresses are not above `addr`: the last
        of them is returned. */
    method FindAddrFunc(addr: uint64, func: nat, skip: nat, ghost ksym: seq<uint64>, ghost len: seq<nat>) returns (r: Option<nat>)
      requires |ksym| == |len| && Indexed(ksym, len)
      ensures r == None <==> func >= |ksym| || skip >= nrPerFunc[func] || (funcIdx[func] + skip < |jited| && addr < jited[funcIdx[func] + skip])
      ensures r.Some? ==> IsLookup(jited, funcIdx[func] + skip, funcIdx[func] + nrPerFunc[func], addr, r.value)
    {
      if func >= nrPerFunc.Length { return None; }
      RunFits(ksym, len, func);
      var n := nrPerFunc[func];
      if skip >= n { return None; }
      var start := funcIdx[func] + skip;
      if addr < jited[start] { return None; }
      var k := Scan(jited, start, start + (n - skip), addr);
      return Some(k);
    }

    /** The same by instruction offset, over all records. */
    method Find(insnOff: nat, skip: nat) returns (r: Option<nat>)
      ensures r == None <==> skip >= |linfo| || insnOff < linfo[skip]
      ensures r.Some? ==> IsLookup(linfo, skip, |linfo|, insnOff, r.value)
    {
      if skip >= |linfo| { return None; }
      if insnOff < linfo[skip] { return None; }
      var k := Scan(linfo, skip, |linfo|, insnOff);
      return Some(k);
    }

    lemma RunFits(ksym: seq<uint64>, len: seq<nat>, func: nat)
      requires |ksym| == |len| && Indexed(ksym, len) && func < |ksym|
      ensures funcIdx[func] < funcIdx[func] + nrPerFunc[func] <= |jited|
      ensures func + 1 < |ksym| ==> Increasing(jited, funcIdx[func], funcIdx[func] + nrPerFunc[func])
    {
      if func + 1 < |ksym| {
        assert IsRun(jited, ksym, len, func, funcIdx[..][func], funcIdx[..][func + 1]);
        assert funcIdx[..][func] + nrPerFunc[..][func] == funcIdx[..][func + 1];
      }
    }

    /** For every function except the last, the record found is the one with the greatest address not above the query. */
    lemma FoundGreatest(ksym: seq<uint64>, len: seq<nat>, func: nat, skip: nat, addr: uint64, r: nat)
      requires |ksym| == |len| && Indexed(ksym, len) && func + 1 < |ksym| && skip < nrPerFunc[func]
      requires IsLookup(jited, funcIdx[func] + skip, funcIdx[func] + nrPerFunc[func], addr, r)
      ensures IsGreatest(jited, funcIdx[func] + skip, funcIdx[func] + nrPerFunc[func], addr, r)
    {
      RunFits(ksym, len, func);
      LookupGreatest(jited, funcIdx[func] + skip, funcIdx[func] + nrPerFunc[func], addr, r);
    }
  }

  lemma RunFound(jited: seq<uint64>, ksym: seq<uint64>, len: seq<nat>, idx: seq<nat>, f: nat, i: nat)
    requires |ksym| == |len| && 0 < f < |ksym| && Runs(jited, ksym, len, idx, f) && Searching(jited, ksym, f, idx[f - 1], i) && i < |jited|
    requires jited[i] == ksym[f] && Extent(ksym[f - 1], jited[i - 1]) <= len[f - 1]
    ensures Runs(jited, ksym, len, idx[f := i], f + 1) && Searching(jited, ksym, f + 1, i, i + 1)
  {
    var idx' := idx[f := i];
    NotBelow(jited, idx[f - 1], i);
    ExtentFits(ksym[f - 1], len[f - 1], jited[i - 1]);
    forall g | 0 <= g < f ensures IsRun(jited, ksym, len, g, idx'[g], idx'[g + 1]) {
      if g < f - 1 { assert IsRun(jited, ksym, len, g, idx[g], idx[g + 1]); }
    }
  }

  // ----- looking up -----

  /** `r` is the last record of the longest stretch from `from` on that is not above `x`. */
  ghost predicate IsLookup(a: seq<nat>, from: nat, to: nat, x: nat, r: nat) {
    from <= r < to <= |a| && (forall j :: from <= j <= r ==> a[j] <= x) && (r + 1 < to ==> x < a[r + 1])
  }

  /** `r` is the only record with the greatest value not above `x`. */
  ghost predicate IsGreatest(a: seq<nat>, from: nat, to: nat, x: nat, r: nat) {
    from <= r < to <= |a| && a[r] <= x && forall j :: from <= j < to && j != r && a[j] <= x ==> a[j] < a[r]
  }

  /** The scanning loop that both lookups share. */
  method Scan(a: seq<nat>, from: nat, to: nat, x: nat) returns (r: nat)
    requires from < to <= |a| && a[from] <= x
    ensures IsLookup(a, from, to, x, r)
  {
    var i := 0;
    while i < to - from
      invariant 0 <= i <= to - from && forall j :: from <= j < from + i ==> a[j] <= x
    {
      if x < a[from + i] { break; }
      i := i + 1;
    }
    r := from + i - 1;
  }

  lemma LookupGreatest(a: seq<uint64>, from: nat, to: nat, x: nat, r: nat)
    requires Increasing(a, from, to) && IsLookup(a, from, to, x, r)
    ensures IsGreatest(a, from, to, x, r)
  {
    forall j | from <= j < to && j != r && a[j] <= x ensures a[j] < a[r] {
      if j < r { IncreasingOrder(a, from, to, j, r); } else if r + 1 < j { IncreasingOrder(a, from, to, r + 1, j); }
    }
  }

  /** The records of the last function are not checked: what is found there need not be the greatest. */
  lemma LastFunctionUnchecked()
    ensures var jited: seq<uint64> := [10, 30, 20];
      IsDissection(jited, [10], [1], [0]) && IsLookup(jited, 0, 3, 25, 0) && !IsGreatest(jited, 0, 3, 25, 0)
  {
    var jited: seq<uint64> := [10, 30, 20];
    assert jited[2] <= 25 && jited[2] > jited[0];
  }

  lemma {:induction false} LookupFrom(a: seq<nat>, from: nat, to: nat, x: nat, i: nat) returns (r: nat)
    requires from <= i < to <= |a| && forall j :: from <= j <= i ==> a[j] <= x
    ensures IsLookup(a, from, to, x, r) && r >= i
    decreases (to - i)
  {
    if i + 1 < to && a[i + 1] <= x { r := LookupFrom(a, from, to, x, i + 1); } else { r := i; }
  }

  lemma {:induction false} FirstDrop(a: seq<uint64>, from: nat, to: nat) returns (j: nat)
    requires from < to <= |a| && !Increasing(a, from, to)
    ensures from <= j < to - 1 && !Before(a, j) && Increasing(a, from, j + 1)
    decreases 0 + to
  {
    if to - 1 > from && !Increasing(a, from, to - 1) { j := FirstDrop(a, from, to - 1); } else { j := to - 2; }
  }

  /** What is found is the greatest for every query exactly when the stretch increases. */
  lemma GreatestExactly(a: seq<uint64>, from: nat, to: nat)
    requires from < to <= |a|
    ensures (forall x: nat, r: nat :: IsLookup(a, from, to, x, r) ==> IsGreatest(a, from, to, x, r)) <==> Increasing(a, from, to)
  {
    if Increasing(a, from, to) {
      forall x: nat, r: nat | IsLookup(a, from, to, x, r) ensures IsGreatest(a, from, to, x, r) { LookupGreatest(a, from, to, x, r); }
    } else {
      var j := FirstDrop(a, from, to);
      forall k | from <= k < j ensures a[k] <= a[j] { IncreasingOrder(a, from, j + 1, k, j); }
      hide Increasing, IsLookup;
      var r := LookupFrom(a, from, to, a[j], j + 1);
      NotGreatest(a, from, to, a[j], r, j);
    }
  }

  lemma NotGreatest(a: seq<nat>, from: nat, to: nat, x: nat, r: nat, j: nat)
    requires IsLookup(a, from, to, x, r) && from <= j < r && a[j] == x
    ensures !IsGreatest(a, from, to, x, r)
  {
  }
}
