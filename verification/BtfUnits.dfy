/**
 How complete BTF deduplication is. The struct pass leaves a verdict for every struct and union, and the verdicts
 tell which of them are merged: over input that consists of units without duplicates of their own, as compilation
 units are, exactly the types that mean the same.
 */
module BtfUnits {
  import opened BtfGraph
  import opened BtfForest
  import opened BtfEquiv
  import opened BtfStages

  /** Two types mean the same to the check. */
  ghost predicate SameIn(g: Graph, noFwd: bool, a: nat, b: nat)
    requires WellFormed(g)
  {
    a < |g| && b < |g| && Bisimilar(View(g, noFwd), a, View(g, noFwd), b)
  }

  lemma SameInTrans(g: Graph, noFwd: bool, a: nat, b: nat, c: nat)
    requires WellFormed(g) && SameIn(g, noFwd, a, b) && SameIn(g, noFwd, b, c)
    ensures SameIn(g, noFwd, a, c)
  {
    hide Bisimilar, View;
    BisimilarTrans(View(g, noFwd), a, View(g, noFwd), b, View(g, noFwd), c);
  }

  lemma SameInSym(g: Graph, noFwd: bool, a: nat, b: nat)
    requires WellFormed(g) && SameIn(g, noFwd, a, b)
    ensures SameIn(g, noFwd, b, a)
  {
    hide Bisimilar, View;
    BisimilarSym(View(g, noFwd), a, View(g, noFwd), b);
  }

  lemma SameInRefl(g: Graph, noFwd: bool, a: nat)
    requires WellFormed(g) && a < |g|
    ensures SameIn(g, noFwd, a, a)
  {
    BisimilarRefl(View(g, noFwd), a);
  }

  lemma SameInRoot(g: Graph, noFwd: bool, m: seq<nat>, a: nat)
    requires WellFormed(g) && |m| == |g| && Forest(m) && SoundMap(View(g, noFwd), m) && a < |g|
    ensures SameIn(g, noFwd, a, Root(m, a))
  {
    SoundRoot(View(g, noFwd), m, a);
  }

  /** Equal labels in the view. */
  lemma SameInLabel(g: Graph, noFwd: bool, a: nat, c: nat)
    requires WellFormed(g) && SameIn(g, noFwd, a, c)
    ensures Label(Shown(noFwd, g[a])) == Label(Shown(noFwd, g[c])) && |Shown(noFwd, g[a]).refs| == |Shown(noFwd, g[c]).refs|
  {
    BisimilarUnfold(View(g, noFwd), a, View(g, noFwd), c);
  }

  /** The view shows void and data as they are. */
  lemma SameData(g: Graph, noFwd: bool, a: nat, c: nat)
    requires WellFormed(g) && SameIn(g, noFwd, a, c)
    ensures a == 0 <==> c == 0
    ensures IsData(g[a].Kind()) || IsData(g[c].Kind()) ==> g[a].Kind() == g[c].Kind() && g[a].nameOff == g[c].nameOff
  {
    SameInLabel(g, noFwd, a, c);
    var t, u := Shown(noFwd, g[a]), Shown(noFwd, g[c]);
    assert Label(t).Kind() == t.Kind() && Label(u).Kind() == u.Kind() && Label(t).nameOff == t.nameOff && Label(u).nameOff == u.nameOff;
  }

  // ----- a closed map for types that mean the same -----

  /** Types that mean the same pass the check, and so do the types they refer to. */
  ghost predicate Decides(g: Graph, noFwd: bool)
    requires WellFormed(g)
  {
    forall a: nat, c: nat :: SameIn(g, noFwd, a, c) && a != 0 && !IsData(g[a].Kind()) ==> Passes(g, noFwd, a, c)
  }

  ghost predicate Passes(g: Graph, noFwd: bool, a: nat, c: nat)
    requires WellFormed(g) && a < |g| && c < |g|
  {
    && NodeOk(noFwd, g[a], g[c])
    && (ComparesRefs(g[a], g[c]) ==>
          && |g[a].refs| == |g[c].refs|
          && forall k :: 0 <= k < |g[a].refs| ==> SameIn(g, noFwd, g[a].refs[k], g[c].refs[k]))
  }

  /** A unit holds the types that its structs, unions and reference types refer to, and no two that mean the same. */
  ghost predicate IsUnit(g: Graph, noFwd: bool, unit: set<nat>)
    requires WellFormed(g)
  {
    && (forall a :: a in unit ==> a < |g|)
    && (forall i, a :: i in unit && RefersTo(g, i, a) ==> a in unit)
    && (forall a, b :: a in unit && b in unit && SameIn(g, noFwd, a, b) ==> a == b)
  }

  ghost predicate InUnit(g: Graph, noFwd: bool, i: nat)
    requires WellFormed(g)
  {
    exists unit: set<nat> :: i in unit && IsUnit(g, noFwd, unit)
  }

  /** `a` of the unit means the same as `c`. */
  ghost predicate Partner(g: Graph, noFwd: bool, unit: set<nat>, a: nat, c: nat)
    requires WellFormed(g)
  {
    a in unit && SameIn(g, noFwd, a, c) && a != 0 && !IsData(g[a].Kind())
  }

  ghost function PartnerOf(g: Graph, noFwd: bool, unit: set<nat>, c: nat): (a: nat)
    requires WellFormed(g)
    ensures a != UNPROCESSED_ID ==> Partner(g, noFwd, unit, a, c)
  {
    if exists a: nat :: Partner(g, noFwd, unit, a, c) then (var a: nat :| Partner(g, noFwd, unit, a, c); a) else UNPROCESSED_ID
  }

  /** Pairs every type with its partner in the unit. */
  ghost function PartnerMap(g: Graph, noFwd: bool, unit: set<nat>): (w: seq<nat>)
    requires WellFormed(g)
    ensures |w| == |g| && forall c :: 0 <= c < |g| ==> w[c] == PartnerOf(g, noFwd, unit, c)
  {
    seq(|g|, c requires 0 <= c < |g| => PartnerOf(g, noFwd, unit, c))
  }

  lemma PartnerUnique(g: Graph, noFwd: bool, unit: set<nat>, a: nat, c: nat)
    requires WellFormed(g) && |g| <= MAX_NR_TYPES + 1 && IsUnit(g, noFwd, unit) && Partner(g, noFwd, unit, a, c)
    ensures PartnerOf(g, noFwd, unit, c) == a
  {
    hide WellFormed, SameIn;
    var b := PartnerOf(g, noFwd, unit, c);
    assert Partner(g, noFwd, unit, b, c);
    SameInSym(g, noFwd, b, c);
    SameInTrans(g, noFwd, a, c, b);
  }

  /** A type of the unit and one that means the same are settled. */
  lemma PartnerCovered(x: Context, unit: set<nat>, a: nat, c: nat)
    requires ContextOk(x) && SoundMap(View(x.g, x.noFwd), x.m) && IsUnit(x.g, x.noFwd, unit)
    requires a < |x.g| && c < |x.g| && a in unit && SameIn(x.g, x.noFwd, a, c) && (IsData(x.g[a].Kind()) ==> a == c)
    ensures Covered(x, PartnerMap(x.g, x.noFwd, unit), a, c)
  {
    hide WellFormed, Forest, SoundMap, IsUnit, SameIn, View;
    var c0 := FwdTarget(x, c);
    SameData(x.g, x.noFwd, a, c);
    if a != 0 && !IsData(x.g[a].Kind()) {
      if c0 != c { SameInRoot(x.g, x.noFwd, x.m, c); } else { SameInRefl(x.g, x.noFwd, c); }
      SameInTrans(x.g, x.noFwd, a, c, c0);
      PartnerUnique(x.g, x.noFwd, unit, a, c0);
    }
  }

  lemma PartnerClosedAt(x: Context, unit: set<nat>, c: nat)
    requires ContextOk(x) && SoundMap(View(x.g, x.noFwd), x.m) && IsUnit(x.g, x.noFwd, unit)
    requires Decides(x.g, x.noFwd) && !DataClash(x.g) && c < |x.g|
    requires var w := PartnerMap(x.g, x.noFwd, unit); w[c] <= MAX_NR_TYPES && HypotOk(x.g, w)
    ensures ClosedAt(x, PartnerMap(x.g, x.noFwd, unit), c)
  {
    var w := PartnerMap(x.g, x.noFwd, unit);
    var a := w[c];
    assert Partner(x.g, x.noFwd, unit, a, c) && Passes(x.g, x.noFwd, a, c);
    if ComparesRefs(x.g[a], x.g[c]) {
      assert RefsBelow(x.g[a], |x.g|) && RefsBelow(x.g[c], |x.g|);
      forall k | 0 <= k < |x.g[a].refs| ensures Covered(x, w, x.g[a].refs[k], x.g[c].refs[k]) {
        var a', c' := x.g[a].refs[k], x.g[c].refs[k];
        assert RefersTo(x.g, a, a');
        if IsData(x.g[a'].Kind()) && a' != c' {
          SameData(x.g, x.noFwd, a', c');
          assert DataPair(x.g, a', c');
        }
        PartnerCovered(x, unit, a', c');
      }
    }
  }

  /** In a unit without duplicates the check finds every type that means the same. */
  lemma SettledInUnit(x: Context, unit: set<nat>, cand: nat, canon: nat)
    requires ContextOk(x) && SoundMap(View(x.g, x.noFwd), x.m) && IsUnit(x.g, x.noFwd, unit) && cand in unit
    requires Decides(x.g, x.noFwd) && !DataClash(x.g) && SameIn(x.g, x.noFwd, cand, canon) && !IsData(x.g[cand].Kind())
    ensures !NoWitness(x, cand, canon)
  {
    var w := PartnerMap(x.g, x.noFwd, unit);
    PartnerCovered(x, unit, cand, canon);
    hide WellFormed, Forest, SoundMap, IsUnit, SameIn, View, Decides, DataClash, Covered, ClosedAt;
    forall c | 0 <= c < |w| && w[c] <= MAX_NR_TYPES ensures w[c] < |x.g| { PartnerBelow(x.g, x.noFwd, unit, c); }
    assert HypotOk(x.g, w);
    forall c | 0 <= c < |w| && w[c] <= MAX_NR_TYPES ensures ClosedAt(x, w, c) { PartnerClosedAt(x, unit, c); }
    assert Closed(x, w);
  }

  lemma PartnerBelow(g: Graph, noFwd: bool, unit: set<nat>, c: nat)
    requires WellFormed(g) && PartnerOf(g, noFwd, unit, c) <= MAX_NR_TYPES
    ensures PartnerOf(g, noFwd, unit, c) < |g|
  {
    assert Partner(g, noFwd, unit, PartnerOf(g, noFwd, unit, c), c);
  }

  // ----- the verdicts of the struct pass -----

  /**
   How a struct or union was settled: linked while another one was merged; as the first of its meaning, checked against
   all candidates in context `x`; or as the same as a candidate, by closed map `w`.
   */
  datatype Verdict = Linked | First(x: Context) | Same(x: Context, w: seq<nat>)

  /** `i` is an earlier struct or union with the signature and the shallow record of `j`. */
  predicate Rival(g: Graph, hash: BtfType -> int, i: nat, j: nat) {
    0 < i < j < |g| && IsComposite(g[i].Kind()) && hash(g[i]) == hash(g[j]) && ShallowEqualStruct(g[j], g[i])
  }

  /** A state of the struct pass that started with map `m0`. */
  ghost predicate CheckedIn(g: Graph, noFwd: bool, m0: seq<nat>, x: Context)
    requires WellFormed(g)
  {
    && x.g == g && x.noFwd == noFwd && ContextOk(x)
    && (Meant(g, noFwd) ==> SoundMap(View(g, noFwd), x.m))
    && OnlyRoots(m0, x.m)
  }

  /** The check that settled `k` also linked `j`, the root of a type it paired. */
  ghost predicate LinkedBy(g: Graph, log: seq<Verdict>, k: nat, j: nat) {
    k < |log| && log[k].Same? && Forest(log[k].x.m) && |log[k].w| == |log[k].x.m| && Met(log[k].x.m, log[k].w, j)
  }

  ghost predicate LinkedBefore(g: Graph, log: seq<Verdict>, i: nat, j: nat) {
    exists k: nat :: k < i && LinkedBy(g, log, k, j)
  }

  /** The verdict on `j` holds in map `m`. */
  ghost predicate VerdictOk(g: Graph, noFwd: bool, hash: BtfType -> int, m0: seq<nat>, m: seq<nat>, log: seq<Verdict>, j: nat)
    requires WellFormed(g) && |g| == |m| == |log| && Forest(m) && j < |g|
  {
    match log[j]
    case First(x) => m[j] == j && CheckedIn(g, noFwd, m0, x) && AllRefuted(g, hash, m, x, j)
    case Same(x, w) =>
      && Rival(g, hash, m[j], j) && m[m[j]] == m[j]
      && CheckedIn(g, noFwd, m0, x) && !IsMapped(x.m, j)
      && |w| == |g| && Closed(x, w) && Covered(x, w, j, m[j]) && FwdsResolved(g, w, m)
    case Linked => IsMapped(m, j) && m[j] != j && LinkedBefore(g, log, j, j)
  }

  ghost predicate AllRefuted(g: Graph, hash: BtfType -> int, m: seq<nat>, x: Context, j: nat)
    requires |g| == |m| && ContextOk(x) && x.g == g
  {
    forall i: nat :: Rival(g, hash, i, j) && m[i] == i ==> NoWitness(x, j, i)
  }

  /** The struct pass that started with `m0` has reached `i`. */
  ghost predicate SettledUpTo(g: Graph, noFwd: bool, hash: BtfType -> int, m0: seq<nat>, m: seq<nat>, log: seq<Verdict>, i: nat)
    requires WellFormed(g) && |g| == |m| == |log| && Forest(m)
  {
    && OnlyRoots(m0, m) && StillMapped(m0, m)
    && (forall j :: 0 < j < i && j < |g| && IsComposite(g[j].Kind()) ==> VerdictOk(g, noFwd, hash, m0, m, log, j))
    && (forall j :: i <= j < |g| && IsComposite(g[j].Kind()) ==> m[j] != j && (IsMapped(m, j) ==> LinkedBefore(g, log, i, j)))
  }

  /** Structs and unions other than `x` that were mapped stay so, and none of them becomes canonical. */
  ghost predicate Stable(g: Graph, m: seq<nat>, m': seq<nat>, x: nat)
    requires |g| == |m| == |m'|
  {
    forall i :: 0 <= i < |g| && i != x && IsComposite(g[i].Kind()) ==> (IsMapped(m, i) ==> m'[i] == m[i]) && (m'[i] == i ==> m[i] == i)
  }

  /** Other structs and unions that a step with verdict `v` linked. */
  ghost predicate NewlyLinked(g: Graph, m: seq<nat>, m': seq<nat>, x: nat, v: Verdict)
    requires |g| == |m| == |m'|
  {
    forall j :: 0 <= j < |g| && j != x && IsComposite(g[j].Kind()) && IsMapped(m', j) && !IsMapped(m, j) ==>
      v.Same? && Forest(v.x.m) && |v.w| == |v.x.m| && Met(v.x.m, v.w, j)
  }

  /** What settling one struct or union does, from map `m` and table `tbl` to map `m'`. */
  ghost predicate StructStep(g: Graph, noFwd: bool, hash: BtfType -> int, tbl: Table, m: seq<nat>, m': seq<nat>, x: nat, v: Verdict)
    requires WellFormed(g) && |g| == |m| == |m'| && Forest(m') && x < |g|
  {
    && Stable(g, m, m', x) && PathsKept(g, m, m') && OnlyRoots(m, m') && StillMapped(m, m') && NewlyLinked(g, m, m', x, v)
    && if !IsComposite(g[x].Kind()) then m' == m
       else match v
         case Linked => IsMapped(m, x) && m' == m
         case First(y) => y == Context(g, m, noFwd) && ContextOk(y) && !IsMapped(m, x) && m'[x] == x && NoneFound(y, hash, tbl, x)
         case Same(y, w) =>
           && y == Context(g, m, noFwd) && ContextOk(y) && !IsMapped(m, x)
           && m'[x] < |g| && m'[x] != x && m[m'[x]] == m'[x] == m'[m'[x]]
           && IsComposite(g[m'[x]].Kind()) && hash(g[m'[x]]) == hash(g[x]) && ShallowEqualStruct(g[x], g[m'[x]])
           && |w| == |g| && Closed(y, w) && Covered(y, w, x, m'[x]) && FwdsResolved(g, w, m')
  }

  ghost predicate NoneFound(y: Context, hash: BtfType -> int, tbl: Table, x: nat)
    requires ContextOk(y) && x < |y.g|
  {
    forall c: nat :: InTable(tbl, hash(y.g[x]), c) && c < |y.g| && ShallowEqualStruct(y.g[x], y.g[c]) ==> NoWitness(y, x, c)
  }

  lemma StepIdle(g: Graph, noFwd: bool, hash: BtfType -> int, tbl: Table, m: seq<nat>, x: nat)
    requires WellFormed(g) && |g| == |m| && Forest(m) && x < |g| && (IsMapped(m, x) || !IsComposite(g[x].Kind()))
    ensures StructStep(g, noFwd, hash, tbl, m, m, x, Linked)
  {
    hide WellFormed, Forest;
  }

  lemma StepFirst(g: Graph, noFwd: bool, hash: BtfType -> int, tbl: Table, m: seq<nat>, x: nat)
    requires ContextOk(Context(g, m, noFwd)) && x < |g| && !IsMapped(m, x) && IsComposite(g[x].Kind())
    requires NoneFound(Context(g, m, noFwd), hash, tbl, x) && Forest(m[x := x])
    ensures StructStep(g, noFwd, hash, tbl, m, m[x := x], x, First(Context(g, m, noFwd)))
  {
    hide WellFormed, Forest, NoneFound;
  }

  /** A candidate was found and merged, which led to map `m1`, and `x` was linked to it. */
  lemma StepSame(g: Graph, noFwd: bool, hash: BtfType -> int, tbl: Table, m: seq<nat>, m1: seq<nat>, w: seq<nat>, x: nat, c: nat)
    requires ContextOk(Context(g, m, noFwd)) && x < |g| && c < |g| && x != c && !IsMapped(m, x) && IsComposite(g[x].Kind())
    requires |m1| == |m| == |w| && Forest(m1) && Grown(g, m, m1) && MetOnly(m, w, m1) && FwdsResolved(g, w, m1)
    requires m[c] == c && hash(g[c]) == hash(g[x]) && ShallowEqualStruct(g[x], g[c])
    requires Closed(Context(g, m, noFwd), w) && Covered(Context(g, m, noFwd), w, x, c)
    requires Forest(m1[x := c]) && LinksOk(g, m1[x := c])
    ensures StructStep(g, noFwd, hash, tbl, m, m1[x := c], x, Same(Context(g, m, noFwd), w))
  {
    var m' := m1[x := c];
    SameOthers(g, m, m1, x, c);
    assert NewlyLinked(g, m, m', x, Same(Context(g, m, noFwd), w)) by { MetLinked(g, m, m1, w, x, c); }
    hide WellFormed, Forest, Closed, Covered, LinksOk, PathsKept, FwdsResolved, Grown, MetOnly, NewlyLinked, Stable, OnlyRoots, StillMapped;
    ResolvedStays(g, w, m1, m');
  }

  lemma SameOthers(g: Graph, m: seq<nat>, m1: seq<nat>, x: nat, c: nat)
    requires |g| == |m| == |m1| <= MAX_NR_TYPES + 1 && x < |g| && c < |g| && x != c && !IsMapped(m, x) && IsComposite(g[x].Kind()) && Grown(g, m, m1) && m[c] == c
    requires IsComposite(g[c].Kind())
    ensures m1[c] == c && PathsKept(g, m1, m1[x := c]) && PathsKept(g, m, m1[x := c])
    ensures Stable(g, m, m1[x := c], x) && OnlyRoots(m, m1[x := c]) && StillMapped(m, m1[x := c])
  {
  }

  lemma MetLinked(g: Graph, m: seq<nat>, m1: seq<nat>, w: seq<nat>, x: nat, c: nat)
    requires |g| == |m| == |m1| == |w| && x < |g| && Forest(m) && MetOnly(m, w, m1)
    ensures forall j :: 0 <= j < |g| && j != x && IsMapped(m1[x := c], j) && !IsMapped(m, j) ==> Met(m, w, j)
  {
    hide Forest, Met;
  }

  /** An earlier verdict still holds after a step. */
  lemma VerdictKept(g: Graph, noFwd: bool, hash: BtfType -> int, m0: seq<nat>, m: seq<nat>, m': seq<nat>, log: seq<Verdict>, x: nat, v: Verdict, j: nat)
    requires WellFormed(g) && |g| == |m| == |m'| == |log| && Forest(m) && Forest(m') && LinksOk(g, m') && 0 < j < x < |g|
    requires Stable(g, m, m', x) && PathsKept(g, m, m') && IsComposite(g[j].Kind())
    requires |g| <= MAX_NR_TYPES + 1 && VerdictOk(g, noFwd, hash, m0, m, log, j)
    ensures VerdictOk(g, noFwd, hash, m0, m', log[x := v], j)
  {
    hide WellFormed, Forest, LinksOk, PathsKept, NoWitness, Closed, Covered, FwdsResolved, CheckedIn, LinkedBy;
    match log[j]
    case First(y) =>
      assert ContextOk(y) && y.g == g by { CheckedContext(g, noFwd, m0, y); }
    case Same(y, w) =>
      ResolvedStays(g, w, m, m');
    case Linked =>
      LinkedKept(g, log, x, v, j, j);
  }

  lemma CheckedContext(g: Graph, noFwd: bool, m0: seq<nat>, x: Context)
    requires WellFormed(g) && CheckedIn(g, noFwd, m0, x)
    ensures ContextOk(x) && x.g == g
  {
  }

  lemma LinkedKept(g: Graph, log: seq<Verdict>, x: nat, v: Verdict, i: nat, j: nat)
    requires LinkedBefore(g, log, i, j) && i <= x < |log|
    ensures LinkedBefore(g, log[x := v], i, j)
  {
    var k: nat :| k < i && LinkedBy(g, log, k, j);
    assert LinkedBy(g, log[x := v], k, j);
  }

  /** The verdict of the step itself. */
  lemma VerdictNew(g: Graph, noFwd: bool, hash: BtfType -> int, tbl: Table, m0: seq<nat>, m: seq<nat>, m': seq<nat>, log: seq<Verdict>, x: nat, v: Verdict)
    requires WellFormed(g) && |g| == |m| == |m'| == |log| && Forest(m) && Forest(m') && 0 < x < |g| <= MAX_NR_TYPES + 1
    requires SettledUpTo(g, noFwd, hash, m0, m, log, x) && StructStep(g, noFwd, hash, tbl, m, m', x, v)
    requires IsComposite(g[x].Kind()) && Indexed(g, m, tbl, hash) && (Meant(g, noFwd) ==> SoundMap(View(g, noFwd), m))
    ensures VerdictOk(g, noFwd, hash, m0, m', log[x := v], x)
  {
    assert g[0].Kind() == Unkn;
    hide WellFormed, Forest, LinksOk, PathsKept, NoWitness, Closed, Covered, FwdsResolved, LinkedBy, View, SoundMap, Meant, VerdictOk,
      LinkedBefore, NewlyLinked;
    match v
    case First(y) =>
      assert CheckedIn(g, noFwd, m0, y);
      forall i: nat | Rival(g, hash, i, x) && m'[i] == i ensures NoWitness(y, x, i) {
        assert m[i] == i && InTable(tbl, hash(g[i]), i);
      }
      VerdictFirst(g, noFwd, hash, m0, m', log[x := v], x);
    case Same(y, w) =>
      assert CheckedIn(g, noFwd, m0, y);
      assert 0 < m'[x] < x;
      VerdictSame(g, noFwd, hash, m0, m', log[x := v], x);
    case Linked =>
      LinkedKept(g, log, x, v, x, x);
      VerdictLinked(g, noFwd, hash, m0, m', log[x := v], x);
  }

  lemma VerdictFirst(g: Graph, noFwd: bool, hash: BtfType -> int, m0: seq<nat>, m: seq<nat>, log: seq<Verdict>, j: nat)
    requires WellFormed(g) && |g| == |m| == |log| && Forest(m) && j < |g| && log[j].First? && m[j] == j
    requires CheckedIn(g, noFwd, m0, log[j].x) && AllRefuted(g, hash, m, log[j].x, j)
    ensures VerdictOk(g, noFwd, hash, m0, m, log, j)
  {
  }

  lemma VerdictSame(g: Graph, noFwd: bool, hash: BtfType -> int, m0: seq<nat>, m: seq<nat>, log: seq<Verdict>, j: nat)
    requires WellFormed(g) && |g| == |m| == |log| && Forest(m) && j < |g| && log[j].Same? && Rival(g, hash, m[j], j) && m[m[j]] == m[j]
    requires CheckedIn(g, noFwd, m0, log[j].x) && !IsMapped(log[j].x.m, j)
    requires |log[j].w| == |g| && Closed(log[j].x, log[j].w) && Covered(log[j].x, log[j].w, j, m[j]) && FwdsResolved(g, log[j].w, m)
    ensures VerdictOk(g, noFwd, hash, m0, m, log, j)
  {
  }

  lemma VerdictLinked(g: Graph, noFwd: bool, hash: BtfType -> int, m0: seq<nat>, m: seq<nat>, log: seq<Verdict>, j: nat)
    requires WellFormed(g) && |g| == |m| == |log| && Forest(m) && j < |g| && log[j].Linked? && IsMapped(m, j) && m[j] != j
    requires LinkedBefore(g, log, j, j)
    ensures VerdictOk(g, noFwd, hash, m0, m, log, j)
  {
  }

  lemma LaterKept(g: Graph, m: seq<nat>, m': seq<nat>, log: seq<Verdict>, x: nat, v: Verdict, j: nat)
    requires |g| == |m| == |m'| == |log| && x < j < |g| && IsComposite(g[j].Kind()) && Stable(g, m, m', x) && NewlyLinked(g, m, m', x, v)
    requires m[j] != j && (IsMapped(m, j) ==> LinkedBefore(g, log, x, j))
    ensures m'[j] != j && (IsMapped(m', j) ==> LinkedBefore(g, log[x := v], x + 1, j))
  {
    hide Forest, Met;
    if IsMapped(m', j) {
      if IsMapped(m, j) {
        LinkedKept(g, log, x, v, x, j);
      } else {
        assert LinkedBy(g, log[x := v], x, j);
      }
    }
  }

  /** One struct or union further. */
  lemma SettledStep(g: Graph, noFwd: bool, hash: BtfType -> int, tbl: Table, m0: seq<nat>, m: seq<nat>, m': seq<nat>, log: seq<Verdict>, x: nat, v: Verdict)
    requires WellFormed(g) && |g| == |m| == |m'| == |log| && Forest(m) && Forest(m') && LinksOk(g, m') && 0 < x < |g| <= MAX_NR_TYPES + 1
    requires SettledUpTo(g, noFwd, hash, m0, m, log, x) && StructStep(g, noFwd, hash, tbl, m, m', x, v)
    requires Indexed(g, m, tbl, hash) && (Meant(g, noFwd) ==> SoundMap(View(g, noFwd), m))
    ensures SettledUpTo(g, noFwd, hash, m0, m', log[x := v], x + 1)
  {
    hide WellFormed, Forest, LinksOk, PathsKept, Indexed, NoneFound, Closed, Covered, FwdsResolved, View, SoundMap, Meant, VerdictOk,
      LinkedBefore, Stable, NewlyLinked, ContextOk;
    forall j | 0 < j < x + 1 && j < |g| && IsComposite(g[j].Kind()) ensures VerdictOk(g, noFwd, hash, m0, m', log[x := v], j) {
      if j < x {
        VerdictKept(g, noFwd, hash, m0, m, m', log, x, v, j);
      } else {
        VerdictNew(g, noFwd, hash, tbl, m0, m, m', log, x, v);
      }
    }
    forall j | x + 1 <= j < |g| && IsComposite(g[j].Kind()) ensures m'[j] != j && (IsMapped(m', j) ==> LinkedBefore(g, log[x := v], x + 1, j)) {
      LaterKept(g, m, m', log, x, v, j);
    }
  }

  lemma SettledStart(g: Graph, noFwd: bool, hash: BtfType -> int, m: seq<nat>, log: seq<Verdict>)
    requires WellFormed(g) && |g| == |m| == |log| <= MAX_NR_TYPES + 1 && Forest(m) && PrimsMapped(g, m)
    ensures SettledUpTo(g, noFwd, hash, m, m, log, 1)
  {
    hide WellFormed, Forest, LinksOk, LinksMapped, UniqueRecords;
  }

  lemma SettledMapped(g: Graph, noFwd: bool, hash: BtfType -> int, m0: seq<nat>, m: seq<nat>, log: seq<Verdict>)
    requires WellFormed(g) && |g| == |m| == |log| <= MAX_NR_TYPES + 1 && Forest(m) && SettledUpTo(g, noFwd, hash, m0, m, log, |g|)
    ensures forall j :: 0 < j < |g| && IsComposite(g[j].Kind()) ==> IsMapped(m, j)
  {
    hide WellFormed, Forest, CheckedIn, AllRefuted, Closed, Covered, FwdsResolved, LinkedBefore;
    forall j | 0 < j < |g| && IsComposite(g[j].Kind()) ensures IsMapped(m, j) {
      assert VerdictOk(g, noFwd, hash, m0, m, log, j);
    }
  }

  /** The primitive pass has reached `i`. */
  ghost predicate PrimsUpTo(g: Graph, m: seq<nat>, i: nat)
    requires |g| == |m|
  {
    forall j :: 0 < j < |g| ==>
      && (IsPrimitive(g[j].Kind()) ==> if j < i then IsMapped(m, j) else m[j] == UNPROCESSED_ID)
      && (IsComposite(g[j].Kind()) ==> m[j] == UNPROCESSED_ID)
  }

  lemma PrimsStep(g: Graph, m: seq<nat>, m': seq<nat>, i: nat)
    requires |g| == |m| == |m'| && PrimsUpTo(g, m, i) && PrimStep(m, m', i) && i < |g|
    requires if IsPrimitive(g[i].Kind()) then IsMapped(m', i) else m' == m
    ensures PrimsUpTo(g, m', i + 1)
  {
  }

  lemma PrimNext(g: Graph, m: seq<nat>, i: nat)
    requires |g| == |m| && PrimsUpTo(g, m, i) && 0 < i < |g|
    ensures IsPrimitive(g[i].Kind()) ==> m[i] == UNPROCESSED_ID
  {
  }

  lemma InitialPrims(g: Graph)
    ensures PrimsUpTo(g, InitialMap(g), 1)
  {
  }

  // ----- when types that mean the same pass the check -----

  lemma PlainDecides(g: Graph)
    requires WellFormed(g) && FwdsPlain(g)
    ensures Decides(g, true)
  {
    forall a: nat, c: nat | SameIn(g, true, a, c) && a != 0 && !IsData(g[a].Kind()) ensures Passes(g, true, a, c) {
      BisimilarUnfold(g, a, g, c);
      assert RecordOk(g[a]) && RecordOk(g[c]);
      LabelPasses(g[a], g[c]);
    }
  }

  lemma LabelPasses(t: BtfType, u: BtfType)
    requires RecordOk(t) && RecordOk(u) && Label(t) == Label(u) && (t.Kind() == Fwd && u.Kind() == Fwd ==> t.refs == u.refs)
    requires t.Kind() != Unkn && !IsData(t.Kind())
    ensures NodeOk(true, t, u)
  {
    assert Label(t).info == t.info && Label(u).info == u.info && Label(t).nameOff == t.nameOff && Label(u).nameOff == u.nameOff;
    assert Label(t).size == t.size && Label(u).size == u.size && Label(t).fields == t.fields && Label(u).fields == u.fields;
  }

  /** Under one name and kind there is one struct, union or enum; declarations of it may be repeated. */
  ghost predicate NamesDecide(g: Graph)
    requires WellFormed(g)
  {
    FwdsNamed(g) && forall a: nat, c: nat :: SameName(g, a, c) ==> OneUnderName(g, a, c)
  }

  predicate SameName(g: Graph, a: nat, c: nat) {
    a < |g| && c < |g| && g[a].Kind() == g[c].Kind() && g[a].nameOff == g[c].nameOff != 0
  }

  ghost predicate OneUnderName(g: Graph, a: nat, c: nat)
    requires WellFormed(g) && a < |g| && c < |g|
  {
    match g[a].Kind()
    case Struct | Union => Label(g[a]) == Label(g[c]) && SameRefs(g, false, a, c)
    case Fwd => FwdKind(g[a]) == FwdKind(g[c]) ==> g[a] == g[c]
    case Enum => IsEnumFwd(g[a]) || IsEnumFwd(g[c]) || g[a] == g[c]
    case _ => true
  }

  ghost predicate SameRefs(g: Graph, noFwd: bool, a: nat, c: nat)
    requires WellFormed(g) && a < |g| && c < |g|
  {
    |g[a].refs| == |g[c].refs| && forall k :: 0 <= k < |g[a].refs| ==> SameIn(g, noFwd, g[a].refs[k], g[c].refs[k])
  }

  lemma NamesDecideAll(g: Graph)
    requires WellFormed(g) && NamesDecide(g)
    ensures Decides(g, false)
  {
    hide WellFormed, NamesDecide, Bisimilar, View, Passes;
    forall a: nat, c: nat | SameIn(g, false, a, c) && a != 0 && !IsData(g[a].Kind()) ensures Passes(g, false, a, c) {
      NamePasses(g, a, c);
    }
  }

  lemma NamePasses(g: Graph, a: nat, c: nat)
    requires WellFormed(g) && NamesDecide(g) && SameIn(g, false, a, c) && a != 0 && !IsData(g[a].Kind())
    ensures Passes(g, false, a, c)
  {
    SameData(g, false, a, c);
    assert RecordOk(g[a]) && RecordOk(g[c]) && g[a].Kind() != Unkn && c != 0 && g[c].Kind() != Unkn && !IsData(g[c].Kind());
    assert NameGiven(false, g[a]) && NameGiven(false, g[c]);
    SameInLabel(g, false, a, c);
    assert SameName(g, a, c) ==> OneUnderName(g, a, c);
    if Named(g[a]) == g[a] && Named(g[c]) == g[c] { PlainRefs(g, a, c); }
    hide WellFormed, NamesDecide, SameIn, FwdsNamed;
    NamedRecords(g, a, c);
  }

  lemma PlainRefs(g: Graph, a: nat, c: nat)
    requires WellFormed(g) && SameIn(g, false, a, c) && Named(g[a]) == g[a] && Named(g[c]) == g[c]
    ensures SameRefs(g, false, a, c)
  {
    BisimilarUnfold(View(g, false), a, View(g, false), c);
    assert RefsBelow(g[a], |g|) && RefsBelow(g[c], |g|);
  }

  lemma NamedRecords(g: Graph, a: nat, c: nat)
    requires WellFormed(g) && a < |g| && c < |g| && RecordOk(g[a]) && RecordOk(g[c]) && NameGiven(false, g[a]) && NameGiven(false, g[c])
    requires g[a].Kind() !in {Unkn, Var, Datasec} && g[c].Kind() !in {Unkn, Var, Datasec}
    requires Label(Named(g[a])) == Label(Named(g[c]))
    requires SameName(g, a, c) ==> OneUnderName(g, a, c)
    requires Named(g[a]) == g[a] && Named(g[c]) == g[c] ==> SameRefs(g, false, a, c)
    ensures Passes(g, false, a, c)
  {
    hide WellFormed, SameIn;
    NamedLabels(g[a], g[c]);
  }

  /** Records with the same label by name. */
  lemma NamedLabels(t: BtfType, u: BtfType)
    requires Label(Named(t)) == Label(Named(u)) && RecordOk(t) && RecordOk(u) && NameGiven(false, t) && NameGiven(false, u)
    ensures t.nameOff == u.nameOff
    ensures t.Kind() == u.Kind() || (FwdPairOk(t, u) && (t.Kind() == Fwd || u.Kind() == Fwd))
    ensures t.Kind() == Fwd && u.Kind() == Fwd ==> FwdKind(t) == FwdKind(u)
    ensures t.nameOff == 0 || t.Kind() !in {Struct, Union, Fwd, Enum} ==> Label(t) == Label(u) && Named(t) == t && Named(u) == u
    ensures t.Kind() == Enum ==> t.info.(vlen := 0) == u.info.(vlen := 0) && t.size == u.size
  {
    var t', u' := Named(t), Named(u);
    assert Label(t').info == t'.info && Label(u').info == u'.info && Label(t').nameOff == t'.nameOff && Label(u').nameOff == u'.nameOff;
    assert Label(t').size == t'.size && Label(u').size == u'.size;
  }

  // ----- structs and unions with the same members -----

  /** Primitive types that are deduplicated by record. */
  predicate ByRecord(t: BtfType) { t.Kind() == Int || t.Kind() == Fwd || (t.Kind() == Enum && !IsEnumFwd(t)) }

  ghost predicate SameLeaf(g: Graph, a: nat, b: nat) {
    a == b || (a < |g| && b < |g| && g[a] == g[b] && ByRecord(g[a]))
  }

  /** The same in everything but the ids of equal primitive types. */
  ghost predicate Twins(g: Graph, i: nat, j: nat)
    requires i < |g| && j < |g|
  {
    && Label(g[i]) == Label(g[j]) && |g[i].refs| == |g[j].refs|
    && forall k :: 0 <= k < |g[i].refs| ==> SameLeaf(g, g[i].refs[k], g[j].refs[k])
  }

  /** The map after the primitive pass. */
  ghost predicate PrimsMapped(g: Graph, m: seq<nat>)
    requires |g| == |m|
  {
    Forest(m) && LinksOk(g, m) && LinksMapped(m, |m|) && UniqueRecords(g, m) && PrimsUpTo(g, m, |g|)
  }

  lemma {:induction false} PrimRoot(g: Graph, m: seq<nat>, a: nat)
    requires WellFormed(g) && |g| == |m| <= MAX_NR_TYPES + 1 && PrimsMapped(g, m) && a < |g| && ByRecord(g[a])
    ensures g[Root(m, a)] == g[a]
    decreases RankOf(m)[a]
  {
    if !IsRoot(m, a) {
      assert LinkOk(g[a], g[m[a]]) && IsMapped(m, m[a]);
      PrimRoot(g, m, m[a]);
    }
  }

  /** Equal primitive types have one canonical type. */
  lemma LeafRoots(g: Graph, m: seq<nat>, a: nat, b: nat)
    requires WellFormed(g) && |g| == |m| <= MAX_NR_TYPES + 1 && PrimsMapped(g, m) && a < |g| && b < |g| && SameLeaf(g, a, b)
    ensures Root(m, a) == Root(m, b)
  {
    if a != b {
      PrimRoot(g, m, a);
      PrimRoot(g, m, b);
      assert a != 0 && b != 0;
      MappedRoot(m, a);
      MappedRoot(m, b);
      var ra, rb := Root(m, a), Root(m, b);
      assert g[0].Kind() == Unkn && ra != 0 && rb != 0;
    }
  }

  lemma TwinRoots(g: Graph, noFwd: bool, m0: seq<nat>, x: Context, i: nat, j: nat, k: nat)
    requires WellFormed(g) && |g| == |m0| <= MAX_NR_TYPES + 1 && PrimsMapped(g, m0) && CheckedIn(g, noFwd, m0, x)
    requires i < |g| && j < |g| && Twins(g, i, j) && k < |g[i].refs|
    ensures g[i].refs[k] < |g| && g[j].refs[k] < |g| && Root(x.m, g[j].refs[k]) == Root(x.m, g[i].refs[k])
  {
    assert RefsBelow(g[i], |g|) && RefsBelow(g[j], |g|) && Forest(m0);
    hide WellFormed, PrimsMapped, SoundMap, View, Meant, Forest;
    var a, b := g[i].refs[k], g[j].refs[k];
    LeafRoots(g, m0, a, b);
    RootThrough(m0, x.m, a);
    RootThrough(m0, x.m, b);
  }

  /** Structs and unions whose members have the same canonical types are settled by a single hypothesis. */
  lemma OneHypothesis(x: Context, i: nat, j: nat)
    requires ContextOk(x) && i < |x.g| && j < |x.g| && IsComposite(x.g[i].Kind()) && NodeOk(x.noFwd, x.g[j], x.g[i])
    requires |x.g[i].refs| == |x.g[j].refs|
    requires forall k :: 0 <= k < |x.g[j].refs| ==>
               x.g[j].refs[k] < |x.g| && x.g[i].refs[k] < |x.g| && Root(x.m, x.g[j].refs[k]) == Root(x.m, x.g[i].refs[k])
    ensures !NoWitness(x, j, i)
  {
    var w := seq(|x.g|, c => UNPROCESSED_ID)[i := j];
    hide WellFormed, Forest, NodeOk, Root;
    assert ClosedAt(x, w, i);
    assert Closed(x, w) && Covered(x, w, j, i);
  }

  lemma TwinsSettled(g: Graph, noFwd: bool, m0: seq<nat>, x: Context, i: nat, j: nat)
    requires WellFormed(g) && |g| == |m0| <= MAX_NR_TYPES + 1 && PrimsMapped(g, m0) && CheckedIn(g, noFwd, m0, x)
    requires i < |g| && j < |g| && IsComposite(g[i].Kind()) && Twins(g, i, j)
    ensures ContextOk(x) && x.g == g && !NoWitness(x, j, i)
  {
    hide WellFormed, Forest, PrimsMapped, SoundMap, View, Meant, NodeOk, SameLeaf, NoWitness;
    TwinLabels(g, noFwd, i, j);
    forall k | 0 <= k < |g[j].refs|
      ensures g[j].refs[k] < |g| && g[i].refs[k] < |g| && Root(x.m, g[j].refs[k]) == Root(x.m, g[i].refs[k])
    {
      TwinRoots(g, noFwd, m0, x, i, j, k);
    }
    OneHypothesis(x, i, j);
  }

  lemma TwinLabels(g: Graph, noFwd: bool, i: nat, j: nat)
    requires WellFormed(g) && i < |g| && j < |g| && IsComposite(g[i].Kind()) && Twins(g, i, j)
    ensures NodeOk(noFwd, g[j], g[i]) && g[j].Kind() == g[i].Kind() && ShallowEqualStruct(g[j], g[i]) && ShallowEqualStruct(g[i], g[j])
  {
    var t, u := g[i], g[j];
    assert Label(t).info == t.info && Label(u).info == u.info && Label(t).nameOff == t.nameOff && Label(u).nameOff == u.nameOff;
    assert Label(t).size == t.size && Label(u).size == u.size && Label(t).fields == t.fields && Label(u).fields == u.fields;
  }

  /** No two structs or unions with one signature and the same members are both canonical. */
  ghost predicate NoTwins(g: Graph, hash: BtfType -> int, m: seq<nat>)
    requires |g| == |m|
  {
    forall i: nat, j: nat :: 0 < i < j < |g| && m[i] == i && m[j] == j && IsComposite(g[i].Kind()) && hash(g[i]) == hash(g[j]) ==> !Twins(g, i, j)
  }

  lemma TwinsApart(g: Graph, noFwd: bool, hash: BtfType -> int, m0: seq<nat>, m: seq<nat>, log: seq<Verdict>)
    requires WellFormed(g) && |g| == |m0| == |m| == |log| <= MAX_NR_TYPES + 1 && Forest(m) && PrimsMapped(g, m0)
    requires SettledUpTo(g, noFwd, hash, m0, m, log, |g|)
    ensures NoTwins(g, hash, m)
  {
    hide WellFormed, Forest, PrimsMapped, CheckedIn, NoWitness, Twins;
    forall i: nat, j: nat | 0 < i < j < |g| && m[i] == i && m[j] == j && IsComposite(g[i].Kind()) && hash(g[i]) == hash(g[j]) ensures !Twins(g, i, j) {
      if Twins(g, i, j) {
        TwinLabels(g, noFwd, i, j);
        assert VerdictOk(g, noFwd, hash, m0, m, log, j);
        assert Rival(g, hash, i, j);
        TwinsSettled(g, noFwd, m0, log[j].x, i, j);
      }
    }
  }

  // ----- the quotient -----

  /** Signatures do not depend on the types that structs and unions refer to. */
  ghost predicate HashesLabels(hash: BtfType -> int) {
    forall t: BtfType, u: BtfType :: IsComposite(t.Kind()) && Label(t) == Label(u) ==> hash(t) == hash(u)
  }

  /**
   Input as compilers emit it: every struct and union lies in a unit without duplicates, nothing refers to data of
   one name, and forward declarations say what they stand for.
   */
  ghost predicate Clean(g: Graph, noFwd: bool, hash: BtfType -> int)
    requires WellFormed(g)
  {
    && (if noFwd then FwdsPlain(g) else NamesDecide(g))
    && !DataClash(g) && HashesLabels(hash)
    && forall i :: 0 < i < |g| && IsComposite(g[i].Kind()) ==> InUnit(g, noFwd, i)
  }

  lemma CleanDecides(g: Graph, noFwd: bool, hash: BtfType -> int)
    requires WellFormed(g) && Clean(g, noFwd, hash)
    ensures Decides(g, noFwd) && Meant(g, noFwd)
  {
    hide WellFormed, Decides;
    if noFwd { PlainDecides(g); } else { NamesDecideAll(g); }
  }

  /** Structs and unions that mean the same have the same shallow record and signature. */
  lemma SameShallow(g: Graph, noFwd: bool, hash: BtfType -> int, i: nat, j: nat)
    requires WellFormed(g) && Clean(g, noFwd, hash) && SameIn(g, noFwd, j, i) && IsComposite(g[i].Kind()) && IsComposite(g[j].Kind())
    ensures ShallowEqualStruct(g[j], g[i]) && hash(g[i]) == hash(g[j])
  {
    CleanDecides(g, noFwd, hash);
    assert g[0].Kind() == Unkn;
    assert Passes(g, noFwd, j, i);
    assert Label(g[i]) == Label(g[j]);
  }

  /** The first of a meaning and a later canonical type do not mean the same. */
  lemma FirstsDiffer(g: Graph, noFwd: bool, hash: BtfType -> int, m0: seq<nat>, m: seq<nat>, log: seq<Verdict>, i: nat, j: nat)
    requires WellFormed(g) && |g| == |m| == |log| && Forest(m) && SettledUpTo(g, noFwd, hash, m0, m, log, |g|) && Clean(g, noFwd, hash)
    requires i < j < |g| && m[i] == i && m[j] == j && IsComposite(g[i].Kind()) && IsComposite(g[j].Kind())
    ensures !SameIn(g, noFwd, j, i)
  {
    assert i > 0;
    if SameIn(g, noFwd, j, i) {
      assert VerdictOk(g, noFwd, hash, m0, m, log, j);
      var x := log[j].x;
      assert InUnit(g, noFwd, j);
      var unit: set<nat> :| j in unit && IsUnit(g, noFwd, unit);
      hide WellFormed, Forest, NoWitness, IsUnit, SameIn, SettledUpTo;
      CleanDecides(g, noFwd, hash);
      SameShallow(g, noFwd, hash, i, j);
      assert Rival(g, hash, i, j);
      SettledInUnit(x, unit, j, i);
    }
  }

  /** The state after the reference pass. */
  ghost predicate Finished(g0: Graph, g: Graph, noFwd: bool, hash: BtfType -> int, m0: seq<nat>, ms: seq<nat>, m: seq<nat>, log: seq<Verdict>, rank: seq<nat>) {
    && WellFormed(g0) && WellFormed(g) && |g0| == |g| == |m0| == |ms| == |m| == |log| == |rank| <= MAX_NR_TYPES + 1
    && AllCanonical(m) && Forest(ms) && m[0] == 0 && (forall i :: 0 <= i < |m| ==> IsMapped(m, i))
    && LinksOk(g, m) && UniqueRecords(g, m) && RefsResolved(g, m) && RefsPending(g0, g, m) && RefRanked(g, rank)
    && (Meant(g0, noFwd) ==> ViewOk(View(g0, noFwd), View(g, noFwd), m)) && (!noFwd ==> EnumsApart(g, m, hash))
    && PrimsMapped(g0, m0) && SettledUpTo(g0, noFwd, hash, m0, ms, log, |g0|) && StructsStay(g0, ms, m) && LinksOk(g0, ms)
  }

  /** The reference pass maps reference types only. */
  ghost predicate StructsStay(g0: Graph, ms: seq<nat>, m: seq<nat>)
    requires |g0| == |ms| == |m|
  {
    forall i :: 0 <= i < |g0| && !IsReference(g0[i].Kind()) ==> m[i] == ms[i]
  }

  /** Canonical structs and unions mean different things. */
  lemma StructsDiffer(g: Graph, noFwd: bool, hash: BtfType -> int, m0: seq<nat>, m: seq<nat>, log: seq<Verdict>, a: nat, b: nat)
    requires WellFormed(g) && |g| == |m| == |log| && Forest(m) && SettledUpTo(g, noFwd, hash, m0, m, log, |g|) && Clean(g, noFwd, hash)
    requires a < |g| && b < |g| && a != b && m[a] == a && m[b] == b && IsComposite(g[a].Kind()) && IsComposite(g[b].Kind())
    ensures !SameIn(g, noFwd, a, b)
  {
    hide *;
    if a < b {
      FirstsDiffer(g, noFwd, hash, m0, m, log, a, b);
      if SameIn(g, noFwd, a, b) { SameInSym(g, noFwd, a, b); }
    } else {
      FirstsDiffer(g, noFwd, hash, m0, m, log, b, a);
    }
  }

  /** The reference pass can start when all structs and unions are settled. */
  lemma StartPass(g: Graph, noFwd: bool, hash: BtfType -> int, m0: seq<nat>, m: seq<nat>, log: seq<Verdict>, rank: seq<nat>)
    requires WellFormed(g) && |g| == |m0| == |m| == |log| == |rank| <= MAX_NR_TYPES + 1 && Forest(m) && RefsUntouched(g, m) && LinksOk(g, m)
    requires PrimsMapped(g, m0) && SettledUpTo(g, noFwd, hash, m0, m, log, |g|)
    ensures RefsPending(g, g, m) && RefsResolved(g, m) && LinksMapped(m, |m|) && DoneRanked(g, m, rank)
    ensures forall i :: 0 <= i < |m| ==> m[i] != IN_PROGRESS_ID
    ensures forall i :: 0 <= i < |m| && m[i] == UNPROCESSED_ID ==> IsReference(g[i].Kind())
  {
    assert StillMapped(m0, m) && PrimsUpTo(g, m0, |g|);
    hide WellFormed, Forest, RefsUntouched, LinksOk, PrimsMapped, SettledUpTo, RefsPending, RefsResolved, LinksMapped, DoneRanked;
    SettledMapped(g, noFwd, hash, m0, m, log);
    StartRefs(g, m, rank);
    OnlyRefsPending(g, m);
  }

  lemma OnlyRefsPending(g: Graph, m: seq<nat>)
    requires |g| == |m| && RefsPending(g, g, m)
    ensures forall i :: 0 <= i < |m| && m[i] == UNPROCESSED_ID ==> IsReference(g[i].Kind())
  {
  }

  /** The reference pass leaves what was mapped before. */
  lemma StaysBy(g: Graph, ms: seq<nat>, m: seq<nat>)
    requires |g| == |ms| == |m| && (forall i :: 0 <= i < |m| && ms[i] == UNPROCESSED_ID ==> IsReference(g[i].Kind()))
    requires forall i :: 0 <= i < |m| && ms[i] != UNPROCESSED_ID ==> m[i] == ms[i]
    ensures StructsStay(g, ms, m)
  {
  }

  lemma FinishedBy(g0: Graph, g: Graph, noFwd: bool, hash: BtfType -> int, m0: seq<nat>, ms: seq<nat>, m: seq<nat>, log: seq<Verdict>, rank: seq<nat>)
    requires WellFormed(g0) && WellFormed(g) && |g0| == |g| == |m0| == |ms| == |m| == |log| == |rank| <= MAX_NR_TYPES + 1
    requires Forest(m) && Forest(ms) && m[0] == 0 && (forall i :: 0 <= i < |m| ==> IsMapped(m, i))
    requires LinksOk(g, m) && UniqueRecords(g, m) && RefsResolved(g, m) && RefsPending(g0, g, m) && RefRanked(g, rank)
    requires (Meant(g0, noFwd) ==> ViewOk(View(g0, noFwd), View(g, noFwd), m)) && (!noFwd ==> EnumsApart(g, m, hash))
    requires PrimsMapped(g0, m0) && SettledUpTo(g0, noFwd, hash, m0, ms, log, |g0|) && StructsStay(g0, ms, m) && LinksOk(g0, ms)
    ensures Finished(g0, g, noFwd, hash, m0, ms, m, log, rank)
  {
    hide WellFormed, LinksOk, UniqueRecords, RefsResolved, RefsPending, RefRanked, ViewOk, View, Meant, EnumsApart, PrimsMapped, SettledUpTo, StructsStay;
    AllMappedCanonical(m);
  }

  /** Structs and unions that mean the same have one canonical type. */
  lemma StructsMerge(g0: Graph, g: Graph, noFwd: bool, hash: BtfType -> int, m0: seq<nat>, ms: seq<nat>, m: seq<nat>, log: seq<Verdict>, rank: seq<nat>, i: nat, j: nat)
    requires Finished(g0, g, noFwd, hash, m0, ms, m, log, rank) && Clean(g0, noFwd, hash)
    requires i < |g0| && j < |g0| && IsComposite(g0[i].Kind()) && IsComposite(g0[j].Kind()) && SameIn(g0, noFwd, i, j)
    ensures AllCanonical(m) && Root(m, i) == Root(m, j)
  {
    hide WellFormed, Forest, LinksOk, UniqueRecords, RefsResolved, RefsPending, RefRanked, EnumsApart, PrimsMapped,
      SettledUpTo, Clean, SameIn, Meant, View, Redirected, SoundMap;
    CleanDecides(g0, noFwd, hash);
    var a, b := Root(m, i), Root(m, j);
    RootKind0(g0, g, m, i);
    RootKind0(g0, g, m, j);
    SameInRoot(g0, noFwd, m, i);
    SameInRoot(g0, noFwd, m, j);
    SameInSym(g0, noFwd, i, a);
    SameInTrans(g0, noFwd, a, i, j);
    SameInTrans(g0, noFwd, a, j, b);
    if a != b { StructsDiffer(g0, noFwd, hash, m0, ms, log, a, b); }
  }

  /** The canonical type of a struct or union is one. */
  lemma RootKind0(g0: Graph, g: Graph, m: seq<nat>, i: nat)
    requires |g0| == |g| == |m| && AllCanonical(m) && LinksOk(g, m) && RefsPending(g0, g, m) && i < |g0| && IsComposite(g0[i].Kind())
    ensures IsComposite(g0[Root(m, i)].Kind()) && m[Root(m, i)] == Root(m, i)
  {
    RootKind(g, m, i);
    PendingFacts(g0, g, m, i);
    PendingFacts(g0, g, m, Root(m, i));
  }

  // ----- without forward resolution: all types -----

  /** The references of two canonical reference types that mean the same lead to types that mean the same. */
  lemma RefsMean(g0: Graph, g: Graph, m: seq<nat>, a: nat, b: nat, k: nat)
    requires WellFormed(g0) && Redirected(g0, g) && |m| == |g0| && RefsResolved(g, m) && a < |g0| && b < |g0|
    requires IsReference(g[a].Kind()) && IsReference(g[b].Kind()) && IsMapped(m, a) && IsMapped(m, b)
    requires Bisimilar(g0, a, g0, b) && k < |g[a].refs|
    ensures |g[b].refs| == |g[a].refs| == |g0[a].refs| == |g0[b].refs| && g[a].refs[k] < |g| && g[b].refs[k] < |g| && g0[a].refs[k] < |g0| && g0[b].refs[k] < |g0|
    ensures m[g[a].refs[k]] == g[a].refs[k] && m[g[b].refs[k]] == g[b].refs[k]
    ensures Bisimilar(g0, g0[a].refs[k], g0, g[a].refs[k]) && Bisimilar(g0, g0[b].refs[k], g0, g[b].refs[k])
    ensures Bisimilar(g0, g[a].refs[k], g0, g[b].refs[k])
  {
    assert RedirectedAt(g0, g, a) && RedirectedAt(g0, g, b);
    assert AllSelfMapped(m, g[a].refs) && AllSelfMapped(m, g[b].refs);
    BisimilarUnfold(g0, a, g0, b);
    assert RefsBelow(g0[a], |g0|) && RefsBelow(g0[b], |g0|);
    hide WellFormed, Bisimilar, Redirected, RefsResolved;
    var a0, b0, a1, b1 := g0[a].refs[k], g0[b].refs[k], g[a].refs[k], g[b].refs[k];
    BisimilarSym(g0, a0, g0, a1);
    BisimilarTrans(g0, a1, g0, a0, g0, b0);
    BisimilarTrans(g0, a1, g0, b0, g0, b1);
  }

  /** Data that something refers to is told apart by its name. */
  lemma DataDiffers(g0: Graph, i: nat, d: nat, c: nat)
    requires WellFormed(g0) && !DataClash(g0) && RefersTo(g0, i, d) && SameIn(g0, true, d, c) && IsData(g0[c].Kind())
    ensures d == c
  {
    SameData(g0, true, d, c);
    assert d != c ==> DataPair(g0, d, c);
  }

  lemma PrimsDiffer(g0: Graph, g: Graph, m: seq<nat>, a: nat, b: nat)
    requires WellFormed(g0) && |g0| == |g| == |m| && UniqueRecords(g, m) && RefsPending(g0, g, m) && FwdsPlain(g0)
    requires 0 < a < |g0| && 0 < b < |g0| && a != b && m[a] == a && m[b] == b && IsPrimitive(g0[a].Kind())
    ensures !Bisimilar(g0, a, g0, b)
  {
    if Bisimilar(g0, a, g0, b) {
      BisimilarUnfold(g0, a, g0, b);
      hide Bisimilar;
      assert RecordOk(g0[a]) && RecordOk(g0[b]);
      assert Label(g0[a]).Kind() == g0[a].Kind() && Label(g0[b]).Kind() == g0[b].Kind();
      assert g0[a].refs == g0[b].refs;
      assert g0[a] == Label(g0[a]).(refs := g0[a].refs) && g0[b] == Label(g0[b]).(refs := g0[b].refs);
      RecordsEqual0(g0, g, m, a, b);
    }
  }

  lemma RecordsEqual0(g0: Graph, g: Graph, m: seq<nat>, a: nat, b: nat)
    requires |g0| == |g| == |m| && RefsPending(g0, g, m) && a < |g0| && b < |g0| && g0[a] == g0[b] && IsPrimitive(g0[a].Kind())
    ensures g[a] == g[b] && g[a].Kind() == g0[a].Kind()
  {
    PendingFacts(g0, g, m, a);
    PendingFacts(g0, g, m, b);
  }

  /** Reference types with equal labels and references have equal records. */
  lemma RecordsEqual(g0: Graph, g: Graph, m: seq<nat>, a: nat, b: nat)
    requires |g0| == |g| == |m| && RefsPending(g0, g, m) && a < |g0| && b < |g0| && Label(g0[a]) == Label(g0[b]) && g[a].refs == g[b].refs
    ensures g[a] == g[b]
  {
    PendingFacts(g0, g, m, a);
    PendingFacts(g0, g, m, b);
    assert g[a] == Label(g[a]).(refs := g[a].refs) && g[b] == Label(g[b]).(refs := g[b].refs);
  }

  ghost function Height(g: Graph, rank: seq<nat>, a: nat): nat
    requires a < |g| && |rank| == |g|
  {
    if IsReference(g[a].Kind()) then rank[a] + 1 else 0
  }

  /** Without forward resolution canonical types mean different things, data aside. */
  lemma {:induction false} CanonicalDiffer(g0: Graph, g: Graph, hash: BtfType -> int, m0: seq<nat>, ms: seq<nat>, m: seq<nat>, log: seq<Verdict>, rank: seq<nat>, a: nat, b: nat)
    requires Finished(g0, g, true, hash, m0, ms, m, log, rank) && Clean(g0, true, hash)
    requires a < |g0| && b < |g0| && a != b && m[a] == a && m[b] == b && !IsData(g0[a].Kind())
    ensures !Bisimilar(g0, a, g0, b)
    decreases Height(g, rank, a)
  {
    hide WellFormed, Forest, AllCanonical, LinksOk, UniqueRecords, RefsResolved, RefsPending, RefRanked, Redirected, SoundMap, View, PrimsMapped,
      SettledUpTo, Clean, Bisimilar;
    if Bisimilar(g0, a, g0, b) {
      CleanPlain(g0, hash);
      SameKinds(g0, a, b);
      PendingFacts(g0, g, m, a);
      PendingFacts(g0, g, m, b);
      if IsComposite(g0[a].Kind()) {
        StructsDiffer(g0, true, hash, m0, ms, log, a, b);
      } else if IsPrimitive(g0[a].Kind()) {
        PrimsDiffer(g0, g, m, a, b);
      } else {
        forall k | 0 <= k < |g[a].refs| ensures k < |g[b].refs| && g[a].refs[k] == g[b].refs[k] {
          RefsMean(g0, g, m, a, b, k);
          var a1, b1 := g[a].refs[k], g[b].refs[k];
          if a1 != b1 {
            RefHeight(g, rank, a, k);
            DataRefs(g0, a, b, k, a1, b1);
            CanonicalDiffer(g0, g, hash, m0, ms, m, log, rank, a1, b1);
          }
        }
        assert |g[a].refs| == |g[b].refs|;
        assert g[a].refs == g[b].refs;
        RecordsEqual(g0, g, m, a, b);
        RecordsUnique(g, m, a, b);
      }
    }
  }

  lemma CleanPlain(g0: Graph, hash: BtfType -> int)
    requires WellFormed(g0) && Clean(g0, true, hash)
    ensures FwdsPlain(g0) && !DataClash(g0)
  {
  }

  lemma SameKinds(g0: Graph, a: nat, b: nat)
    requires WellFormed(g0) && a < |g0| && b < |g0| && a != b && Bisimilar(g0, a, g0, b) && !IsData(g0[a].Kind())
    ensures SameIn(g0, true, a, b) && g0[a].Kind() == g0[b].Kind() && Label(g0[a]) == Label(g0[b]) && |g0[a].refs| == |g0[b].refs|
    ensures 0 < a && 0 < b && (IsComposite(g0[a].Kind()) || IsPrimitive(g0[a].Kind()) || IsReference(g0[a].Kind()))
  {
    assert SameIn(g0, true, a, b);
    SameData(g0, true, a, b);
    BisimilarUnfold(g0, a, g0, b);
    assert Label(g0[a]).Kind() == g0[a].Kind() && Label(g0[b]).Kind() == g0[b].Kind();
  }

  lemma DataRefs(g0: Graph, a: nat, b: nat, k: nat, a1: nat, b1: nat)
    requires WellFormed(g0) && !DataClash(g0) && a < |g0| && b < |g0| && IsReference(g0[a].Kind()) && IsReference(g0[b].Kind())
    requires k < |g0[a].refs| == |g0[b].refs| && a1 < |g0| && b1 < |g0| && g0[a].refs[k] < |g0| && g0[b].refs[k] < |g0|
    requires Bisimilar(g0, g0[a].refs[k], g0, a1) && Bisimilar(g0, g0[b].refs[k], g0, b1) && Bisimilar(g0, a1, g0, b1) && a1 != b1
    ensures !IsData(g0[a1].Kind())
  {
    assert SameIn(g0, true, a1, b1) && SameIn(g0, true, g0[a].refs[k], a1) && SameIn(g0, true, g0[b].refs[k], b1);
    assert RefersTo(g0, a, g0[a].refs[k]) && RefersTo(g0, b, g0[b].refs[k]);
    hide WellFormed, Bisimilar, SameIn, DataClash;
    if IsData(g0[a1].Kind()) {
      SameData(g0, true, a1, b1);
      DataDiffers(g0, a, g0[a].refs[k], a1);
      DataDiffers(g0, a, a1, b1);
    }
  }

  lemma RefHeight(g: Graph, rank: seq<nat>, a: nat, k: nat)
    requires WellFormed(g) && RefRanked(g, rank) && a < |g| && IsReference(g[a].Kind()) && k < |g[a].refs| && g[a].refs[k] < |g|
    ensures Height(g, rank, g[a].refs[k]) < Height(g, rank, a)
  {
  }

  lemma RecordsUnique(g: Graph, m: seq<nat>, a: nat, b: nat)
    requires |g| == |m| && UniqueRecords(g, m) && 0 < a < |g| && 0 < b < |g| && a != b && m[a] == a && m[b] == b && IsReference(g[a].Kind())
    ensures g[a] != g[b]
  {
    if a < b { } else { assert 0 < b < a; }
  }

  lemma TypesMerge(g0: Graph, g: Graph, hash: BtfType -> int, m0: seq<nat>, ms: seq<nat>, m: seq<nat>, log: seq<Verdict>, rank: seq<nat>, i: nat, j: nat)
    requires Finished(g0, g, true, hash, m0, ms, m, log, rank) && Clean(g0, true, hash)
    requires i < |g0| && j < |g0| && !IsData(g0[i].Kind()) && SameIn(g0, true, i, j)
    ensures Root(m, i) == Root(m, j)
  {
    hide WellFormed, Forest, LinksOk, UniqueRecords, RefsResolved, RefsPending, RefRanked, Redirected, SoundMap, PrimsMapped,
      SettledUpTo, Clean, View, SameIn;
    var a, b := Root(m, i), Root(m, j);
    SameInRoot(g0, true, m, i);
    SameInRoot(g0, true, m, j);
    SameData(g0, true, i, a);
    SameInSym(g0, true, i, a);
    SameInTrans(g0, true, a, i, j);
    SameInTrans(g0, true, a, j, b);
    if a != b {
      SameIs(g0, a, b);
      CanonicalDiffer(g0, g, hash, m0, ms, m, log, rank, a, b);
    }
  }

  lemma SameIs(g0: Graph, a: nat, b: nat)
    requires WellFormed(g0) && SameIn(g0, true, a, b)
    ensures a < |g0| && b < |g0| && Bisimilar(g0, a, g0, b)
  {
  }

  // ----- the results -----

  /** Types whose merging is decided by what they mean: structs and unions, and without forward resolution all but data. */
  predicate Decided(noFwd: bool, t: BtfType) { IsComposite(t.Kind()) || (noFwd && !IsData(t.Kind())) }

  /** Two types get one id exactly if they mean the same. */
  ghost predicate Quotient(g: Graph, noFwd: bool, final: seq<nat>)
    requires WellFormed(g) && |final| == |g|
  {
    forall i: nat, j: nat :: i < |g| && j < |g| && Decided(noFwd, g[i]) && Decided(noFwd, g[j]) ==>
      (final[i] == final[j] <==> SameIn(g, noFwd, i, j))
  }

  lemma FinalSame(m: seq<nat>, i: nat, j: nat)
    requires AllCanonical(m) && i < |m| && j < |m|
    ensures FinalIds(m)[i] == FinalIds(m)[j] <==> Root(m, i) == Root(m, j)
  {
    hide FinalId;
    CanonicalRoot(m, i);
    CanonicalRoot(m, j);
    if Root(m, i) != Root(m, j) { FinalIdInjective(m, Root(m, i), Root(m, j)); }
    FinalOfRoot(m, i);
    FinalOfRoot(m, j);
    assert Root(m, i) == Root(m, j) ==> FinalId(m, i) == FinalId(m, j);
  }

  lemma FinalOfRoot(m: seq<nat>, i: nat)
    requires Forest(m) && i < |m|
    ensures FinalId(m, i) == NewId(m, Root(m, i)) == FinalIds(m)[i]
  {
  }

  lemma RootsMean(g0: Graph, noFwd: bool, m: seq<nat>, i: nat, j: nat)
    requires WellFormed(g0) && |m| == |g0| && Forest(m) && SoundMap(View(g0, noFwd), m) && i < |m| && j < |m| && Root(m, i) == Root(m, j)
    ensures SameIn(g0, noFwd, i, j)
  {
    hide WellFormed, Forest, SoundMap, View, SameIn;
    SameInRoot(g0, noFwd, m, i);
    SameInRoot(g0, noFwd, m, j);
    SameInSym(g0, noFwd, j, Root(m, j));
    SameInTrans(g0, noFwd, i, Root(m, i), j);
  }

  lemma QuotientResult(g0: Graph, g: Graph, noFwd: bool, hash: BtfType -> int, m0: seq<nat>, ms: seq<nat>, m: seq<nat>, log: seq<Verdict>, rank: seq<nat>)
    requires Finished(g0, g, noFwd, hash, m0, ms, m, log, rank) && Clean(g0, noFwd, hash)
    ensures Quotient(g0, noFwd, FinalIds(m))
  {
    hide WellFormed, Forest, LinksOk, UniqueRecords, RefsResolved, RefsPending, RefRanked, Redirected, SoundMap, PrimsMapped,
      SettledUpTo, Clean, View, SameIn, EnumsApart, Meant, FinalId;
    CleanDecides(g0, noFwd, hash);
    forall i: nat, j: nat | i < |g0| && j < |g0| && Decided(noFwd, g0[i]) && Decided(noFwd, g0[j])
      ensures FinalIds(m)[i] == FinalIds(m)[j] <==> SameIn(g0, noFwd, i, j)
    {
      FinalSame(m, i, j);
      if SameIn(g0, noFwd, i, j) {
        if noFwd {
          DecidedData(g0, i, j);
          TypesMerge(g0, g, hash, m0, ms, m, log, rank, i, j);
        } else {
          StructsMerge(g0, g, noFwd, hash, m0, ms, m, log, rank, i, j);
        }
      }
      if Root(m, i) == Root(m, j) { RootsMean(g0, noFwd, m, i, j); }
    }
  }

  lemma DecidedData(g0: Graph, i: nat, j: nat)
    requires i < |g0| && j < |g0| && Decided(true, g0[i])
    ensures !IsData(g0[i].Kind())
  {
  }

  /** Every forward declaration that a successful check faced with a struct or union ends as one. */
  ghost predicate FwdsEnd(g: Graph, out: Graph, final: seq<nat>, log: seq<Verdict>) {
    |final| == |g| == |log| && forall j, c :: 0 < j < |g| && IsComposite(g[j].Kind()) && log[j].Same? && 0 <= c < |g| ==> FwdEnds(g, out, final, log[j].w, c)
  }

  ghost predicate FwdEnds(g: Graph, out: Graph, final: seq<nat>, w: seq<nat>, c: nat)
    requires |final| == |g| && c < |g|
  {
    |w| == |g| && (w[c] < |g| && FacesComposite(g[w[c]], g[c]) ==>
      final[c] < |out| && final[w[c]] < |out| && IsComposite(out[final[c]].Kind()) && IsComposite(out[final[w[c]]].Kind()))
  }

  /** Links of structs, unions and forward declarations are settled before the reference pass. */
  lemma {:induction false} StayRoot(g0: Graph, ms: seq<nat>, m: seq<nat>, a: nat)
    requires |g0| == |ms| == |m| && Forest(ms) && Forest(m) && StructsStay(g0, ms, m) && a < |g0| && LinksOk(g0, ms)
    requires IsComposite(g0[a].Kind()) || g0[a].Kind() == Fwd
    ensures Root(m, a) == Root(ms, a)
    decreases RankOf(ms)[a]
  {
    if !IsRoot(ms, a) {
      assert LinkOk(g0[a], g0[ms[a]]);
      StayRoot(g0, ms, m, ms[a]);
    }
  }

  lemma OutKind(g0: Graph, g: Graph, m: seq<nat>, out: Graph, i: nat)
    requires WellFormed(g) && |g0| == |g| == |m| && AllCanonical(m) && Collapsed(g, m, out) && RefsPending(g0, g, m) && i < |m|
    ensures FinalIds(m)[i] < |out| && out[FinalIds(m)[i]].Kind() == g0[Root(m, i)].Kind()
  {
    hide WellFormed, Collapsed, RefsPending;
    CollapsedAt(g, m, out, i);
    var t, u := g[Root(m, i)], out[FinalIds(m)[i]];
    assert Label(t).Kind() == t.Kind() && Label(u).Kind() == u.Kind();
    PendingFacts(g0, g, m, Root(m, i));
  }

  lemma FwdEndsAt(g0: Graph, g: Graph, noFwd: bool, hash: BtfType -> int, m0: seq<nat>, ms: seq<nat>, m: seq<nat>, log: seq<Verdict>, out: Graph, j: nat, c: nat)
    requires WellFormed(g0) && WellFormed(g) && |g0| == |g| == |m| == |ms| == |log| && AllCanonical(m) && Forest(ms) && Collapsed(g, m, out) && RefsPending(g0, g, m)
    requires StructsStay(g0, ms, m) && LinksOk(g0, ms) && j < |g0| && log[j].Same? && VerdictOk(g0, noFwd, hash, m0, ms, log, j) && c < |g0|
    ensures FwdEnds(g0, out, FinalIds(m), log[j].w, c)
  {
    var w := log[j].w;
    hide WellFormed, Collapsed, RefsPending, CheckedIn, Closed, Covered, LinksOk, StructsStay, Rival;
    if w[c] < |g0| && FacesComposite(g0[w[c]], g0[c]) {
      assert PairResolved(g0, w, ms, c);
      StayRoot(g0, ms, m, c);
      StayRoot(g0, ms, m, w[c]);
      OutKind(g0, g, m, out, c);
      OutKind(g0, g, m, out, w[c]);
    }
  }

  /** `kept` lists the input types whose records make up the output, in order. */
  ghost predicate KeptFrom(g: Graph, out: Graph, final: seq<nat>, kept: seq<nat>) {
    && |kept| == |out|
    && (forall p :: 0 <= p < |kept| ==> KeptEntry(g, out, final, kept, p))
    && (forall p, q :: 0 <= p < q < |kept| ==> kept[p] < kept[q])
  }

  ghost predicate KeptEntry(g: Graph, out: Graph, final: seq<nat>, kept: seq<nat>, p: nat)
    requires p < |kept| == |out|
  {
    kept[p] < |g| && kept[p] < |final| && final[kept[p]] == p && Label(g[kept[p]]) == Label(out[p])
  }

  ghost function KeptIds(m: seq<nat>): seq<nat>
    requires |m| > 0
  {
    [0] + Kept(m, |m|)
  }

  lemma KeptOne(g0: Graph, g: Graph, m: seq<nat>, out: Graph, p: nat)
    requires WellFormed(g) && |g0| == |g| == |m| && m[0] == 0 && AllCanonical(m) && Collapsed(g, m, out) && RefsPending(g0, g, m) && 0 < p < |out|
    ensures |KeptIds(m)| == |out| && 0 < KeptIds(m)[p] < |g0| && m[KeptIds(m)[p]] == KeptIds(m)[p]
    ensures FinalIds(m)[KeptIds(m)[p]] == p && Label(g0[KeptIds(m)[p]]) == Label(out[p])
  {
    hide WellFormed, Collapsed, RefsPending, Kept, FinalIds;
    CollapsedRecord(g, m, out, p);
    PendingFacts(g0, g, m, Kept(m, |m|)[p - 1]);
    FinalOnto(m, p);
  }

  lemma KeptVoid(g0: Graph, g: Graph, m: seq<nat>, out: Graph)
    requires WellFormed(g) && |g0| == |g| == |m| && m[0] == 0 && AllCanonical(m) && Collapsed(g, m, out) && RefsPending(g0, g, m)
    ensures |KeptIds(m)| == |out| && FinalIds(m)[KeptIds(m)[0]] == 0 && KeptIds(m)[0] == 0 && Label(g0[0]) == Label(out[0])
  {
    PendingFacts(g0, g, m, 0);
  }

  lemma KeptRising(m: seq<nat>, p: nat, q: nat)
    requires |m| > 0 && p < q < |KeptIds(m)|
    ensures KeptIds(m)[p] < KeptIds(m)[q]
  {
    if p > 0 { KeptIncreasing(m, |m|, p - 1, q - 1); }
  }

  lemma KeptResult(g0: Graph, g: Graph, m: seq<nat>, out: Graph)
    requires WellFormed(g) && |g0| == |g| == |m| && m[0] == 0 && AllCanonical(m) && Collapsed(g, m, out) && RefsPending(g0, g, m)
    ensures KeptFrom(g0, out, FinalIds(m), KeptIds(m))
  {
    KeptVoid(g0, g, m, out);
    var kept, final := KeptIds(m), FinalIds(m);
    hide WellFormed, Collapsed, RefsPending, Kept, FinalIds, KeptIds, AllCanonical, Label;
    forall p | 0 <= p < |kept| ensures KeptEntry(g0, out, final, kept, p) {
      if p > 0 { KeptOne(g0, g, m, out, p); }
    }
    forall p, q | 0 <= p < q < |kept| ensures kept[p] < kept[q] { KeptRising(m, p, q); }
  }

  /** No two structs or unions of the output come from types with one signature and the same members. */
  ghost predicate TwinFree(g: Graph, hash: BtfType -> int, kept: seq<nat>) {
    forall p, q :: 0 < p < q < |kept| && kept[p] < |g| && kept[q] < |g| && IsComposite(g[kept[p]].Kind()) && hash(g[kept[p]]) == hash(g[kept[q]]) ==>
      !Twins(g, kept[p], kept[q])
  }

  lemma TwinKinds(g: Graph, i: nat, j: nat)
    requires i < |g| && j < |g|
    ensures Twins(g, i, j) ==> g[i].Kind() == g[j].Kind()
  {
    assert Label(g[i]).Kind() == g[i].Kind() && Label(g[j]).Kind() == g[j].Kind();
  }

  lemma TwinsGone(g0: Graph, hash: BtfType -> int, ms: seq<nat>, m: seq<nat>)
    requires |g0| == |ms| == |m| > 0 && NoTwins(g0, hash, ms) && StructsStay(g0, ms, m)
    ensures TwinFree(g0, hash, KeptIds(m))
  {
    var kept := KeptIds(m);
    forall p, q | 0 < p < q < |kept| && IsComposite(g0[kept[p]].Kind()) && hash(g0[kept[p]]) == hash(g0[kept[q]]) ensures !Twins(g0, kept[p], kept[q]) {
      KeptIncreasing(m, |m|, p - 1, q - 1);
      TwinKinds(g0, kept[p], kept[q]);
    }
  }

  /** No enum of the output could stand for another one with its signature. */
  ghost predicate EnumsResolved(out: Graph, hash: BtfType -> int) {
    forall p, q :: 0 < p < |out| && 0 < q < |out| && p != q && EnumRivals(hash, out[p], out[q]) ==> !CompatEnum(out[p], out[q])
  }

  lemma EnumOut(g: Graph, m: seq<nat>, out: Graph, p: nat)
    requires WellFormed(g) && |m| == |g| && Forest(m) && Collapsed(g, m, out) && 0 < p < |out| && out[p].Kind() == Enum
    ensures |Kept(m, |m|)| == |out| - 1 && 0 < Kept(m, |m|)[p - 1] < |g|
    ensures m[Kept(m, |m|)[p - 1]] == Kept(m, |m|)[p - 1] && g[Kept(m, |m|)[p - 1]] == out[p]
  {
    CollapsedRecord(g, m, out, p);
    var t := g[Kept(m, |m|)[p - 1]];
    assert RecordOk(t);
    hide WellFormed, Collapsed, Kept;
    assert t.refs == [] && out[p].refs == [];
    assert t == Label(t).(refs := []) && out[p] == Label(out[p]).(refs := []);
  }

  lemma EnumsEnd(g: Graph, m: seq<nat>, out: Graph, hash: BtfType -> int)
    requires WellFormed(g) && |m| == |g| && Forest(m) && Collapsed(g, m, out) && EnumsApart(g, m, hash)
    ensures EnumsResolved(out, hash)
  {
    hide WellFormed, Collapsed, Kept, Forest, CompatEnum;
    forall p, q | 0 < p < |out| && 0 < q < |out| && p != q && EnumRivals(hash, out[p], out[q]) ensures !CompatEnum(out[p], out[q]) {
      EnumOut(g, m, out, p);
      EnumOut(g, m, out, q);
      if p < q { KeptIncreasing(m, |m|, p - 1, q - 1); } else { KeptIncreasing(m, |m|, q - 1, p - 1); }
    }
  }

  /** What the verdicts and invariants of the passes add up to. */
  lemma UnitResult(g0: Graph, g: Graph, noFwd: bool, hash: BtfType -> int, m0: seq<nat>, ms: seq<nat>, m: seq<nat>, log: seq<Verdict>, rank: seq<nat>, out: Graph)
    requires Finished(g0, g, noFwd, hash, m0, ms, m, log, rank) && Collapsed(g, m, out)
    ensures KeptFrom(g0, out, FinalIds(m), KeptIds(m)) && TwinFree(g0, hash, KeptIds(m))
    ensures FwdsEnd(g0, out, FinalIds(m), log)
    ensures !noFwd ==> EnumsResolved(out, hash)
    ensures Clean(g0, noFwd, hash) ==> Quotient(g0, noFwd, FinalIds(m))
  {
    assert |g0| > 0;
    hide WellFormed, Forest, AllCanonical, LinksOk, UniqueRecords, RefsResolved, RefsPending, RefRanked, ViewOk, View, EnumsApart, PrimsMapped,
      Clean, Meant, Collapsed, KeptFrom, TwinFree, EnumsResolved, Quotient, FinalId, Kept, VerdictOk, StructsStay, FwdEnds, IsMapped;
    AllCanonicalForest(m);
    KeptResult(g0, g, m, out);
    TwinsApart(g0, noFwd, hash, m0, ms, log);
    TwinsGone(g0, hash, ms, m);
    if !noFwd { EnumsEnd(g, m, out, hash); }
    forall j, c | 0 < j < |g0| && IsComposite(g0[j].Kind()) && log[j].Same? && 0 <= c < |g0| ensures FwdEnds(g0, out, FinalIds(m), log[j].w, c) {
      FwdEndsAt(g0, g, noFwd, hash, m0, ms, m, log, out, j, c);
    }
    if Clean(g0, noFwd, hash) { QuotientResult(g0, g, noFwd, hash, m0, ms, m, log, rank); }
  }

  // ----- why units must be free of duplicates -----

  /** Struct 3 has two members of pointer type 2; struct 6 is the same with pointer types 4 and 5, which are equal. */
  ghost predicate PointersTwice(g: Graph) {
    && |g| == 7 && WellFormed(g) && g[1].Kind() == Int
    && g[2].Kind() == Ptr && g[2].refs == [1] && g[4] == g[2] && g[5] == g[2]
    && g[3].Kind() == Struct && g[3].refs == [2, 2] && g[6] == g[3].(refs := [4, 5])
  }

  /** The two structs mean the same, but the check pairs type 2 with one pointer only and refuses them. */
  lemma DuplicatesInUnit(g: Graph, x: Context)
    requires PointersTwice(g) && x.g == g && ContextOk(x) && x.m[3] == 3
    requires !IsMapped(x.m, 2) && !IsMapped(x.m, 4) && !IsMapped(x.m, 5) && !IsMapped(x.m, 6)
    ensures Bisimilar(g, 6, g, 3) && NoWitness(x, 6, 3)
  {
    RedirectedRefl(g);
    EqualRecordsBisimilar(g, g, 4, 2);
    EqualRecordsBisimilar(g, g, 5, 2);
    assert Label(g[6]) == Label(g[3]);
    BisimilarFold(g, 6, g, 3);
    hide Bisimilar, WellFormed, Forest, Redirected, Closed;
    forall w | Closed(x, w) && |w| == |x.g| ensures !Covered(x, w, 6, 3) {
      if Covered(x, w, 6, 3) {
        PointerPaired(x, w, 0);
        PointerPaired(x, w, 1);
      }
    }
  }

  lemma PointerPaired(x: Context, w: seq<nat>, k: nat)
    requires ContextOk(x) && PointersTwice(x.g) && !IsMapped(x.m, 2) && !IsMapped(x.m, 4) && !IsMapped(x.m, 5)
    requires Closed(x, w) && |w| == 7 && w[3] == 6 && k < 2
    ensures w[2] == 4 + k
  {
    hide WellFormed, Forest;
    assert ClosedAt(x, w, 3);
    assert x.g[6].refs[k] == 4 + k && x.g[3].refs[k] == 2;
    assert Covered(x, w, x.g[6].refs[k], x.g[3].refs[k]);
  }
}
