/**
 Comparing BTF types: the record comparisons of libbpf's btf.c and the theory of the
 hypothetical map built by the graph equivalence check (btf_dedup_is_equiv).
 */
module BtfEquiv {
  import opened BtfGraph
  import opened BtfForest

  // ----- record comparisons -----

  /** The size/type union of the record header. */
  function HeaderUnion(t: BtfType): nat {
    if (IsSingleRef(t.Kind()) || t.Kind() in {Fwd, FuncProto, Var}) && |t.refs| > 0 then t.refs[0] else t.size
  }

  predicate EqualCommon(t1: BtfType, t2: BtfType) {
    t1.nameOff == t2.nameOff && t1.info == t2.info && HeaderUnion(t1) == HeaderUnion(t2)
  }

  predicate EqualInt(t1: BtfType, t2: BtfType) { EqualCommon(t1, t2) && t1.fields == t2.fields }

  predicate EqualEnum(t1: BtfType, t2: BtfType) { EqualCommon(t1, t2) && t1.fields == t2.fields }

  predicate IsEnumFwd(t: BtfType) { t.Kind() == Enum && t.info.vlen == 0 }

  predicate CompatEnum(t1: BtfType, t2: BtfType) {
    if !IsEnumFwd(t1) && !IsEnumFwd(t2) then EqualEnum(t1, t2)
    else t1.nameOff == t2.nameOff && t1.info.(vlen := 0) == t2.info.(vlen := 0) && t1.size == t2.size
  }

  predicate ShallowEqualStruct(t1: BtfType, t2: BtfType) { EqualCommon(t1, t2) && t1.fields == t2.fields }

  predicate EqualArray(t1: BtfType, t2: BtfType) {
    EqualCommon(t1, t2) && t1.refs == t2.refs && t1.fields == t2.fields
  }

  predicate CompatArray(t1: BtfType, t2: BtfType) { EqualCommon(t1, t2) && t1.fields == t2.fields }

  predicate EqualFnProto(t1: BtfType, t2: BtfType) {
    EqualCommon(t1, t2) && t1.fields == t2.fields && t1.refs == t2.refs
  }

  predicate CompatFnProto(t1: BtfType, t2: BtfType) {
    t1.nameOff == t2.nameOff && t1.info == t2.info && t1.fields == t2.fields
  }

  /** The kind of composite a forward declaration stands for. */
  function FwdKind(t: BtfType): Kind { if t.info.kflag then Union else Struct }

  /** What a struct, union, enum or forward declaration says by kind and name alone. */
  function ByName(t: BtfType): BtfType {
    match t.Kind()
    case Struct | Union => BtfType(t.nameOff, Info(t.Kind(), 0, false, 0), 0, [], [])
    case Fwd => BtfType(t.nameOff, Info(FwdKind(t), 0, false, 0), 0, [], [])
    case Enum => BtfType(t.nameOff, t.info.(vlen := 0), t.size, [], [])
    case _ => t
  }

  /**
   A record read by kind and name only where it declares something named: what a named struct or union holds, the
   enumerators of a named enum, and whether it is a forward declaration are left out.
   */
  function Named(t: BtfType): BtfType { if t.nameOff == 0 then t else ByName(t) }

  /** What a record says to the equivalence check: everything, or with forward resolution what it says by name. */
  function Shown(noFwd: bool, t: BtfType): BtfType { if noFwd then t else Named(t) }

  ghost function View(g: Graph, noFwd: bool): (v: Graph)
    ensures |v| == |g| && forall i :: 0 <= i < |g| ==> v[i] == Shown(noFwd, g[i])
    ensures noFwd ==> v == g
    ensures WellFormed(g) ==> WellFormed(v)
  {
    var v := seq(|g|, i requires 0 <= i < |g| => Shown(noFwd, g[i]));
    Recut(g, v);
    v
  }

  /** Reading some records by name keeps a graph well formed. */
  lemma Recut(g: Graph, v: Graph)
    requires |v| == |g| && forall i :: 0 <= i < |g| ==> v[i] == g[i] || v[i] == ByName(g[i])
    ensures WellFormed(g) ==> WellFormed(v)
  {
    if WellFormed(g) {
      forall i | 0 <= i < |g| ensures RecordOk(v[i]) && RefsBelow(v[i], |v|) && (v[i].Kind() == Unkn <==> g[i].Kind() == Unkn) {
        assert RecordOk(g[i]) && RefsBelow(g[i], |g|);
      }
    }
  }

  /** Forward declarations of structs, unions and enums have names; nothing else could tell what they stand for. */
  ghost predicate FwdsNamed(g: Graph) {
    forall i :: 0 <= i < |g| && (g[i].Kind() == Fwd || IsEnumFwd(g[i])) ==> g[i].nameOff != 0
  }

  /** Deduplication keeps what types mean in the view. */
  ghost predicate Meant(g: Graph, noFwd: bool) { noFwd || FwdsNamed(g) }

  /** One side is a forward declaration, the other is not, and forward declarations may be resolved. */
  predicate IsFwdPair(noFwd: bool, cand: BtfType, canon: BtfType) {
    !noFwd && (cand.Kind() == Fwd || canon.Kind() == Fwd) && cand.Kind() != canon.Kind()
  }

  predicate FwdPairOk(cand: BtfType, canon: BtfType) {
    if cand.Kind() == Fwd then FwdKind(cand) == canon.Kind() else FwdKind(canon) == cand.Kind()
  }

  /** The check of one pair of records, everything but the referenced types. */
  predicate NodeOk(noFwd: bool, cand: BtfType, canon: BtfType) {
    && cand.nameOff == canon.nameOff
    && if IsFwdPair(noFwd, cand, canon) then FwdPairOk(cand, canon)
       else cand.Kind() == canon.Kind() && LocalOk(noFwd, cand, canon)
  }

  predicate LocalOk(noFwd: bool, cand: BtfType, canon: BtfType) {
    match cand.Kind()
    case Int => EqualInt(cand, canon)
    case Enum => if noFwd then EqualEnum(cand, canon) else CompatEnum(cand, canon)
    case Fwd => EqualCommon(cand, canon)
    case Typedef | Ptr | Const | Volatile | Restrict | Func => cand.info == canon.info
    case Array => CompatArray(cand, canon)
    case Struct | Union => ShallowEqualStruct(cand, canon)
    case FuncProto => CompatFnProto(cand, canon)
    case Unkn | Var | Datasec => false
  }

  /** A forward declaration passes against exactly the structs, or with its kind flag set the unions, of its name;
      it does so on either side, and never without forward resolution. */
  lemma FwdMeets(noFwd: bool, fwd: BtfType, t: BtfType)
    requires fwd.Kind() == Fwd && IsComposite(t.Kind())
    ensures NodeOk(noFwd, fwd, t) <==> !noFwd && fwd.nameOff == t.nameOff && (fwd.info.kflag <==> t.Kind() == Union)
    ensures NodeOk(noFwd, t, fwd) <==> NodeOk(noFwd, fwd, t)
  {
  }

  /** The kinds whose references are compared in turn. */
  predicate ComparesRefs(cand: BtfType, canon: BtfType) {
    cand.Kind() == canon.Kind() && (IsReference(cand.Kind()) || IsComposite(cand.Kind()))
  }

  lemma NodeOkRefs(noFwd: bool, cand: BtfType, canon: BtfType)
    requires RecordOk(cand) && RecordOk(canon)
    requires NodeOk(noFwd, cand, canon) && ComparesRefs(cand, canon)
    ensures |cand.refs| == |canon.refs|
  {
  }

  /** Names are given to forward declarations. */
  predicate NameGiven(noFwd: bool, t: BtfType) { noFwd || ((t.Kind() == Fwd || IsEnumFwd(t)) ==> t.nameOff != 0) }

  /** A passed check means equal labels in the view, and equal references where they are not compared. */
  lemma NodeOkLabel(noFwd: bool, cand: BtfType, canon: BtfType)
    requires RecordOk(cand) && RecordOk(canon) && NodeOk(noFwd, cand, canon) && NameGiven(noFwd, cand) && NameGiven(noFwd, canon)
    ensures var t, u := Shown(noFwd, cand), Shown(noFwd, canon);
      && Label(t) == Label(u) && |t.refs| == |u.refs|
      && (t.refs == u.refs || (ComparesRefs(cand, canon) && t.refs == cand.refs && u.refs == canon.refs))
  {
    if cand.Kind() == Fwd && canon.Kind() == Fwd {
      assert cand.refs == [cand.refs[0]] && canon.refs == [canon.refs[0]];
    }
  }

  // ----- the map of canonical types is sound -----

  datatype Context = Context(g: Graph, m: seq<nat>, noFwd: bool)

  ghost predicate ContextOk(x: Context) {
    WellFormed(x.g) && Forest(x.m) && |x.m| == |x.g| && |x.g| <= MAX_NR_TYPES + 1
  }

  /** Every mapped type is mapped to an equivalent type. */
  ghost predicate SoundMap(g: Graph, m: seq<nat>)
    requires WellFormed(g) && |m| == |g|
  {
    forall i :: 0 <= i < |m| && IsMapped(m, i) ==> m[i] < |m| && Bisimilar(g, i, g, m[i])
  }

  lemma {:induction false} SoundRoot(g: Graph, m: seq<nat>, i: nat)
    requires WellFormed(g) && |m| == |g| && Forest(m) && SoundMap(g, m) && i < |m|
    ensures Bisimilar(g, i, g, Root(m, i))
    decreases RankOf(m)[i]
  {
    if IsRoot(m, i) {
      BisimilarRefl(g, i);
    } else {
      SoundRoot(g, m, m[i]);
      BisimilarTrans(g, i, g, m[i], g, Root(m, i));
    }
  }

  lemma SameRootBisimilar(g: Graph, m: seq<nat>, a: nat, b: nat)
    requires WellFormed(g) && |m| == |g| && Forest(m) && SoundMap(g, m) && a < |m| && b < |m|
    requires Root(m, a) == Root(m, b)
    ensures Bisimilar(g, a, g, b)
  {
    SoundRoot(g, m, a);
    SoundRoot(g, m, b);
    BisimilarSym(g, b, g, Root(m, b));
    BisimilarTrans(g, a, g, Root(m, a), g, b);
  }

  /** resolve_fwd_id: a forward declaration already linked to a composite stands for it. */
  ghost function FwdTarget(x: Context, c: nat): (r: nat)
    requires ContextOk(x) && c < |x.g|
    ensures r < |x.g|
  {
    if x.g[c].Kind() == Fwd && x.g[Root(x.m, c)].Kind() != Fwd then Root(x.m, c) else c
  }

  // ----- hypothetical maps -----

  /** Unset slots of a hypothetical map. */
  ghost function Unset(h: seq<nat>): set<nat> {
    set i | 0 <= i < |h| && h[i] > MAX_NR_TYPES
  }

  ghost predicate Extends(h: seq<nat>, h': seq<nat>) {
    |h'| == |h| && forall c :: 0 <= c < |h| && h[c] <= MAX_NR_TYPES ==> h'[c] == h[c]
  }

  ghost predicate HypotOk(g: Graph, h: seq<nat>) {
    |h| == |g| && forall c :: 0 <= c < |h| && h[c] <= MAX_NR_TYPES ==> h[c] < |g|
  }

  /** The pair is settled: same canonical type, or hypothesised equivalent. */
  ghost predicate Covered(x: Context, h: seq<nat>, cand: nat, canon: nat)
    requires ContextOk(x) && |h| == |x.g| && cand < |x.g| && canon < |x.g|
  {
    Root(x.m, cand) == Root(x.m, canon) || h[FwdTarget(x, canon)] == cand
  }

  /** The first `k` of two lists of referenced types are settled pairwise. */
  ghost predicate PrefixCovered(x: Context, h: seq<nat>, a: seq<nat>, b: seq<nat>, k: nat)
    requires ContextOk(x) && |h| == |x.g| && k <= |a| == |b|
  {
    forall j :: 0 <= j < k ==> a[j] < |x.g| && b[j] < |x.g| && Covered(x, h, a[j], b[j])
  }

  ghost predicate RefsCovered(x: Context, h: seq<nat>, cand: nat, canon: nat)
    requires ContextOk(x) && |h| == |x.g| && cand < |x.g| && canon < |x.g|
    requires |x.g[cand].refs| == |x.g[canon].refs|
  {
    PrefixCovered(x, h, x.g[cand].refs, x.g[canon].refs, |x.g[cand].refs|)
  }

  /** The hypothesis recorded for `c` is justified by the other hypotheses. */
  ghost predicate ClosedAt(x: Context, h: seq<nat>, c: nat)
    requires ContextOk(x) && HypotOk(x.g, h) && c < |h| && h[c] <= MAX_NR_TYPES
  {
    && NodeOk(x.noFwd, x.g[h[c]], x.g[c])
    && (ComparesRefs(x.g[h[c]], x.g[c]) ==>
          |x.g[h[c]].refs| == |x.g[c].refs| && RefsCovered(x, h, h[c], c))
  }

  /** Every hypothesis is justified by the others. */
  ghost predicate Closed(x: Context, h: seq<nat>)
    requires ContextOk(x)
  {
    HypotOk(x.g, h) && forall c :: 0 <= c < |h| && h[c] <= MAX_NR_TYPES ==> ClosedAt(x, h, c)
  }

  /** A closed map that extends `h`. */
  ghost predicate Completes(x: Context, h: seq<nat>, w: seq<nat>)
    requires ContextOk(x)
  {
    Closed(x, w) && Extends(h, w)
  }

  /** A completion of `h` that settles the pair: what the equivalence check searches for. */
  ghost predicate Witness(x: Context, h: seq<nat>, w: seq<nat>, cand: nat, canon: nat)
    requires ContextOk(x) && cand < |x.g| && canon < |x.g|
  {
    Completes(x, h, w) && Covered(x, w, cand, canon)
  }

  lemma CoveredMonotone(x: Context, h: seq<nat>, h': seq<nat>, cand: nat, canon: nat)
    requires ContextOk(x) && |h| == |x.g| && Extends(h, h') && cand < |x.g| && canon < |x.g|
    requires Covered(x, h, cand, canon)
    ensures Covered(x, h', cand, canon)
  {
  }

  lemma PrefixCoveredStep(x: Context, h: seq<nat>, h': seq<nat>, a: seq<nat>, b: seq<nat>, k: nat)
    requires ContextOk(x) && |h| == |x.g| && Extends(h, h') && k < |a| == |b|
    requires PrefixCovered(x, h, a, b, k) && a[k] < |x.g| && b[k] < |x.g| && Covered(x, h', a[k], b[k])
    ensures PrefixCovered(x, h', a, b, k + 1)
  {
    forall j | 0 <= j < k ensures Covered(x, h', a[j], b[j]) { CoveredMonotone(x, h, h', a[j], b[j]); }
  }

  lemma ClosedAtMonotone(x: Context, h: seq<nat>, h': seq<nat>, c: nat)
    requires ContextOk(x) && HypotOk(x.g, h) && HypotOk(x.g, h') && Extends(h, h')
    requires c < |h| && h[c] <= MAX_NR_TYPES && ClosedAt(x, h, c)
    ensures ClosedAt(x, h', c)
  {
    if ComparesRefs(x.g[h[c]], x.g[c]) {
      forall k | 0 <= k < |x.g[h[c]].refs| ensures Covered(x, h', x.g[h[c]].refs[k], x.g[c].refs[k]) {
        assert RefsBelow(x.g[c], |x.g|) && RefsBelow(x.g[h[c]], |x.g|);
        CoveredMonotone(x, h, h', x.g[h[c]].refs[k], x.g[c].refs[k]);
      }
    }
  }

  // ----- a closed map over a sound map of canonical types is a bisimulation -----

  /** Labels agree, and each referenced pair is equivalent already or hypothesised in turn. */
  ghost predicate BackedAt(v: Graph, h: seq<nat>, c: nat)
    requires WellFormed(v) && |h| == |v| && c < |h|
  {
    && h[c] < |v|
    && Label(v[h[c]]) == Label(v[c])
    && |v[h[c]].refs| == |v[c].refs|
    && forall j :: 0 <= j < |v[c].refs| ==> BackedPair(v, h, v[h[c]].refs[j], v[c].refs[j])
  }

  ghost predicate BackedPair(v: Graph, h: seq<nat>, a: nat, c: nat)
    requires WellFormed(v) && |h| == |v| && a < |v| && c < |v|
  {
    Bisimilar(v, a, v, c) || exists c0: nat :: c0 < |v| && h[c0] == a && Bisimilar(v, c0, v, c)
  }

  ghost predicate Backed(v: Graph, h: seq<nat>)
    requires WellFormed(v) && |h| == |v|
  {
    forall c :: 0 <= c < |h| && h[c] < |v| ==> BackedAt(v, h, c)
  }

  lemma {:induction false} BackedSame(k: nat, v: Graph, h: seq<nat>, c: nat)
    requires WellFormed(v) && |h| == |v| && Backed(v, h) && c < |h| && h[c] < |v|
    ensures SameToDepth(k, v, h[c], v, c)
    decreases k, 1
  {
    var a := h[c];
    assert BackedAt(v, h, c) && RefsBelow(v[a], |v|) && RefsBelow(v[c], |v|);
    hide WellFormed, Backed, SameToDepth, Label, BackedPair;
    DepthHead(k, v, a, c);
    if k > 0 {
      forall j | 0 <= j < |v[a].refs| ensures SameToDepth(k - 1, v, v[a].refs[j], v, v[c].refs[j]) {
        BackedPairSame(k - 1, v, h, v[a].refs[j], v[c].refs[j]);
      }
    }
  }

  lemma {:induction false} BackedPairSame(k: nat, v: Graph, h: seq<nat>, a: nat, c: nat)
    requires WellFormed(v) && |h| == |v| && Backed(v, h) && a < |v| && c < |v| && BackedPair(v, h, a, c)
    ensures SameToDepth(k, v, a, v, c)
    decreases k, 2
  {
    hide WellFormed, Backed, SameToDepth;
    if !Bisimilar(v, a, v, c) {
      var c0: nat :| c0 < |v| && h[c0] == a && Bisimilar(v, c0, v, c);
      BackedSame(k, v, h, c0);
      SameToDepthTrans(k, v, a, v, c0, v, c);
    }
  }

  lemma FwdTargetSound(x: Context, c: nat)
    requires ContextOk(x) && SoundMap(View(x.g, x.noFwd), x.m) && c < |x.g|
    ensures Bisimilar(View(x.g, x.noFwd), FwdTarget(x, c), View(x.g, x.noFwd), c)
  {
    var v := View(x.g, x.noFwd);
    hide View, Bisimilar, SoundMap, WellFormed, Forest;
    SoundRoot(v, x.m, c);
    BisimilarSym(v, c, v, Root(x.m, c));
    BisimilarRefl(v, c);
  }

  lemma CoveredBacked(x: Context, h: seq<nat>, a: nat, c: nat)
    requires ContextOk(x) && SoundMap(View(x.g, x.noFwd), x.m) && |h| == |x.g| && a < |x.g| && c < |x.g| && Covered(x, h, a, c)
    ensures BackedPair(View(x.g, x.noFwd), h, a, c)
  {
    var v := View(x.g, x.noFwd);
    hide View, Bisimilar, SoundMap, WellFormed, Forest;
    if Root(x.m, a) == Root(x.m, c) { SameRootBisimilar(v, x.m, a, c); } else { FwdTargetSound(x, c); }
  }

  lemma ClosedBackedAt(x: Context, h: seq<nat>, c: nat)
    requires ContextOk(x) && Meant(x.g, x.noFwd) && SoundMap(View(x.g, x.noFwd), x.m) && HypotOk(x.g, h)
    requires c < |h| && h[c] <= MAX_NR_TYPES && ClosedAt(x, h, c)
    ensures BackedAt(View(x.g, x.noFwd), h, c)
  {
    var a, v := h[c], View(x.g, x.noFwd);
    assert RecordOk(x.g[a]) && RecordOk(x.g[c]) && RefsBelow(x.g[a], |x.g|) && RefsBelow(x.g[c], |x.g|);
    assert RefsBelow(v[a], |v|) && RefsBelow(v[c], |v|);
    NodeOkLabel(x.noFwd, x.g[a], x.g[c]);
    hide View, SoundMap, WellFormed, Forest, Bisimilar, NodeOk;
    forall j | 0 <= j < |v[c].refs| ensures BackedPair(v, h, v[a].refs[j], v[c].refs[j]) {
      if v[a].refs == v[c].refs {
        BisimilarRefl(v, v[c].refs[j]);
      } else {
        assert Covered(x, h, x.g[a].refs[j], x.g[c].refs[j]);
        CoveredBacked(x, h, v[a].refs[j], v[c].refs[j]);
      }
    }
  }

  lemma ClosedBacked(x: Context, h: seq<nat>)
    requires ContextOk(x) && Meant(x.g, x.noFwd) && SoundMap(View(x.g, x.noFwd), x.m) && Closed(x, h)
    ensures Backed(View(x.g, x.noFwd), h)
  {
    hide View, SoundMap, WellFormed, Forest, ClosedAt, BackedAt, Meant;
    forall c | 0 <= c < |h| && h[c] < |x.g| ensures BackedAt(View(x.g, x.noFwd), h, c) { ClosedBackedAt(x, h, c); }
  }

  /** Every hypothesis of a closed map pairs equivalent types, cycles included. */
  lemma ClosedIsBisimulation(x: Context, h: seq<nat>, c: nat)
    requires ContextOk(x) && Meant(x.g, x.noFwd) && SoundMap(View(x.g, x.noFwd), x.m) && Closed(x, h)
    requires c < |h| && h[c] <= MAX_NR_TYPES
    ensures Bisimilar(View(x.g, x.noFwd), h[c], View(x.g, x.noFwd), c)
  {
    var v := View(x.g, x.noFwd);
    ClosedBacked(x, h);
    hide View, SoundMap, WellFormed, Forest, ClosedAt, Backed, Meant, SameToDepth;
    forall k: nat ensures SameToDepth(k, v, h[c], v, c) { BackedSame(k, v, h, c); }
  }

  lemma WitnessBisimilar(x: Context, h: seq<nat>, w: seq<nat>, cand: nat, canon: nat)
    requires ContextOk(x) && Meant(x.g, x.noFwd) && SoundMap(View(x.g, x.noFwd), x.m) && cand < |x.g| && canon < |x.g|
    requires Witness(x, h, w, cand, canon)
    ensures Bisimilar(View(x.g, x.noFwd), cand, View(x.g, x.noFwd), canon)
  {
    var v := View(x.g, x.noFwd);
    hide View, SoundMap, WellFormed, Forest, ClosedAt, Meant, Bisimilar;
    if Root(x.m, cand) == Root(x.m, canon) {
      SameRootBisimilar(v, x.m, cand, canon);
    } else {
      var c0 := FwdTarget(x, canon);
      FwdTargetSound(x, canon);
      ClosedIsBisimulation(x, w, c0);
      BisimilarTrans(v, cand, v, c0, v, canon);
    }
  }
}
