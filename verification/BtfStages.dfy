/**
 What holds between the steps of BTF type deduplication, stated over values: the outcome
 of an equivalence check, the canonical map, the candidate table, the progress of the
 reference pass, and the layout after compaction and remapping.
 */
module BtfStages {
  import opened Machine
  import opened BtfGraph
  import opened BtfForest
  import opened BtfEquiv


  /** All hypotheses added since `h0` are justified. */
  ghost predicate NewClosed(x: Context, h0: seq<nat>, h: seq<nat>)
    requires ContextOk(x) && HypotOk(x.g, h) && |h0| == |h|
  {
    forall c :: 0 <= c < |h| && h[c] <= MAX_NR_TYPES && h0[c] > MAX_NR_TYPES ==> ClosedAt(x, h, c)
  }

  lemma NewClosedTrans(x: Context, h0: seq<nat>, h1: seq<nat>, h2: seq<nat>)
    requires ContextOk(x) && HypotOk(x.g, h1) && HypotOk(x.g, h2) && |h0| == |h1|
    requires Extends(h1, h2) && NewClosed(x, h0, h1) && NewClosed(x, h1, h2)
    ensures NewClosed(x, h0, h2)
  {
    forall c | 0 <= c < |h2| && h2[c] <= MAX_NR_TYPES && h0[c] > MAX_NR_TYPES ensures ClosedAt(x, h2, c) {
      if h1[c] <= MAX_NR_TYPES { ClosedAtMonotone(x, h1, h2, c); }
    }
  }

  /**
   What the equivalence check of a pair guarantees, started with hypothetical map `h0` and
   ending with `h`. A verdict of 1 leaves a map that settles the pair and justifies all it
   added; and whenever any completion of `h0` settles the pair, the verdict is 1.
   */
  ghost predicate EquivPost(x: Context, h0: seq<nat>, h: seq<nat>, candId: nat, canonId: nat, r: int)
    requires ContextOk(x) && HypotOk(x.g, h0) && HypotOk(x.g, h) && candId < |x.g| && canonId < |x.g|
  {
    && r in {1, 0, EINVAL}
    && Extends(h0, h)
    && (r == 1 ==> Covered(x, h, candId, canonId) && NewClosed(x, h0, h))
    && (forall w :: Witness(x, h0, w, candId, canonId) ==> r == 1 && Completes(x, h, w))
  }

  /** Verdict on one pair of records; RECURSE when its references decide. */
  const RECURSE: int := 2

  function LocalVerdict(noFwd: bool, cand: BtfType, canon: BtfType): (r: int)
    ensures r in {1, 0, EINVAL, RECURSE}
    ensures r in {1, RECURSE} <==> NodeOk(noFwd, cand, canon)
    ensures r == RECURSE <==> NodeOk(noFwd, cand, canon) && ComparesRefs(cand, canon)
    ensures r == EINVAL ==> cand.Kind() == canon.Kind() && cand.Kind() in {Unkn, Var, Datasec} && cand.nameOff == canon.nameOff
  {
    if cand.nameOff != canon.nameOff then 0
    else if IsFwdPair(noFwd, cand, canon) then
      if FwdPairOk(cand, canon) then 1 else 0
    else if cand.Kind() != canon.Kind() then 0
    else match cand.Kind()
      case Int => if EqualInt(cand, canon) then 1 else 0
      case Enum =>
        if (if noFwd then EqualEnum(cand, canon) else CompatEnum(cand, canon)) then 1 else 0
      case Fwd => if EqualCommon(cand, canon) then 1 else 0
      case Typedef | Ptr | Const | Volatile | Restrict | Func => if cand.info != canon.info then 0 else RECURSE
      case Array => if !CompatArray(cand, canon) then 0 else RECURSE
      case Struct | Union => if !ShallowEqualStruct(cand, canon) then 0 else RECURSE
      case FuncProto => if !CompatFnProto(cand, canon) then 0 else RECURSE
      case Unkn | Var | Datasec => EINVAL
  }

  predicate IsData(k: Kind) { k == Var || k == Datasec }

  /** Two variables or two data sections of the same name. */
  ghost predicate DataPair(g: Graph, a: nat, b: nat) {
    a < |g| && b < |g| && a != b && IsData(g[a].Kind()) && g[b].Kind() == g[a].Kind() && g[b].nameOff == g[a].nameOff
  }

  ghost predicate RefersTo(g: Graph, i: nat, a: nat) {
    i < |g| && (IsReference(g[i].Kind()) || IsComposite(g[i].Kind())) && a in g[i].refs
  }

  /** Some struct, union or reference type refers to a variable or data section that shares its name with another. */
  ghost predicate DataClash(g: Graph) {
    exists a: nat, b: nat, i: nat :: DataPair(g, a, b) && RefersTo(g, i, a)
  }

  /** The check of a pair gives up only for data. */
  lemma DataEntered(x: Context, candId: nat, canonId: nat)
    requires ContextOk(x) && candId < |x.g| && canonId < |x.g| && Root(x.m, candId) != Root(x.m, canonId)
    requires LocalVerdict(x.noFwd, x.g[candId], x.g[FwdTarget(x, canonId)]) == EINVAL
    ensures DataPair(x.g, candId, FwdTarget(x, canonId))
  {
    var id := FwdTarget(x, canonId);
    RootOfRoot(x.m, canonId);
    assert candId != id;
    assert x.g[candId].Kind() == Unkn ==> candId == 0 == id;
  }

  /** Entering a pair: it uses up an unset slot, and every witness for the pair contains it. */
  lemma PairEntered(x: Context, h0: seq<nat>, h1: seq<nat>, candId: nat, canonId: nat)
    requires ContextOk(x) && HypotOk(x.g, h0) && candId < |x.g| && canonId < |x.g|
    requires Root(x.m, candId) != Root(x.m, canonId)
    requires h0[FwdTarget(x, canonId)] > MAX_NR_TYPES && h1 == h0[FwdTarget(x, canonId) := candId]
    ensures HypotOk(x.g, h1) && Extends(h0, h1) && Unset(h1) < Unset(h0)
    ensures forall w :: Witness(x, h0, w, candId, canonId) ==>
              Completes(x, h1, w) && NodeOk(x.noFwd, x.g[candId], x.g[FwdTarget(x, canonId)])
  {
    var id := FwdTarget(x, canonId);
    assert id in Unset(h0) && id !in Unset(h1);
    forall w | Witness(x, h0, w, candId, canonId)
      ensures Completes(x, h1, w) && NodeOk(x.noFwd, x.g[candId], x.g[id])
    {
      assert ClosedAt(x, w, id);
    }
  }

  /** The pair has the same canonical type already. */
  lemma SameRootPost(x: Context, h: seq<nat>, candId: nat, canonId: nat)
    requires ContextOk(x) && HypotOk(x.g, h) && candId < |x.g| && canonId < |x.g|
    requires Root(x.m, candId) == Root(x.m, canonId)
    ensures EquivPost(x, h, h, candId, canonId, 1)
  {
  }

  /** A hypothesis about the canonical side was recorded earlier. */
  lemma KnownPost(x: Context, h: seq<nat>, candId: nat, canonId: nat)
    requires ContextOk(x) && HypotOk(x.g, h) && candId < |x.g| && canonId < |x.g|
    requires Root(x.m, candId) != Root(x.m, canonId) && h[FwdTarget(x, canonId)] <= MAX_NR_TYPES
    ensures EquivPost(x, h, h, candId, canonId, if h[FwdTarget(x, canonId)] == candId then 1 else 0)
  {
  }

  /** The entered pair is the only new hypothesis that its own call has to justify. */
  lemma EnteredPost(x: Context, h0: seq<nat>, h1: seq<nat>, h: seq<nat>, candId: nat, canonId: nat, id: nat, r: int)
    requires ContextOk(x) && HypotOk(x.g, h0) && candId < |x.g| && canonId < |x.g| && id == FwdTarget(x, canonId)
    requires Root(x.m, candId) != Root(x.m, canonId)
    requires h0[id] > MAX_NR_TYPES && h1 == h0[id := candId]
    requires HypotOk(x.g, h) && Extends(h1, h) && r in {1, 0, EINVAL}
    requires r == 1 ==> NewClosed(x, h1, h)
    requires r == 1 ==> NodeOk(x.noFwd, x.g[candId], x.g[id])
    requires r == 1 && ComparesRefs(x.g[candId], x.g[id]) ==>
               |x.g[candId].refs| == |x.g[id].refs| && RefsCovered(x, h, candId, id)
    requires NodeOk(x.noFwd, x.g[candId], x.g[id]) ==> forall w :: Completes(x, h1, w) ==> r == 1 && Completes(x, h, w)
    ensures EquivPost(x, h0, h, candId, canonId, r)
  {
    PairEntered(x, h0, h1, candId, canonId);
    assert h1[id] == h[id] == candId;
    if r == 1 {
      assert ClosedAt(x, h, id);
      forall c | 0 <= c < |h| && h[c] <= MAX_NR_TYPES && h0[c] > MAX_NR_TYPES ensures ClosedAt(x, h, c) {
        if c != id { assert h1[c] > MAX_NR_TYPES; }
      }
    }
  }

  /** In any closed map that holds a pair, the pair's references are settled. */
  lemma WitnessForRef(x: Context, h: seq<nat>, w: seq<nat>, candId: nat, canonId: nat, k: nat)
    requires ContextOk(x) && HypotOk(x.g, h) && candId < |x.g| && canonId < |x.g|
    requires h[canonId] == candId && ComparesRefs(x.g[candId], x.g[canonId])
    requires |x.g[candId].refs| == |x.g[canonId].refs| && k < |x.g[candId].refs|
    requires Completes(x, h, w)
    ensures Witness(x, h, w, x.g[candId].refs[k], x.g[canonId].refs[k])
  {
    assert w[canonId] == candId;
    assert ClosedAt(x, w, canonId);
  }

  // ----- invariants of the canonical map -----

  /**
   A type's canonical type has its name and kind, and its record if it is primitive, except that forward declarations
   may stand for composites and enums without enumerators for others of their size.
   */
  predicate LinkOk(t: BtfType, target: BtfType) {
    && t.nameOff == target.nameOff
    && match t.Kind()
       case Fwd => if target.Kind() == Fwd then t == target else FwdKind(t) == target.Kind()
       case Int => t == target
       case Enum => t == target || (IsEnumFwd(t) && CompatEnum(t, target))
       case _ => target.Kind() == t.Kind()
  }

  ghost predicate LinksOk(g: Graph, m: seq<nat>)
    requires |g| == |m|
  {
    forall i :: 0 <= i < |m| && IsMapped(m, i) ==> m[i] < |m| && LinkOk(g[i], g[m[i]])
  }

  lemma {:induction false} RootKind(g: Graph, m: seq<nat>, i: nat)
    requires |g| == |m| && Forest(m) && LinksOk(g, m) && i < |m|
    ensures LinkOk(g[i], g[Root(m, i)])
    decreases RankOf(m)[i]
  {
    if !IsRoot(m, i) { RootKind(g, m, m[i]); }
  }

  /** Only roots were redirected, and only unmapped ones or forward declarations. */
  ghost predicate Grown(g: Graph, m0: seq<nat>, m: seq<nat>)
    requires |g| == |m0| == |m|
  {
    forall i :: 0 <= i < |m| && m[i] != m0[i] ==>
      && IsRoot(m0, i) && m[i] != i && IsMapped(m, i)
      && if IsMapped(m0, i) then g[i].Kind() == Fwd else g[i].Kind() == Fwd || IsComposite(g[i].Kind())
  }

  lemma GrownOnlyRoots(g: Graph, m0: seq<nat>, m: seq<nat>)
    requires |g| == |m0| == |m| && Grown(g, m0, m)
    ensures OnlyRoots(m0, m)
  {
  }

  lemma GrownRefl(g: Graph, m: seq<nat>)
    requires |g| == |m|
    ensures Grown(g, m, m)
  {
  }

  /** Linking one root to another root of a suitable kind. */
  lemma LinkRoots(g: Graph, v: Graph, m: seq<nat>, x: nat, t: nat)
    requires WellFormed(v) && |g| == |m| == |v| && Forest(m) && LinksOk(g, m) && x < |m| && t < |m|
    requires IsRoot(m, x) && IsRoot(m, t) && x != t && LinkOk(g[x], g[t])
    ensures Forest(m[x := t]) && LinksOk(g, m[x := t])
    ensures SoundMap(v, m) && Bisimilar(v, x, v, t) ==> SoundMap(v, m[x := t])
  {
    assert !Reaches(m, t, x);
    LinkKeepsForest(m, x, t);
  }

  /** Enums that may be linked, and types with equal records, mean the same. */
  lemma LinkMeans(g: Graph, noFwd: bool, x: nat, t: nat)
    requires WellFormed(g) && Meant(g, noFwd) && x < |g| && t < |g|
    requires g[x] == g[t] || (!noFwd && g[x].Kind() == Enum && LinkOk(g[x], g[t]))
    ensures Bisimilar(View(g, noFwd), x, View(g, noFwd), t)
  {
    var v := View(g, noFwd);
    assert RecordOk(g[x]) && RecordOk(g[t]) && v[x] == v[t];
    forall j | 0 <= j < |v[x].refs| ensures Bisimilar(v, v[x].refs[j], v, v[t].refs[j]) { BisimilarRefl(v, v[x].refs[j]); }
    BisimilarFold(v, x, v, t);
  }

  /** The link a checked pair with roots `t` and `c` gives rise to, if any. */
  function MergedPair(g: Graph, m: seq<nat>, t: nat, c: nat): seq<nat>
    requires |g| == |m| && t < |m| && c < |m|
  {
    if g[t].Kind() != Fwd && g[c].Kind() == Fwd then m[c := t]
    else if g[t].Kind() == Fwd && g[c].Kind() != Fwd then m[t := c]
    else if IsComposite(g[t].Kind()) && g[c].Kind() != Fwd && IsMapped(m, c) && !IsMapped(m, t) then m[t := c]
    else m
  }

  lemma RootsCompatible(x: Context, targ: nat, cand: nat)
    requires ContextOk(x) && LinksOk(x.g, x.m) && targ < |x.g| && cand < |x.g|
    requires NodeOk(x.noFwd, x.g[targ], x.g[cand])
    ensures var t, c := x.g[Root(x.m, targ)], x.g[Root(x.m, cand)];
            && (t.Kind() != Fwd && c.Kind() == Fwd ==> LinkOk(c, t) && IsComposite(t.Kind()))
            && (t.Kind() == Fwd && c.Kind() != Fwd ==> LinkOk(t, c) && IsComposite(c.Kind()))
            && (IsComposite(t.Kind()) && c.Kind() != Fwd ==> LinkOk(t, c))
  {
    hide WellFormed, Forest, LinksOk, Root;
    RootKind(x.g, x.m, targ);
    RootKind(x.g, x.m, cand);
  }

  lemma RootsBisimilar(g: Graph, m: seq<nat>, targ: nat, cand: nat)
    requires WellFormed(g) && |m| == |g| && Forest(m) && SoundMap(g, m) && targ < |g| && cand < |g|
    requires Bisimilar(g, targ, g, cand)
    ensures Bisimilar(g, Root(m, targ), g, Root(m, cand)) && Bisimilar(g, Root(m, cand), g, Root(m, targ))
  {
    var t, c := Root(m, targ), Root(m, cand);
    SoundRoot(g, m, targ);
    SoundRoot(g, m, cand);
    BisimilarSym(g, targ, g, t);
    BisimilarTrans(g, t, g, targ, g, cand);
    BisimilarTrans(g, t, g, cand, g, c);
    BisimilarSym(g, t, g, c);
  }

  /** Merging a checked pair joins distinct roots, and only equivalent types without forward resolution. */
  lemma MergedPairOk(x: Context, m0: seq<nat>, targ: nat, cand: nat)
    requires ContextOk(x) && LinksOk(x.g, x.m) && targ < |x.g| && cand < |x.g|
    requires NodeOk(x.noFwd, x.g[targ], x.g[cand])
    requires Meant(x.g, x.noFwd) ==>
               SoundMap(View(x.g, x.noFwd), x.m) && Bisimilar(View(x.g, x.noFwd), targ, View(x.g, x.noFwd), cand)
    requires |m0| == |x.m| && Grown(x.g, m0, x.m)
    ensures var m' := MergedPair(x.g, x.m, Root(x.m, targ), Root(x.m, cand));
            && Forest(m') && LinksOk(x.g, m') && Grown(x.g, m0, m')
            && (Meant(x.g, x.noFwd) ==> SoundMap(View(x.g, x.noFwd), m'))
  {
    hide WellFormed, Bisimilar, SoundMap, LinksOk, Forest, NodeOk, View, LinkOk, Meant;
    var t, c := Root(x.m, targ), Root(x.m, cand);
    var m' := MergedPair(x.g, x.m, t, c);
    RootsCompatible(x, targ, cand);
    if Meant(x.g, x.noFwd) { RootsBisimilar(View(x.g, x.noFwd), x.m, targ, cand); }
    if m' == x.m {
    } else if x.g[c].Kind() == Fwd {
      LinkRoots(x.g, View(x.g, x.noFwd), x.m, c, t);
    } else {
      LinkRoots(x.g, View(x.g, x.noFwd), x.m, t, c);
    }
  }

  /** If a forward declaration is paired with a composite, both lead to a composite. */
  ghost predicate PairResolved(g: Graph, h: seq<nat>, m: seq<nat>, c: nat)
    requires |g| == |h| == |m| && Forest(m) && c < |h| && h[c] < |g|
  {
    FacesComposite(g[h[c]], g[c]) ==> IsComposite(g[Root(m, h[c])].Kind()) && IsComposite(g[Root(m, c)].Kind())
  }

  ghost predicate FwdsResolved(g: Graph, h: seq<nat>, m: seq<nat>)
    requires |g| == |h| == |m| && Forest(m)
  {
    forall c :: 0 <= c < |h| && h[c] < |g| ==> PairResolved(g, h, m, c)
  }

  /** One is a forward declaration, the other a struct or union. */
  predicate FacesComposite(t: BtfType, u: BtfType) {
    (t.Kind() == Fwd && IsComposite(u.Kind())) || (IsComposite(t.Kind()) && u.Kind() == Fwd)
  }

  /** Nothing but roots and composites was redirected. */
  ghost predicate PathsKept(g: Graph, m: seq<nat>, m': seq<nat>)
    requires |g| == |m| == |m'|
  {
    forall a :: 0 <= a < |m| && m'[a] != m[a] ==> IsRoot(m, a) || IsComposite(g[a].Kind())
  }

  lemma {:induction false} CompositeStays(g: Graph, m: seq<nat>, m': seq<nat>, a: nat)
    requires |g| == |m| == |m'| && Forest(m) && Forest(m') && LinksOk(g, m') && PathsKept(g, m, m') && a < |m|
    requires IsComposite(g[Root(m, a)].Kind())
    ensures IsComposite(g[Root(m', a)].Kind())
    decreases RankOf(m)[a]
  {
    if IsComposite(g[a].Kind()) {
      RootKind(g, m', a);
    } else {
      CompositeStays(g, m, m', m[a]);
    }
  }

  lemma PairStays(g: Graph, h: seq<nat>, m: seq<nat>, m': seq<nat>, c: nat)
    requires |g| == |h| == |m| == |m'| && Forest(m) && Forest(m') && LinksOk(g, m') && PathsKept(g, m, m')
    requires c < |h| && h[c] < |g| && PairResolved(g, h, m, c)
    ensures PairResolved(g, h, m', c)
  {
    if FacesComposite(g[h[c]], g[c]) {
      CompositeStays(g, m, m', h[c]);
      CompositeStays(g, m, m', c);
    }
  }

  lemma ResolvedStays(g: Graph, h: seq<nat>, m: seq<nat>, m': seq<nat>)
    requires |g| == |h| == |m| == |m'| && Forest(m) && Forest(m') && LinksOk(g, m') && PathsKept(g, m, m') && FwdsResolved(g, h, m)
    ensures FwdsResolved(g, h, m')
  {
    hide LinksOk, Forest, PathsKept, PairResolved;
    forall c | 0 <= c < |h| && h[c] < |g| ensures PairResolved(g, h, m', c) { PairStays(g, h, m, m', c); }
  }

  /** Merging a pair of a forward declaration and a composite makes both lead to a composite. */
  lemma MergeResolves(x: Context, targ: nat, cand: nat, m': seq<nat>)
    requires ContextOk(x) && LinksOk(x.g, x.m) && targ < |x.g| && cand < |x.g| && FacesComposite(x.g[targ], x.g[cand])
    requires m' == MergedPair(x.g, x.m, Root(x.m, targ), Root(x.m, cand)) && Forest(m') && LinksOk(x.g, m')
    ensures IsComposite(x.g[Root(m', targ)].Kind()) && IsComposite(x.g[Root(m', cand)].Kind())
  {
    hide WellFormed, Forest, LinksOk;
    var t, c := Root(x.m, targ), Root(x.m, cand);
    RootKind(x.g, x.m, targ);
    RootKind(x.g, x.m, cand);
    RootThrough(x.m, m', targ);
    RootThrough(x.m, m', cand);
    RootKind(x.g, m', t);
    RootKind(x.g, m', c);
  }

  /** `i` is the root of some type that the hypothetical map pairs with another. */
  ghost predicate Met(m: seq<nat>, h: seq<nat>, i: nat)
    requires |h| == |m| && Forest(m)
  {
    exists c :: 0 <= c < |h| && h[c] < |m| && (Root(m, c) == i || Root(m, h[c]) == i)
  }

  /** Only roots of paired types were redirected, to such roots. */
  ghost predicate MetOnly(m0: seq<nat>, h: seq<nat>, m: seq<nat>)
    requires |h| == |m0| == |m| && Forest(m0)
  {
    forall i :: 0 <= i < |m| && m[i] != m0[i] ==> Met(m0, h, i) && Met(m0, h, m[i])
  }

  lemma {:induction false} MetRoot(m0: seq<nat>, h: seq<nat>, m: seq<nat>, i: nat)
    requires |h| == |m0| == |m| && Forest(m0) && Forest(m) && MetOnly(m0, h, m) && i < |m| && Met(m0, h, i)
    ensures Met(m0, h, Root(m, i))
    decreases RankOf(m)[i]
  {
    if !IsRoot(m, i) { MetRoot(m0, h, m, m[i]); }
  }

  /** One step of merging: pairs resolved before stay so, and the merged one is. */
  lemma MergeStep(x: Context, h: seq<nat>, c: nat, m': seq<nat>)
    requires ContextOk(x) && LinksOk(x.g, x.m) && |h| == |x.m| && c < |h| && h[c] < |x.g|
    requires m' == MergedPair(x.g, x.m, Root(x.m, h[c]), Root(x.m, c)) && Forest(m') && LinksOk(x.g, m')
    ensures PairResolved(x.g, h, m', c)
    ensures forall b: nat :: b < |h| && h[b] < |x.g| && PairResolved(x.g, h, x.m, b) ==> PairResolved(x.g, h, m', b)
  {
    hide LinksOk, Forest, WellFormed, PairResolved;
    assert PathsKept(x.g, x.m, m');
    forall b: nat | b < |h| && h[b] < |x.g| && PairResolved(x.g, h, x.m, b) ensures PairResolved(x.g, h, m', b) {
      PairStays(x.g, h, x.m, m', b);
    }
    PairMerged(x, h, c, m');
  }

  lemma PairMerged(x: Context, h: seq<nat>, c: nat, m': seq<nat>)
    requires ContextOk(x) && LinksOk(x.g, x.m) && |h| == |x.m| && c < |h| && h[c] < |x.g|
    requires m' == MergedPair(x.g, x.m, Root(x.m, h[c]), Root(x.m, c)) && Forest(m') && LinksOk(x.g, m')
    ensures PairResolved(x.g, h, m', c)
  {
    hide LinksOk, Forest, WellFormed;
    if FacesComposite(x.g[h[c]], x.g[c]) { MergeResolves(x, h[c], c, m'); }
  }

  /** Merging a pair redirects a root of paired types to another. */
  lemma MergeMet(x: Context, m0: seq<nat>, h: seq<nat>, c: nat)
    requires ContextOk(x) && |h| == |m0| == |x.m| && Forest(m0) && OnlyRoots(m0, x.m) && MetOnly(m0, h, x.m)
    requires c < |h| && h[c] < |x.g|
    ensures MetOnly(m0, h, MergedPair(x.g, x.m, Root(x.m, h[c]), Root(x.m, c)))
  {
    hide WellFormed, Forest, OnlyRoots;
    RootThrough(m0, x.m, c);
    RootThrough(m0, x.m, h[c]);
    assert Met(m0, h, Root(m0, c)) && Met(m0, h, Root(m0, h[c]));
    hide MetOnly, Met;
    MetRoot(m0, h, x.m, Root(m0, c));
    MetRoot(m0, h, x.m, Root(m0, h[c]));
    MetUpdate(m0, h, x.m, Root(x.m, c), Root(x.m, h[c]));
    MetUpdate(m0, h, x.m, Root(x.m, h[c]), Root(x.m, c));
  }

  lemma MetStart(m: seq<nat>, h: seq<nat>)
    requires |h| == |m| && Forest(m)
    ensures MetOnly(m, h, m)
  {
  }

  /** The list holds all paired types. */
  lemma AllMerged(g: Graph, h: seq<nat>, m: seq<nat>, list: seq<nat>)
    requires |g| == |h| == |m| <= MAX_NR_TYPES + 1 && Forest(m) && forall c :: 0 <= c < |h| && c !in list ==> h[c] == UNPROCESSED_ID
    requires forall k :: 0 <= k < |list| ==> list[k] < |h| && h[list[k]] < |g| && PairResolved(g, h, m, list[k])
    ensures FwdsResolved(g, h, m)
  {
    hide PairResolved, Forest;
    forall c | 0 <= c < |h| && h[c] < |g| ensures PairResolved(g, h, m, c) {
      assert c in list;
      var k :| 0 <= k < |list| && list[k] == c;
    }
  }

  lemma MetUpdate(m0: seq<nat>, h: seq<nat>, m: seq<nat>, i: nat, t: nat)
    requires |h| == |m0| == |m| && Forest(m0) && MetOnly(m0, h, m) && i < |m| && Met(m0, h, i) && Met(m0, h, t)
    ensures MetOnly(m0, h, m[i := t])
  {
  }

  /** What the equivalence check established about a pair it entered. */
  ghost predicate PairChecked(g: Graph, noFwd: bool, cand: nat, canon: nat)
    requires WellFormed(g) && cand < |g| && canon < |g|
  {
    NodeOk(noFwd, g[cand], g[canon]) && (Meant(g, noFwd) ==> Bisimilar(View(g, noFwd), cand, View(g, noFwd), canon))
  }

  ghost predicate PairsChecked(x: Context, h: seq<nat>)
    requires ContextOk(x) && HypotOk(x.g, h)
  {
    forall c :: 0 <= c < |h| && h[c] <= MAX_NR_TYPES ==> PairChecked(x.g, x.noFwd, h[c], c)
  }

  lemma HypotPair(x: Context, h: seq<nat>, c: nat)
    requires ContextOk(x) && HypotOk(x.g, h) && PairsChecked(x, h) && c < |h| && h[c] <= MAX_NR_TYPES
    ensures |h| == |x.g| && h[c] < |x.g| && NodeOk(x.noFwd, x.g[h[c]], x.g[c])
    ensures Meant(x.g, x.noFwd) ==> Bisimilar(View(x.g, x.noFwd), h[c], View(x.g, x.noFwd), c)
  {
    assert PairChecked(x.g, x.noFwd, h[c], c);
  }

  // ----- the candidate table -----

  type Table = map<int, set<nat>>

  /** Kinds that get deduplicated, hence enter the table. */
  predicate IsDeduped(k: Kind) { IsPrimitive(k) || IsComposite(k) || IsReference(k) }

  /** Candidates stay canonical, except forward declarations (of composites and enums), which may be redirected. */
  ghost predicate CandidateOk(g: Graph, m: seq<nat>, hash: BtfType -> int, h: int, c: nat)
    requires |g| == |m|
  {
    && 0 < c < |g|
    && hash(g[c]) == h
    && IsDeduped(g[c].Kind())
    && IsMapped(m, c)
    && (g[c].Kind() != Fwd && !IsEnumFwd(g[c]) ==> m[c] == c)
  }

  ghost predicate TableOk(g: Graph, m: seq<nat>, tbl: Table, hash: BtfType -> int)
    requires |g| == |m|
  {
    forall h, c :: h in tbl && c in tbl[h] ==> CandidateOk(g, m, hash, h, c)
  }

  predicate InTable(tbl: Table, h: int, c: nat) { h in tbl && c in tbl[h] }

  /** Every canonical type that could have a duplicate is a candidate. */
  ghost predicate Indexed(g: Graph, m: seq<nat>, tbl: Table, hash: BtfType -> int)
    requires |g| == |m|
  {
    forall i :: 0 < i < |g| && m[i] == i && IsDeduped(g[i].Kind()) ==> InTable(tbl, hash(g[i]), i)
  }

  /** No two canonical primitive or reference types have the same record. */
  ghost predicate UniqueRecords(g: Graph, m: seq<nat>)
    requires |g| == |m|
  {
    forall i, j :: 0 < i < j < |g| && m[i] == i && m[j] == j && (IsPrimitive(g[i].Kind()) || IsReference(g[i].Kind())) ==>
      g[i] != g[j]
  }

  /** No canonical enum could stand for another one with the same signature. */
  ghost predicate EnumsApart(g: Graph, m: seq<nat>, hash: BtfType -> int)
    requires |g| == |m|
  {
    forall i, j :: 0 < i < |g| && 0 < j < |g| && i != j && m[i] == i && m[j] == j && EnumRivals(hash, g[i], g[j]) ==> !CompatEnum(g[i], g[j])
  }

  predicate EnumRivals(hash: BtfType -> int, t: BtfType, u: BtfType) {
    t.Kind() == Enum && u.Kind() == Enum && hash(t) == hash(u)
  }

  /** No canonical candidate could stand for enum `x` or the other way round. */
  ghost predicate EnumFresh(g: Graph, m: seq<nat>, tbl: Table, hash: BtfType -> int, x: nat)
    requires |g| == |m| && x < |g|
  {
    forall c: nat :: InTable(tbl, hash(g[x]), c) && c != x && c < |g| && m[c] == c ==> !CompatEnum(g[x], g[c])
  }

  lemma EnumsApartSelf(g: Graph, m: seq<nat>, tbl: Table, hash: BtfType -> int, x: nat)
    requires |g| == |m| && Indexed(g, m, tbl, hash) && EnumsApart(g, m, hash) && 0 < x < |m|
    requires g[x].Kind() == Enum ==> EnumFresh(g, m, tbl, hash, x)
    ensures EnumsApart(g, m[x := x], hash)
  {
    var m' := m[x := x];
    forall i, j | 0 < i < |g| && 0 < j < |g| && i != j && m'[i] == i && m'[j] == j && EnumRivals(hash, g[i], g[j])
      ensures !CompatEnum(g[i], g[j])
    {
      assert i != x ==> InTable(tbl, hash(g[i]), i);
      assert j != x ==> InTable(tbl, hash(g[j]), j);
    }
  }

  /** `v` is `v0` with references replaced by equivalent ones, and the map leads from every type to an equivalent one. */
  ghost predicate ViewOk(v0: Graph, v: Graph, m: seq<nat>)
    requires WellFormed(v0)
  {
    |m| == |v0| && Redirected(v0, v) && SoundMap(v0, m)
  }

  lemma ViewUpdate(v0: Graph, v: Graph, m: seq<nat>, x: nat, t: nat)
    requires WellFormed(v0) && ViewOk(v0, v, m) && x < |m| && (t > MAX_NR_TYPES || (t < |m| && Bisimilar(v0, x, v0, t)))
    ensures ViewOk(v0, v, m[x := t])
  {
  }

  lemma ViewSelf(v0: Graph, v: Graph, m: seq<nat>, x: nat)
    requires WellFormed(v0) && ViewOk(v0, v, m) && x < |m|
    ensures ViewOk(v0, v, m[x := x])
  {
    BisimilarRefl(v0, x);
  }

  /** Rewriting a reference of a reference type is the same in the view. */
  lemma ViewRewrite(g: Graph, noFwd: bool, x: nat, t: BtfType)
    requires x < |g| && IsReference(t.Kind())
    ensures View(g[x := t], noFwd) == View(g, noFwd)[x := t]
  {
  }

  /**
   The state between deduplication steps. `g0` is the graph before deduplication and `g` the
   graph with some references already redirected. What types mean in the view is kept.
   */
  ghost predicate StageOk(g0: Graph, g: Graph, m: seq<nat>, tbl: Table, hash: BtfType -> int, noFwd: bool)
    requires WellFormed(g0)
  {
    && WellFormed(g) && |g0| == |g| == |m| <= MAX_NR_TYPES + 1
    && Forest(m)
    && m[0] == 0
    && LinksOk(g, m)
    && TableOk(g, m, tbl, hash)
    && Indexed(g, m, tbl, hash)
    && UniqueRecords(g, m)
    && (!noFwd ==> EnumsApart(g, m, hash))
    && (Meant(g0, noFwd) ==> ViewOk(View(g0, noFwd), View(g, noFwd), m))
  }

  /** Mapping a type outside the table, or an enum forward declaration, to another type. */
  lemma StageLink(g0: Graph, g: Graph, m: seq<nat>, tbl: Table, hash: BtfType -> int, noFwd: bool, x: nat, t: nat)
    requires WellFormed(g0) && StageOk(g0, g, m, tbl, hash, noFwd) && 0 < x < |m| && t < |m|
    requires x != t && !Reaches(m, t, x) && LinkOk(g[x], g[t])
    requires IsEnumFwd(g[x]) || forall h :: !InTable(tbl, h, x)
    requires Meant(g0, noFwd) ==> Bisimilar(View(g0, noFwd), x, View(g0, noFwd), t)
    ensures StageOk(g0, g, m[x := t], tbl, hash, noFwd)
  {
    hide ViewOk, View, WellFormed, Bisimilar, Meant;
    LinkKeepsForest(m, x, t);
    var m' := m[x := t];
    if Meant(g0, noFwd) { ViewUpdate(View(g0, noFwd), View(g, noFwd), m, x, t); }
    forall h, c | h in tbl && c in tbl[h] ensures CandidateOk(g, m', hash, h, c) {
      assert InTable(tbl, h, c);
      assert CandidateOk(g, m, hash, h, c);
    }
  }

  function TableAdd(tbl: Table, h: int, c: nat): Table {
    tbl[h := (if h in tbl then tbl[h] else {}) + {c}]
  }

  /** No other candidate has the record of `x`. */
  ghost predicate Fresh(g: Graph, tbl: Table, hash: BtfType -> int, x: nat)
    requires x < |g|
  {
    forall c: nat :: InTable(tbl, hash(g[x]), c) && c != x ==> c < |g| && g[c] != g[x]
  }

  lemma TableAddOk(g: Graph, m: seq<nat>, tbl: Table, hash: BtfType -> int, x: nat)
    requires |g| == |m| && TableOk(g, m, tbl, hash) && Indexed(g, m, tbl, hash) && 0 < x < |m| <= MAX_NR_TYPES + 1
    requires IsDeduped(g[x].Kind())
    ensures TableOk(g, m[x := x], TableAdd(tbl, hash(g[x]), x), hash)
    ensures Indexed(g, m[x := x], TableAdd(tbl, hash(g[x]), x), hash)
  {
    var m', tbl' := m[x := x], TableAdd(tbl, hash(g[x]), x);
    forall h, c | h in tbl' && c in tbl'[h] ensures CandidateOk(g, m', hash, h, c) {
      if InTable(tbl, h, c) { assert CandidateOk(g, m, hash, h, c); }
    }
    forall i | 0 < i < |g| && m'[i] == i && IsDeduped(g[i].Kind()) ensures InTable(tbl', hash(g[i]), i) {
      if i != x { assert InTable(tbl, hash(g[i]), i); }
    }
  }

  lemma FreshUnique(g: Graph, m: seq<nat>, tbl: Table, hash: BtfType -> int, x: nat)
    requires |g| == |m| && Indexed(g, m, tbl, hash) && UniqueRecords(g, m) && 0 < x < |m|
    requires IsComposite(g[x].Kind()) || Fresh(g, tbl, hash, x)
    ensures UniqueRecords(g, m[x := x])
  {
    var m' := m[x := x];
    forall i, j | 0 < i < j < |g| && m'[i] == i && m'[j] == j && (IsPrimitive(g[i].Kind()) || IsReference(g[i].Kind()))
      ensures g[i] != g[j]
    {
      assert i != x ==> InTable(tbl, hash(g[i]), i);
      assert j != x && IsDeduped(g[j].Kind()) ==> InTable(tbl, hash(g[j]), j);
    }
  }

  lemma LinksOkSelf(g: Graph, m: seq<nat>, x: nat)
    requires |g| == |m| && LinksOk(g, m) && x < |m|
    ensures LinksOk(g, m[x := x])
  {
  }

  /** A type without an equal candidate becomes canonical itself. */
  lemma StageSelf(g0: Graph, g: Graph, m: seq<nat>, tbl: Table, hash: BtfType -> int, noFwd: bool, x: nat)
    requires WellFormed(g0) && StageOk(g0, g, m, tbl, hash, noFwd) && 0 < x < |m|
    requires IsDeduped(g[x].Kind())
    requires IsComposite(g[x].Kind()) || Fresh(g, tbl, hash, x)
    requires !noFwd && g[x].Kind() == Enum ==> EnumFresh(g, m, tbl, hash, x)
    ensures StageOk(g0, g, m[x := x], TableAdd(tbl, hash(g[x]), x), hash, noFwd)
  {
    hide Forest, LinksOk, TableOk, Indexed, UniqueRecords, EnumsApart, EnumFresh, Fresh, ViewOk, View, Meant, WellFormed;
    LinksOkSelf(g, m, x);
    if !noFwd { EnumsApartSelf(g, m, tbl, hash, x); }
    RootKeepsForest(m, x, x);
    TableAddOk(g, m, tbl, hash, x);
    FreshUnique(g, m, tbl, hash, x);
    if Meant(g0, noFwd) { ViewSelf(View(g0, noFwd), View(g, noFwd), m, x); }
  }

  /** Before the reference pass, exactly the reference types (and those still to come) are unprocessed. */
  ghost predicate RefsUntouched(g: Graph, m: seq<nat>)
    requires |g| == |m|
  {
    forall i :: 0 <= i < |g| ==>
      && (IsMapped(m, i) || m[i] == UNPROCESSED_ID)
      && (IsReference(g[i].Kind()) ==> m[i] == UNPROCESSED_ID)
      && (!IsDeduped(g[i].Kind()) ==> m[i] == i)
  }

  lemma UntouchedUpdate(g: Graph, m: seq<nat>, x: nat, t: nat)
    requires |g| == |m| <= MAX_NR_TYPES + 1 && RefsUntouched(g, m) && x < |m| && t < |m|
    requires IsPrimitive(g[x].Kind()) || IsComposite(g[x].Kind())
    ensures RefsUntouched(g, m[x := t])
  {
  }

  /** Merging hypotheses keeps the stage invariant. */
  lemma GrownTable(g: Graph, m0: seq<nat>, m: seq<nat>, tbl: Table, hash: BtfType -> int)
    requires |g| == |m0| == |m| && Grown(g, m0, m) && TableOk(g, m0, tbl, hash)
    ensures TableOk(g, m, tbl, hash)
  {
    forall h, c | h in tbl && c in tbl[h] ensures CandidateOk(g, m, hash, h, c) {
      assert CandidateOk(g, m0, hash, h, c);
    }
  }

  lemma GrownSelfMapped(g: Graph, m0: seq<nat>, m: seq<nat>, i: nat)
    requires |g| == |m0| == |m| && Grown(g, m0, m) && i < |m| && m[i] == i
    ensures m0[i] == i
  {
  }

  lemma GrownUntouched(g: Graph, m0: seq<nat>, m: seq<nat>)
    requires |g| == |m0| == |m| <= MAX_NR_TYPES + 1 && Grown(g, m0, m) && RefsUntouched(g, m0)
    ensures RefsUntouched(g, m)
  {
  }

  lemma GrownRoot(g: Graph, m0: seq<nat>, m: seq<nat>)
    requires WellFormed(g) && |g| == |m0| == |m| && Grown(g, m0, m) && m0[0] == 0
    ensures m[0] == 0
  {
  }

  lemma StageGrown(g: Graph, m0: seq<nat>, m: seq<nat>, tbl: Table, hash: BtfType -> int, noFwd: bool)
    requires WellFormed(g) && StageOk(g, g, m0, tbl, hash, noFwd) && |m| == |m0|
    requires Grown(g, m0, m) && Forest(m) && LinksOk(g, m) && (Meant(g, noFwd) ==> SoundMap(View(g, noFwd), m))
    requires RefsUntouched(g, m0)
    ensures StageOk(g, g, m, tbl, hash, noFwd) && RefsUntouched(g, m)
  {
    hide WellFormed, Forest, LinksOk, TableOk, Redirected, SoundMap, Grown, RefsUntouched;
    GrownTable(g, m0, m, tbl, hash);
    GrownUntouched(g, m0, m);
    GrownRoot(g, m0, m);
    forall i | 0 <= i < |m| && m[i] == i ensures m0[i] == i { GrownSelfMapped(g, m0, m, i); }
  }

  /** No closed hypothetical map settles the pair: the two types are not equivalent as far as the check can see. */
  ghost predicate NoWitness(x: Context, cand: nat, canon: nat)
    requires ContextOk(x) && cand < |x.g| && canon < |x.g|
  {
    forall w :: Closed(x, w) && |w| == |x.g| ==> !Covered(x, w, cand, canon)
  }

  /** A check started from the empty map decides whether a witness exists. */
  lemma CheckedFromEmpty(x: Context, h0: seq<nat>, h: seq<nat>, cand: nat, canon: nat, r: int)
    requires ContextOk(x) && HypotOk(x.g, h0) && HypotOk(x.g, h) && cand < |x.g| && canon < |x.g|
    requires forall c :: 0 <= c < |h0| ==> h0[c] == UNPROCESSED_ID
    requires EquivPost(x, h0, h, cand, canon, r)
    requires Meant(x.g, x.noFwd) ==> SoundMap(View(x.g, x.noFwd), x.m)
    ensures r != 1 ==> NoWitness(x, cand, canon)
    ensures r == 1 ==> Closed(x, h) && Covered(x, h, cand, canon) && PairsChecked(x, h)
    ensures r == 1 && Meant(x.g, x.noFwd) ==> Bisimilar(View(x.g, x.noFwd), cand, View(x.g, x.noFwd), canon)
  {
    if r == 1 {
      forall c | 0 <= c < |h| && h[c] <= MAX_NR_TYPES ensures ClosedAt(x, h, c) { }
      assert Closed(x, h);
      if Meant(x.g, x.noFwd) {
        assert Witness(x, h0, h, cand, canon);
        WitnessBisimilar(x, h0, h, cand, canon);
      }
      forall c | 0 <= c < |h| && h[c] <= MAX_NR_TYPES ensures PairChecked(x.g, x.noFwd, h[c], c) {
        assert ClosedAt(x, h, c);
        if Meant(x.g, x.noFwd) { ClosedIsBisimulation(x, h, c); }
      }
    } else {
      forall w | Closed(x, w) && |w| == |x.g| ensures !Covered(x, w, cand, canon) {
        if Covered(x, w, cand, canon) {
          assert Witness(x, h0, w, cand, canon);
        }
      }
    }
  }

  ghost predicate StillMapped(m0: seq<nat>, m: seq<nat>) {
    |m0| == |m| && forall i :: 0 <= i < |m| && IsMapped(m0, i) ==> IsMapped(m, i)
  }

  lemma CandidateFacts(g: Graph, m: seq<nat>, tbl: Table, hash: BtfType -> int, h: int, c: nat)
    requires |g| == |m| && TableOk(g, m, tbl, hash) && InTable(tbl, h, c)
    ensures CandidateOk(g, m, hash, h, c)
  {
  }

  lemma SelfMappedAvoids(m: seq<nat>, t: nat, x: nat)
    requires Forest(m) && t < |m| && m[t] == t && t != x
    ensures !Reaches(m, t, x)
  {
  }

  /** The record equality used for each kind that is deduplicated by record. */
  predicate EqualRecord(t: BtfType, cand: BtfType) {
    match t.Kind()
    case Int => EqualInt(t, cand)
    case Enum => EqualEnum(t, cand)
    case Fwd | Typedef | Ptr | Const | Volatile | Restrict | Func => EqualCommon(t, cand)
    case Array => EqualArray(t, cand)
    case FuncProto => EqualFnProto(t, cand)
    case Unkn | Struct | Union | Var | Datasec => false
  }

  /** The per-kind equalities are exactly equality of records. */
  lemma EqualRecordExact(t: BtfType, cand: BtfType)
    requires RecordOk(t) && RecordOk(cand) && (IsPrimitive(t.Kind()) || IsReference(t.Kind()))
    ensures EqualRecord(t, cand) <==> t == cand
  {
    if t.info == cand.info && (t.Kind() == Fwd || IsSingleRef(t.Kind())) {
      assert t.refs == [t.refs[0]] && cand.refs == [cand.refs[0]];
    }
  }

  /** Links lead to mapped types, or to `x`. */
  ghost predicate LinksMapped(m: seq<nat>, x: nat) {
    forall i :: 0 <= i < |m| && IsMapped(m, i) ==> m[i] < |m| && (IsMapped(m, m[i]) || m[i] == x)
  }

  /** A path of mapped types never meets an unmapped one. */
  lemma {:induction false} MappedAvoids(m: seq<nat>, c: nat, x: nat)
    requires Forest(m) && LinksMapped(m, |m|) && c < |m| && x < |m| && IsMapped(m, c) && !IsMapped(m, x)
    ensures !Reaches(m, c, x)
    decreases RankOf(m)[c]
  {
    if !IsRoot(m, c) { MappedAvoids(m, m[c], x); }
  }

  lemma RecordFacts(g: Graph, i: nat)
    requires WellFormed(g) && i < |g|
    ensures RecordOk(g[i]) && RefsBelow(g[i], |g|)
  {
  }

  lemma UnmappedAvoids(m: seq<nat>, t: nat, x: nat)
    requires Forest(m) && t < |m| && !IsMapped(m, t) && t != x
    ensures !Reaches(m, t, x)
  {
  }

  /** Unmapped types other than `x` are left alone. */
  ghost predicate OthersUntouched(m0: seq<nat>, m: seq<nat>, x: nat) {
    |m0| == |m| && forall i :: 0 <= i < |m| && i != x && !IsMapped(m0, i) ==> m[i] == m0[i]
  }

  /** What processing primitive type `x` may do to the map; links to `x` may exist before it is mapped itself. */
  ghost predicate PrimStep(m0: seq<nat>, m: seq<nat>, x: nat) {
    StillMapped(m0, m) && OthersUntouched(m0, m, x) && LinksMapped(m, x)
  }

  lemma PrimStart(m: seq<nat>, x: nat)
    requires LinksMapped(m, |m|)
    ensures PrimStep(m, m, x)
  {
  }

  lemma PrimRedirected(m0: seq<nat>, m: seq<nat>, x: nat, c: nat)
    requires PrimStep(m0, m, x) && c < |m| && x < |m| <= MAX_NR_TYPES + 1 && c != x && IsMapped(m, c)
    ensures PrimStep(m0, m[c := x], x)
  {
    forall i | 0 <= i < |m| && i != x && !IsMapped(m0, i) ensures m[c := x][i] == m0[i] {
      assert m[i] == m0[i];
    }
  }

  lemma PrimSettled(m0: seq<nat>, m: seq<nat>, x: nat, t: nat)
    requires PrimStep(m0, m, x) && t < |m| && x < |m| <= MAX_NR_TYPES + 1 && (t == x || IsMapped(m, t))
    ensures PrimStep(m0, m[x := t], x) && LinksMapped(m[x := t], |m|)
  {
  }

  /** A forward declaration of an enum may be linked to what it is compatible with. */
  lemma CompatLinks(t: BtfType, u: BtfType)
    requires u.Kind() == Enum && CompatEnum(u, t) && !EqualEnum(u, t) && !IsEnumFwd(u)
    ensures IsEnumFwd(t) && LinkOk(t, u)
  {
  }

  lemma EnumLinks(g: Graph, noFwd: bool, x: nat, t: nat)
    requires WellFormed(g) && x < |g| && t < |g| && !noFwd && g[x].Kind() == Enum
    requires g[x] == g[t] || (CompatEnum(g[x], g[t]) && IsEnumFwd(g[x]))
    ensures LinkOk(g[x], g[t]) && (Meant(g, noFwd) ==> Bisimilar(View(g, noFwd), x, View(g, noFwd), t))
  {
    hide View, Bisimilar, WellFormed;
    if Meant(g, noFwd) { LinkMeans(g, noFwd, x, t); }
  }

  lemma NotYetInTable(g: Graph, m: seq<nat>, tbl: Table, hash: BtfType -> int, x: nat)
    requires |g| == |m| && TableOk(g, m, tbl, hash) && x < |m| && !IsMapped(m, x)
    ensures forall h :: !InTable(tbl, h, x)
  {
    assert forall h :: InTable(tbl, h, x) ==> CandidateOk(g, m, hash, h, x);
  }

  // ----- the reference pass -----

  /** Overwriting one reference of a reference type. */
  lemma RewriteWellFormed(g: Graph, x: nat, j: nat, id: nat)
    requires WellFormed(g) && x < |g| && j < |g[x].refs| && id < |g|
    ensures WellFormed(g[x := g[x].(refs := g[x].refs[j := id])])
  {
    var g' := g[x := g[x].(refs := g[x].refs[j := id])];
    forall i | 0 <= i < |g'| ensures RecordOk(g'[i]) && RefsBelow(g'[i], |g'|) {
      assert RecordOk(g[i]) && RefsBelow(g[i], |g|);
    }
  }

  lemma RewriteTable(g: Graph, m: seq<nat>, tbl: Table, hash: BtfType -> int, noFwd: bool, x: nat, t: BtfType)
    requires |g| == |m| && TableOk(g, m, tbl, hash) && Indexed(g, m, tbl, hash) && UniqueRecords(g, m) && LinksOk(g, m)
    requires noFwd || EnumsApart(g, m, hash)
    requires x < |m| && !IsMapped(m, x) && IsReference(t.Kind()) && Label(t) == Label(g[x]) && |m| <= MAX_NR_TYPES + 1
    ensures TableOk(g[x := t], m, tbl, hash) && Indexed(g[x := t], m, tbl, hash) && UniqueRecords(g[x := t], m) && LinksOk(g[x := t], m)
    ensures noFwd || EnumsApart(g[x := t], m, hash)
  {
    var g' := g[x := t];
    assert Label(t).Kind() == t.Kind() == g[x].Kind() && Label(t).nameOff == t.nameOff == g[x].nameOff;
    forall h, c | h in tbl && c in tbl[h] ensures CandidateOk(g', m, hash, h, c) {
      assert CandidateOk(g, m, hash, h, c);
    }
  }

  /** Overwriting one reference of a reference type that is not mapped yet. */
  lemma StageRewrite(g0: Graph, g: Graph, m: seq<nat>, tbl: Table, hash: BtfType -> int, noFwd: bool,
                     x: nat, j: nat, id: nat)
    requires WellFormed(g0) && StageOk(g0, g, m, tbl, hash, noFwd) && x < |m| && j < |g[x].refs| && id < |m|
    requires !IsMapped(m, x) && IsReference(g[x].Kind()) && g[x].refs[j] < |m|
    requires Meant(g0, noFwd) ==> Bisimilar(View(g0, noFwd), g[x].refs[j], View(g0, noFwd), id)
    ensures StageOk(g0, g[x := g[x].(refs := g[x].refs[j := id])], m, tbl, hash, noFwd)
  {
    hide View, Bisimilar, WellFormed, TableOk, Indexed, UniqueRecords, EnumsApart, LinksOk, Redirected, SoundMap, Forest, Meant;
    var g' := g[x := g[x].(refs := g[x].refs[j := id])];
    RewriteWellFormed(g, x, j, id);
    RewriteTable(g, m, tbl, hash, noFwd, x, g'[x]);
    if Meant(g0, noFwd) {
      ViewRewrite(g, noFwd, x, g'[x]);
      assert View(g, noFwd)[x] == g[x];
      RedirectOne(View(g0, noFwd), View(g, noFwd), x, j, id);
    }
  }

  /** Marking an unmapped type as in progress. */
  lemma StageMark(g0: Graph, g: Graph, m: seq<nat>, tbl: Table, hash: BtfType -> int, noFwd: bool, x: nat)
    requires WellFormed(g0) && StageOk(g0, g, m, tbl, hash, noFwd) && x < |m| && !IsMapped(m, x)
    ensures StageOk(g0, g, m[x := IN_PROGRESS_ID], tbl, hash, noFwd)
  {
    hide ViewOk, View, Meant, WellFormed, Forest, Bisimilar;
    RootKeepsForest(m, x, IN_PROGRESS_ID);
    if Meant(g0, noFwd) { ViewUpdate(View(g0, noFwd), View(g, noFwd), m, x, IN_PROGRESS_ID); }
    assert TableOk(g, m[x := IN_PROGRESS_ID], tbl, hash) by {
      forall h, c | h in tbl && c in tbl[h] ensures CandidateOk(g, m[x := IN_PROGRESS_ID], hash, h, c) {
        assert CandidateOk(g, m, hash, h, c);
      }
    }
  }

  /** `rank` decreases along every reference from a reference type to a reference type. */
  ghost predicate RefRanked(g: Graph, rank: seq<nat>)
    requires WellFormed(g)
  {
    |rank| == |g| &&
    forall i, j :: 0 <= i < |g| && IsReference(g[i].Kind()) && 0 <= j < |g[i].refs| && IsReference(g[g[i].refs[j]].Kind()) ==>
      rank[g[i].refs[j]] < rank[i]
  }

  /** Every cycle of the type graph passes through a type that is not a reference type. */
  ghost predicate RefAcyclic(g: Graph)
    requires WellFormed(g)
  {
    exists rank: seq<nat> :: |rank| == |g| && RefRanked(g, rank)
  }

  /** Finished reference types refer to reference types finished earlier. */
  ghost predicate DoneRanked(g: Graph, m: seq<nat>, rank: seq<nat>)
    requires WellFormed(g) && |m| == |g|
  {
    |rank| == |g| &&
    forall i :: 0 <= i < |g| && IsReference(g[i].Kind()) && IsMapped(m, i) ==> DoneAfterRefs(g, m, rank, i)
  }

  ghost predicate DoneAfterRefs(g: Graph, m: seq<nat>, rank: seq<nat>, i: nat)
    requires WellFormed(g) && |m| == |g| == |rank| && i < |g|
  {
    forall j :: 0 <= j < |g[i].refs| && IsReference(g[g[i].refs[j]].Kind()) ==>
      IsMapped(m, g[i].refs[j]) && rank[g[i].refs[j]] < rank[i]
  }

  ghost function MaxRank(rank: seq<nat>): (r: nat)
    ensures forall i :: 0 <= i < |rank| ==> rank[i] <= r
  {
    if rank == [] then 0
    else
      var r := MaxRank(rank[1..]);
      assert forall i :: 1 <= i < |rank| ==> rank[i] == rank[1..][i - 1];
      if rank[0] > r then rank[0] else r
  }

  /** References of unfinished types do not matter. */
  lemma DoneRankedRewrite(g: Graph, m: seq<nat>, rank: seq<nat>, x: nat, t: BtfType)
    requires WellFormed(g) && |m| == |g| && DoneRanked(g, m, rank) && x < |m| && !IsMapped(m, x) && t.Kind() == g[x].Kind()
    requires WellFormed(g[x := t])
    ensures DoneRanked(g[x := t], m, rank)
  {
    var g' := g[x := t];
    forall i | 0 <= i < |g'| && IsReference(g'[i].Kind()) && IsMapped(m, i) ensures DoneAfterRefs(g', m, rank, i) {
      assert DoneAfterRefs(g, m, rank, i);
    }
  }

  lemma DoneRankedStep(g: Graph, m: seq<nat>, rank: seq<nat>, x: nat, t: nat)
    requires WellFormed(g) && |m| == |g| && DoneRanked(g, m, rank) && x < |m| && t <= MAX_NR_TYPES && !IsMapped(m, x)
    requires forall j :: 0 <= j < |g[x].refs| ==> IsMapped(m, g[x].refs[j])
    ensures DoneRanked(g, m[x := t], rank[x := MaxRank(rank) + 1])
  {
    var m', rank' := m[x := t], rank[x := MaxRank(rank) + 1];
    forall i | 0 <= i < |g| && IsReference(g[i].Kind()) && IsMapped(m', i) ensures DoneAfterRefs(g, m', rank', i) {
      if i != x { assert DoneAfterRefs(g, m, rank, i); }
    }
  }

  /** Types other than reference types are mapped; unprocessed ones are as they were given. */
  ghost predicate RefsPending(g0: Graph, g: Graph, m: seq<nat>)
    requires |g0| == |g| == |m|
  {
    forall i :: 0 <= i < |g| ==>
      && Label(g[i]) == Label(g0[i]) && |g[i].refs| == |g0[i].refs|
      && (IsMapped(m, i) || (IsReference(g[i].Kind()) && m[i] in {UNPROCESSED_ID, IN_PROGRESS_ID}))
      && (m[i] == UNPROCESSED_ID || !IsReference(g[i].Kind()) ==> g[i] == g0[i])
  }

  /** Finished reference types refer to canonical types only. */
  ghost predicate RefsResolved(g: Graph, m: seq<nat>)
    requires WellFormed(g) && |m| == |g|
  {
    forall i :: 0 <= i < |g| && IsReference(g[i].Kind()) && IsMapped(m, i) ==> AllSelfMapped(m, g[i].refs)
  }

  ghost predicate AllSelfMapped(m: seq<nat>, ids: seq<nat>) {
    forall j :: 0 <= j < |ids| ==> ids[j] < |m| && m[ids[j]] == ids[j]
  }

  lemma AllSelfAreMapped(m: seq<nat>, ids: seq<nat>)
    requires |m| <= MAX_NR_TYPES + 1 && AllSelfMapped(m, ids)
    ensures forall j :: 0 <= j < |ids| ==> ids[j] < |m| && IsMapped(m, ids[j])
  {
  }

  /** Between calls, only unprocessed types (and `x`) change. */
  ghost predicate RefStep(g: Graph, m: seq<nat>, g': Graph, m': seq<nat>, x: nat) {
    && |g'| == |g| == |m| == |m'|
    && forall i :: 0 <= i < |m| && i != x && m[i] != UNPROCESSED_ID ==> m'[i] == m[i] && g'[i] == g[i]
  }

  ghost function Pending(m: seq<nat>): set<nat> {
    set i | 0 <= i < |m| && m[i] == UNPROCESSED_ID
  }

  /** Every type in progress ranks above `x`. */
  ghost predicate RanksAbove(m: seq<nat>, rank: seq<nat>, x: nat)
    requires |rank| == |m| && x < |m|
  {
    forall i :: 0 <= i < |m| && m[i] == IN_PROGRESS_ID ==> rank[x] < rank[i]
  }

  ghost predicate RanksAboveBut(m: seq<nat>, rank: seq<nat>, x: nat)
    requires |rank| == |m| && x < |m|
  {
    forall i :: 0 <= i < |m| && i != x && m[i] == IN_PROGRESS_ID ==> rank[x] < rank[i]
  }

  ghost predicate NoNewProgress(m: seq<nat>, m': seq<nat>) {
    |m| == |m'| && forall i :: 0 <= i < |m| && m'[i] == IN_PROGRESS_ID ==> m[i] == IN_PROGRESS_ID
  }

  lemma {:induction false} MappedRoot(m: seq<nat>, i: nat)
    requires Forest(m) && LinksMapped(m, |m|) && i < |m| && IsMapped(m, i)
    ensures m[Root(m, i)] == Root(m, i)
    decreases RankOf(m)[i]
  {
    if !IsRoot(m, i) { MappedRoot(m, m[i]); }
  }

  /** A reference to an unfinished type goes down in rank, below everything in progress. */
  lemma ChildRanksBelow(g: Graph, m: seq<nat>, rank: seq<nat>, x: nat, j: nat)
    requires WellFormed(g) && |m| == |g| && x < |g| && j < |g[x].refs|
    requires IsReference(g[x].Kind()) && IsReference(g[g[x].refs[j]].Kind())
    requires RefRanked(g, rank) && RanksAboveBut(m, rank, x)
    ensures RanksAbove(m, rank, g[x].refs[j])
  {
  }

  /** Basic facts about a type during the reference pass. */
  lemma PendingFacts(g0: Graph, g: Graph, m: seq<nat>, i: nat)
    requires |g0| == |g| == |m| && RefsPending(g0, g, m) && i < |g|
    ensures Label(g[i]) == Label(g0[i]) && |g[i].refs| == |g0[i].refs| && g[i].Kind() == g0[i].Kind()
    ensures IsMapped(m, i) || (IsReference(g[i].Kind()) && m[i] in {UNPROCESSED_ID, IN_PROGRESS_ID})
    ensures m[i] == UNPROCESSED_ID ==> g[i] == g0[i]
  {
    assert Label(g[i]).Kind() == g[i].Kind() && Label(g0[i]).Kind() == g0[i].Kind();
  }

  lemma LinksMappedUpdate(m: seq<nat>, x: nat, v: nat)
    requires LinksMapped(m, |m|) && x < |m| && !IsMapped(m, x)
    requires v > MAX_NR_TYPES || v == x || (v < |m| && m[v] == v)
    ensures LinksMapped(m[x := v], |m|)
  {
    var m' := m[x := v];
    forall i | 0 <= i < |m'| && IsMapped(m', i) ensures m'[i] < |m'| && IsMapped(m', m'[i]) {
      if i != x { assert IsMapped(m, i) && m[i] < |m|; }
    }
  }

  lemma ResolvedUpdate(g: Graph, m: seq<nat>, x: nat, v: nat)
    requires WellFormed(g) && |m| == |g| <= MAX_NR_TYPES + 1 && RefsResolved(g, m) && x < |m| && !IsMapped(m, x)
    requires v > MAX_NR_TYPES || AllSelfMapped(m, g[x].refs)
    ensures RefsResolved(g, m[x := v])
  {
    var m' := m[x := v];
    forall i | 0 <= i < |g| && IsReference(g[i].Kind()) && IsMapped(m', i) ensures AllSelfMapped(m', g[i].refs) {
      assert AllSelfMapped(m, g[i].refs);
    }
  }

  lemma DoneRankedMark(g: Graph, m: seq<nat>, rank: seq<nat>, x: nat, v: nat)
    requires WellFormed(g) && |m| == |g| && DoneRanked(g, m, rank) && x < |m| && v > MAX_NR_TYPES && !IsMapped(m, x)
    ensures DoneRanked(g, m[x := v], rank)
  {
    forall i | 0 <= i < |g| && IsReference(g[i].Kind()) && IsMapped(m[x := v], i) ensures DoneAfterRefs(g, m[x := v], rank, i) {
      assert DoneAfterRefs(g, m, rank, i);
    }
  }

  lemma PendingUpdate(g0: Graph, g: Graph, m: seq<nat>, x: nat, v: nat)
    requires |g0| == |g| == |m| && RefsPending(g0, g, m) && x < |m| && !IsMapped(m, x) && v != UNPROCESSED_ID
    requires v <= MAX_NR_TYPES || v == IN_PROGRESS_ID
    ensures RefsPending(g0, g, m[x := v])
  {
  }

  lemma RewritePending(g0: Graph, g: Graph, m: seq<nat>, x: nat, j: nat, id: nat)
    requires WellFormed(g) && |g0| == |g| == |m| && x < |m| && m[x] == IN_PROGRESS_ID && j < |g[x].refs| && id < |m|
    requires WellFormed(g[x := g[x].(refs := g[x].refs[j := id])])
    requires RefsPending(g0, g, m) && RefsResolved(g, m) && IsReference(g[x].Kind())
    ensures RefsPending(g0, g[x := g[x].(refs := g[x].refs[j := id])], m)
    ensures RefsResolved(g[x := g[x].(refs := g[x].refs[j := id])], m)
  {
  }

  /** The first `k` references of `x` visited are canonical, the others are as given; arrays are visited last to first. */
  ghost predicate RefsVisited(g0: Graph, g: Graph, m: seq<nat>, x: nat, backwards: bool, k: nat)
    requires WellFormed(g0) && |g0| == |g| == |m| && x < |g|
  {
    && |g[x].refs| == |g0[x].refs|
    && forall j :: 0 <= j < |g[x].refs| ==>
         if (if backwards then |g[x].refs| - 1 - j else j) < k
         then IsMapped(m, g0[x].refs[j]) && g[x].refs[j] < |m| && m[g[x].refs[j]] == g[x].refs[j]
         else g[x].refs[j] == g0[x].refs[j]
  }

  function VisitIndex(n: nat, backwards: bool, k: nat): (j: nat)
    requires k < n
    ensures j < n
  {
    if backwards then n - 1 - k else k
  }

  lemma VisitStart(g0: Graph, g: Graph, m: seq<nat>, x: nat, backwards: bool)
    requires WellFormed(g0) && |g0| == |g| == |m| && x < |g| && g[x] == g0[x]
    ensures RefsVisited(g0, g, m, x, backwards, 0)
    ensures RefStep(g, m, g, m, x) && NoNewProgress(m, m)
  {
  }

  lemma VisitFacts(g0: Graph, g: Graph, m: seq<nat>, x: nat, backwards: bool, k: nat)
    requires WellFormed(g0) && |g0| == |g| == |m| && x < |g| && k < |g[x].refs|
    requires RefsVisited(g0, g, m, x, backwards, k)
    ensures |g0[x].refs| == |g[x].refs|
    ensures var j := VisitIndex(|g[x].refs|, backwards, k); g[x].refs[j] == g0[x].refs[j] < |g|
  {
    assert RefsBelow(g0[x], |g0|);
  }

  /** One more reference visited: its type is finished, and the reference is replaced by the canonical type. */
  lemma VisitStep(g0: Graph, g: Graph, m: seq<nat>, g1: Graph, m1: seq<nat>, x: nat, backwards: bool, k: nat, id: nat)
    requires WellFormed(g0) && |g0| == |g| == |m| <= MAX_NR_TYPES + 1 && x < |g| && k < |g[x].refs| && m[x] == IN_PROGRESS_ID
    requires RefsVisited(g0, g, m, x, backwards, k) && RefStep(g, m, g1, m1, |m|)
    requires |g0[x].refs| == |g[x].refs|
    requires var j := VisitIndex(|g[x].refs|, backwards, k);
             g0[x].refs[j] < |m1| && IsMapped(m1, g0[x].refs[j]) && id < |m1| && m1[id] == id
    ensures g1[x] == g[x] && m1[x] == m[x]
    ensures var j := VisitIndex(|g[x].refs|, backwards, k);
            RefsVisited(g0, g1[x := g1[x].(refs := g1[x].refs[j := id])], m1, x, backwards, k + 1)
  {
    var j := VisitIndex(|g[x].refs|, backwards, k);
    var g2 := g1[x := g1[x].(refs := g1[x].refs[j := id])];
    assert RefsBelow(g0[x], |g0|);
    forall i | 0 <= i < |g2[x].refs|
      ensures if (if backwards then |g2[x].refs| - 1 - i else i) < k + 1
              then IsMapped(m1, g0[x].refs[i]) && g2[x].refs[i] < |m1| && m1[g2[x].refs[i]] == g2[x].refs[i]
              else g2[x].refs[i] == g0[x].refs[i]
    {
      if i != j { assert g2[x].refs[i] == g[x].refs[i]; }
    }
  }

  lemma VisitDone(g0: Graph, g: Graph, m: seq<nat>, x: nat, backwards: bool)
    requires WellFormed(g0) && |g0| == |g| == |m| && x < |g|
    requires RefsVisited(g0, g, m, x, backwards, |g[x].refs|)
    ensures AllSelfMapped(m, g[x].refs)
    ensures forall j :: 0 <= j < |g0[x].refs| ==> g0[x].refs[j] < |m| && IsMapped(m, g0[x].refs[j])
  {
    assert RefsBelow(g0[x], |g0|);
  }

  lemma StepTrans(g: Graph, m: seq<nat>, g1: Graph, m1: seq<nat>, g2: Graph, m2: seq<nat>, x: nat)
    requires RefStep(g, m, g1, m1, x) && RefStep(g1, m1, g2, m2, |m|) && x < |m| && m1[x] == IN_PROGRESS_ID
    ensures RefStep(g, m, g2, m2, x) && m2[x] == IN_PROGRESS_ID
    ensures Pending(m2) <= Pending(m1)
  {
  }

  lemma StepRewrite(g: Graph, m: seq<nat>, g1: Graph, m1: seq<nat>, x: nat, t: BtfType)
    requires RefStep(g, m, g1, m1, x) && x < |m|
    ensures RefStep(g, m, g1[x := t], m1, x)
  {
  }

  /** What a successful visit of one reference adds up to. */
  lemma RanksKept(g0: Graph, m0: seq<nat>, m: seq<nat>, rank: seq<nat>, x: nat, j: nat)
    requires WellFormed(g0) && |m0| == |m| == |g0| && x < |g0| && j < |g0[x].refs| && g0[x].refs[j] < |m|
    requires IsReference(g0[x].Kind()) && IsReference(g0[g0[x].refs[j]].Kind())
    requires NoNewProgress(m0, m) && RefRanked(g0, rank) && RanksAboveBut(m0, rank, x)
    ensures RanksAbove(m, rank, g0[x].refs[j])
  {
    assert RanksAboveBut(m, rank, x);
    ChildRanksBelow(g0, m, rank, x, j);
  }

  lemma ProgressTrans(m0: seq<nat>, m1: seq<nat>, m2: seq<nat>)
    requires NoNewProgress(m0, m1) && NoNewProgress(m1, m2)
    ensures NoNewProgress(m0, m2)
  {
  }

  /** With every type finished, the finishing order witnesses that reference types form no cycle. */
  lemma AllDoneRanked(g: Graph, m: seq<nat>, rank: seq<nat>)
    requires WellFormed(g) && |m| == |g| && DoneRanked(g, m, rank)
    requires forall i :: 0 <= i < |m| ==> IsMapped(m, i)
    ensures |rank| == |g| && RefRanked(g, rank)
  {
    forall i, j | 0 <= i < |g| && IsReference(g[i].Kind()) && 0 <= j < |g[i].refs| && IsReference(g[g[i].refs[j]].Kind())
      ensures rank[g[i].refs[j]] < rank[i]
    {
      assert IsMapped(m, i) && DoneAfterRefs(g, m, rank, i);
    }
  }

  // ----- compaction and remapping -----

  /** The canonical types among ids 1 to k - 1, in order. */
  ghost function Kept(m: seq<nat>, k: nat): (r: seq<nat>)
    requires k <= |m|
    ensures |r| < k || k == 0
    ensures forall p :: 0 <= p < |r| ==> 0 < r[p] < k && m[r[p]] == r[p]
  {
    if k <= 1 then [] else Kept(m, k - 1) + if m[k - 1] == k - 1 then [k - 1] else []
  }

  lemma {:induction false} KeptPrefix(m: seq<nat>, j: nat, k: nat)
    requires j <= k <= |m|
    ensures Kept(m, j) <= Kept(m, k)
    decreases k
  {
    if j < k && k > 1 { KeptPrefix(m, j, k - 1); }
  }

  /** A canonical type sits at its own position among the kept ones. */
  lemma KeptAt(m: seq<nat>, i: nat)
    requires 0 < i < |m| && m[i] == i
    ensures |Kept(m, i)| < |Kept(m, |m|)| && Kept(m, |m|)[|Kept(m, i)|] == i
  {
    KeptPrefix(m, i + 1, |m|);
    assert Kept(m, i + 1) == Kept(m, i) + [i];
  }

  lemma KeptOrder(m: seq<nat>, i: nat, j: nat)
    requires 0 < i < j < |m| && m[i] == i && m[j] == j
    ensures |Kept(m, i)| < |Kept(m, j)|
  {
    KeptPrefix(m, i + 1, j);
    assert Kept(m, i + 1) == Kept(m, i) + [i];
  }

  /** The id a canonical type gets in the compacted section. */
  ghost function NewId(m: seq<nat>, c: nat): nat
    requires c < |m|
  {
    if c == 0 then 0 else |Kept(m, c)| + 1
  }

  /** hypotMap as compaction leaves it. */
  ghost predicate CompactMap(m: seq<nat>, h: seq<nat>, k: nat) {
    && |h| == |m|
    && k <= |m|
    && forall i :: 0 <= i < |m| ==> h[i] == if i < k && m[i] == i then NewId(m, i) else UNPROCESSED_ID
  }

  /** Ids 1 to n' hold the first canonical types' records, in order. */
  ghost predicate CompactedTypes(g: Graph, m: seq<nat>, out: Graph, k: nat) {
    && |out| == |g| == |m|
    && k <= |m|
    && |out| > 0 && out[0] == g[0]
    && (forall p :: 0 <= p < |Kept(m, k)| ==> out[p + 1] == g[Kept(m, k)[p]])
    && (forall i :: k <= i < |g| ==> out[i] == g[i])
  }

  /** Where the id of an input type ends up: the new id of its canonical type. */
  ghost function FinalId(m: seq<nat>, i: nat): nat
    requires Forest(m) && i < |m|
  {
    NewId(m, Root(m, i))
  }

  ghost predicate RemappedRecord(m: seq<nat>, t: BtfType, t': BtfType)
    requires Forest(m) && RefsBelow(t, |m|)
  {
    && Label(t') == Label(t) && |t'.refs| == |t.refs|
    && forall j :: 0 <= j < |t.refs| ==> t'.refs[j] == FinalId(m, t.refs[j])
  }

  /** The output: each canonical record at its new id, referring to new ids. */
  ghost predicate Collapsed(g: Graph, m: seq<nat>, out: Graph)
    requires WellFormed(g) && |m| == |g| && Forest(m)
  {
    && |out| == |Kept(m, |m|)| + 1
    && out[0] == g[0]
    && forall p :: 0 <= p < |Kept(m, |m|)| ==>
         RefsBelow(g[Kept(m, |m|)[p]], |m|) && RemappedRecord(m, g[Kept(m, |m|)[p]], out[p + 1])
  }

  lemma FinalIdBelow(m: seq<nat>, i: nat)
    requires Forest(m) && i < |m| && m[Root(m, i)] == Root(m, i)
    ensures FinalId(m, i) < |Kept(m, |m|)| + 1
  {
    if Root(m, i) != 0 { KeptAt(m, Root(m, i)); }
  }

  /** The output record of an input type is its canonical type's record, remapped. */
  lemma CollapsedAt(g: Graph, m: seq<nat>, out: Graph, i: nat)
    requires WellFormed(g) && |m| == |g| && Forest(m) && Collapsed(g, m, out) && i < |m|
    requires m[Root(m, i)] == Root(m, i)
    ensures FinalId(m, i) < |out|
    ensures RefsBelow(g[Root(m, i)], |m|) && RemappedRecord(m, g[Root(m, i)], out[FinalId(m, i)])
  {
    var c := Root(m, i);
    assert RecordOk(g[c]) && RefsBelow(g[c], |g|);
    if c != 0 {
      KeptAt(m, c);
      var p := |Kept(m, c)|;
      assert RemappedRecord(m, g[Kept(m, |m|)[p]], out[p + 1]);
    }
  }

  /** Every root is mapped to itself, as after a successful reference pass. */
  ghost predicate AllCanonical(m: seq<nat>) {
    Forest(m) && forall i :: 0 <= i < |m| ==> m[Root(m, i)] == Root(m, i)
  }

  lemma CollapsedWellFormed(g: Graph, m: seq<nat>, out: Graph)
    requires WellFormed(g) && |m| == |g| && AllCanonical(m) && Collapsed(g, m, out)
    ensures WellFormed(out)
  {
    assert RecordOk(g[0]);
    forall p | 0 < p < |out| ensures RecordOk(out[p]) && RefsBelow(out[p], |out|) && out[p].Kind() != Unkn {
      var t := g[Kept(m, |m|)[p - 1]];
      assert RecordOk(t) && RefsBelow(t, |m|) && t.Kind() != Unkn;
      assert out[(p - 1) + 1] == out[p] && RemappedRecord(m, t, out[p]);
      assert Label(t).Kind() == t.Kind() && Label(out[p]).Kind() == out[p].Kind();
      RecordOkLabel(t, out[p]);
      forall j | 0 <= j < |t.refs| ensures FinalId(m, t.refs[j]) < |out| { FinalIdBelow(m, t.refs[j]); }
    }
  }

  lemma RecordOkLabel(t: BtfType, t': BtfType)
    requires RecordOk(t) && Label(t) == Label(t') && |t.refs| == |t'.refs|
    ensures RecordOk(t')
  {
    assert t'.Kind() == Label(t').Kind() == Label(t).Kind() == t.Kind();
    assert t'.fields == Label(t').fields && t.fields == Label(t).fields;
    assert t'.size == Label(t').size && t.size == Label(t).size;
    assert t'.info == Label(t').info && t.info == Label(t).info;
  }

  /** One type of the unfolding: its references lead to types whose unfoldings agree. */
  lemma CollapsedHead(g0: Graph, g: Graph, m: seq<nat>, out: Graph, i: nat)
    requires WellFormed(g0) && Redirected(g0, g) && |m| == |g| && AllCanonical(m) && SoundMap(g0, m)
    requires Collapsed(g, m, out) && WellFormed(out) && i < |m| && FinalId(m, i) < |out|
    ensures var o, c := FinalId(m, i), Root(m, i);
      && c < |g| && Label(g0[i]) == Label(out[o]) && |g0[i].refs| == |out[o].refs| == |g[c].refs| == |g0[c].refs|
      && forall j :: 0 <= j < |g0[i].refs| ==>
           && g[c].refs[j] < |m| && FinalId(m, g[c].refs[j]) < |out| && out[o].refs[j] == FinalId(m, g[c].refs[j])
           && Bisimilar(g0, g0[i].refs[j], g0, g[c].refs[j])
  {
    var c := Root(m, i);
    SoundRoot(g0, m, i);
    BisimilarUnfold(g0, i, g0, c);
    CollapsedAt(g, m, out, i);
    assert RedirectedAt(g0, g, c);
    forall j | 0 <= j < |g0[i].refs|
      ensures g[c].refs[j] < |m| && FinalId(m, g[c].refs[j]) < |out| && Bisimilar(g0, g0[i].refs[j], g0, g[c].refs[j])
    {
      BisimilarTrans(g0, g0[i].refs[j], g0, g0[c].refs[j], g0, g[c].refs[j]);
      CollapsedAt(g, m, out, g[c].refs[j]);
    }
  }

  /** The input unfolds, to every depth, to the same tree as the output it is remapped to. */
  lemma {:induction false} CollapsedSame(k: nat, g0: Graph, g: Graph, m: seq<nat>, out: Graph, i: nat)
    requires WellFormed(g0) && Redirected(g0, g) && |m| == |g| && AllCanonical(m) && SoundMap(g0, m)
    requires Collapsed(g, m, out) && WellFormed(out) && i < |m| && FinalId(m, i) < |out|
    ensures SameToDepth(k, g0, i, out, FinalId(m, i))
    decreases k
  {
    if k > 0 {
      hide Redirected, AllCanonical, SoundMap, Collapsed, FinalId, Root;
      CollapsedHead(g0, g, m, out, i);
      var c, o := Root(m, i), FinalId(m, i);
      forall j | 0 <= j < |g0[i].refs| ensures SameToDepth(k - 1, g0, g0[i].refs[j], out, out[o].refs[j]) {
        var x := g[c].refs[j];
        CollapsedSame(k - 1, g0, g, m, out, x);
        SameToDepthTrans(k - 1, g0, g0[i].refs[j], g0, x, out, FinalId(m, x));
      }
    }
  }

  lemma CollapsedBisimilar(g0: Graph, g: Graph, m: seq<nat>, out: Graph, i: nat)
    requires WellFormed(g0) && Redirected(g0, g) && |m| == |g| && AllCanonical(m) && SoundMap(g0, m)
    requires Collapsed(g, m, out) && WellFormed(out) && i < |m|
    ensures FinalId(m, i) < |out| && Bisimilar(g0, i, out, FinalId(m, i))
  {
    CollapsedAt(g, m, out, i);
    forall k: nat ensures SameToDepth(k, g0, i, out, FinalId(m, i)) { CollapsedSame(k, g0, g, m, out, i); }
  }

  /** The output is collapsed in the view, too. */
  lemma CollapsedView(g: Graph, noFwd: bool, m: seq<nat>, out: Graph)
    requires WellFormed(g) && |m| == |g| && Forest(m) && Collapsed(g, m, out)
    ensures Collapsed(View(g, noFwd), m, View(out, noFwd))
  {
    assert |g| > 0;
    hide WellFormed, Forest, Kept, FinalId, Shown;
    var v, o := View(g, noFwd), View(out, noFwd);
    assert |o| == |Kept(m, |m|)| + 1 && o[0] == v[0];
    forall p | 0 <= p < |Kept(m, |m|)|
      ensures RefsBelow(v[Kept(m, |m|)[p]], |m|) && RemappedRecord(m, v[Kept(m, |m|)[p]], o[p + 1])
    {
      var t, t' := g[Kept(m, |m|)[p]], out[p + 1];
      assert RefsBelow(t, |m|) && RemappedRecord(m, t, t');
      ShownLabel(noFwd, t, t');
    }
  }

  lemma ShownLabel(noFwd: bool, t: BtfType, u: BtfType)
    requires Label(t) == Label(u)
    ensures Label(Shown(noFwd, t)) == Label(Shown(noFwd, u))
    ensures (Shown(noFwd, t).refs == t.refs && Shown(noFwd, u).refs == u.refs) || Shown(noFwd, t).refs == [] == Shown(noFwd, u).refs
  {
    assert Label(t).info == t.info && Label(u).info == u.info && Label(t).nameOff == t.nameOff && Label(u).nameOff == u.nameOff;
    assert Label(t).size == t.size && Label(u).size == u.size && Label(t).fields == t.fields && Label(u).fields == u.fields;
  }

  /** New ids tell canonical types apart. */
  lemma FinalIdInjective(m: seq<nat>, x: nat, y: nat)
    requires Forest(m) && x < |m| && y < |m| && m[x] == x && m[y] == y && x != y
    ensures FinalId(m, x) != FinalId(m, y)
  {
    if x == 0 || y == 0 {
    } else if x < y {
      KeptOrder(m, x, y);
    } else {
      KeptOrder(m, y, x);
    }
  }

  /** Forward declarations reference nothing, as the BTF format prescribes. */
  ghost predicate FwdsPlain(g: Graph) {
    forall i :: 0 <= i < |g| && g[i].Kind() == Fwd ==> g[i].refs == [0]
  }

  /** No two primitive or reference types of the output have the same record; forward declarations count if `fwds`. */
  ghost predicate NoDuplicates(out: Graph, fwds: bool) {
    forall p, q :: 0 < p < q < |out| && Counts(out[p].Kind(), fwds) ==> out[p] != out[q]
  }

  predicate Counts(k: Kind, fwds: bool) { (IsPrimitive(k) || IsReference(k)) && (k == Fwd ==> fwds) }

  lemma RemapInjective(m: seq<nat>, t: BtfType, u: BtfType, t': BtfType, u': BtfType)
    requires Forest(m) && RefsBelow(t, |m|) && RefsBelow(u, |m|)
    requires RemappedRecord(m, t, t') && RemappedRecord(m, u, u') && t' == u'
    requires AllSelfMapped(m, t.refs) && AllSelfMapped(m, u.refs)
    ensures t == u
  {
    forall j | 0 <= j < |t.refs| ensures t.refs[j] == u.refs[j] {
      if t.refs[j] != u.refs[j] { FinalIdInjective(m, t.refs[j], u.refs[j]); }
    }
    assert t.refs == u.refs;
    assert t == Label(t).(refs := t.refs) && u == Label(u).(refs := u.refs);
  }

  lemma CollapsedUnique(g: Graph, m: seq<nat>, out: Graph, fwds: bool)
    requires WellFormed(g) && |m| == |g| && m[0] == 0 && AllCanonical(m) && Collapsed(g, m, out)
    requires UniqueRecords(g, m) && RefsResolved(g, m) && (fwds ==> FwdsPlain(g))
    requires forall i :: 0 <= i < |m| ==> IsMapped(m, i)
    ensures NoDuplicates(out, fwds)
  {
    hide WellFormed, AllCanonical, Collapsed, UniqueRecords, RefsResolved, FwdsPlain;
    forall p, q | 0 < p < q < |out| && Counts(out[p].Kind(), fwds) ensures out[p] != out[q] {
      CollapsedPair(g, m, out, p, q, fwds);
    }
  }

  lemma CollapsedRecord(g: Graph, m: seq<nat>, out: Graph, p: nat)
    requires WellFormed(g) && |m| == |g| && Forest(m) && Collapsed(g, m, out) && 0 < p < |out|
    ensures |Kept(m, |m|)| == |out| - 1
    ensures var a := Kept(m, |m|)[p - 1];
      && 0 < a < |g| && m[a] == a && RefsBelow(g[a], |m|) && RemappedRecord(m, g[a], out[p]) && g[a].Kind() == out[p].Kind()
  {
    var a := Kept(m, |m|)[p - 1];
    assert RemappedRecord(m, g[a], out[(p - 1) + 1]);
    assert Label(out[p]).Kind() == out[p].Kind() && Label(g[a]).Kind() == g[a].Kind();
  }

  lemma CollapsedPair(g: Graph, m: seq<nat>, out: Graph, p: nat, q: nat, fwds: bool)
    requires WellFormed(g) && |m| == |g| && m[0] == 0 && AllCanonical(m) && Collapsed(g, m, out)
    requires UniqueRecords(g, m) && RefsResolved(g, m) && (fwds ==> FwdsPlain(g))
    requires forall i :: 0 <= i < |m| ==> IsMapped(m, i)
    requires 0 < p < q < |out| && Counts(out[p].Kind(), fwds)
    ensures out[p] != out[q]
  {
    hide WellFormed, Collapsed, RefsResolved, FwdsPlain, RemappedRecord, RefsBelow, AllSelfMapped, Forest, Kept;
    CollapsedRecord(g, m, out, p);
    CollapsedRecord(g, m, out, q);
    KeptIncreasing(m, |m|, p - 1, q - 1);
    var a, b := Kept(m, |m|)[p - 1], Kept(m, |m|)[q - 1];
    if out[p] == out[q] {
      CanonicalRefs(g, m, a, out[p]);
      CanonicalRefs(g, m, b, out[q]);
      RemapInjective(m, g[a], g[b], out[p], out[q]);
    }
  }

  /** Two forward declarations of the output are equal exactly if they say the same and their unused type fields lead to
      the same canonical type, which they always do when they are 0. */
  lemma FwdsEqualExactly(g: Graph, m: seq<nat>, out: Graph, p: nat, q: nat)
    requires WellFormed(g) && |m| == |g| && m[0] == 0 && AllCanonical(m) && Collapsed(g, m, out) && 0 < p < |out| && 0 < q < |out|
    requires out[p].Kind() == Fwd && out[q].Kind() == Fwd
    ensures |Kept(m, |m|)| == |out| - 1
    ensures var a, b := Kept(m, |m|)[p - 1], Kept(m, |m|)[q - 1];
      && |g[a].refs| == |g[b].refs| == 1 && g[a].refs[0] < |m| && g[b].refs[0] < |m|
      && (out[p] == out[q] <==> Label(g[a]) == Label(g[b]) && Root(m, g[a].refs[0]) == Root(m, g[b].refs[0]))
  {
    CollapsedRecord(g, m, out, p);
    CollapsedRecord(g, m, out, q);
    var a, b := Kept(m, |m|)[p - 1], Kept(m, |m|)[q - 1];
    assert RecordOk(g[a]) && RecordOk(g[b]);
    var x, y := g[a].refs[0], g[b].refs[0];
    hide Collapsed, Kept, AllCanonical, WellFormed;
    assert out[p].refs == [FinalId(m, x)] && out[q].refs == [FinalId(m, y)];
    assert out[p] == Label(out[p]).(refs := out[p].refs) && out[q] == Label(out[q]).(refs := out[q].refs);
    CanonicalRoot(m, x);
    CanonicalRoot(m, y);
    if Root(m, x) != Root(m, y) { FinalIdInjective(m, Root(m, x), Root(m, y)); }
  }

  lemma CanonicalRoot(m: seq<nat>, i: nat)
    requires AllCanonical(m) && i < |m|
    ensures m[Root(m, i)] == Root(m, i) && FinalId(m, Root(m, i)) == FinalId(m, i)
  {
    RootOfRoot(m, i);
  }

  /** Two equal integer types, and two forward declarations of one name whose type fields they are. */
  ghost predicate FwdsOfInts(g: Graph) {
    && |g| == 5 && g[0] == BtfType(0, Info(Unkn, 0, false, 0), 0, [], [])
    && g[1] == g[2] && g[1].Kind() == Int && g[1].refs == [] && |g[1].fields| == 1
    && g[3].Kind() == Fwd && g[3].refs == [1] && g[3].fields == [] && g[3].size == 0 && g[4] == g[3].(refs := [2])
  }

  /** Both forward declarations are kept, and end with equal records. */
  lemma FwdsCollapse(g: Graph)
    requires FwdsOfInts(g)
    ensures var m, out := [0, 1, 1, 3, 4], [g[0], g[1], g[3], g[3]];
      && WellFormed(g) && AllCanonical(m) && UniqueRecords(g, m) && RefsResolved(g, m) && Collapsed(g, m, out)
      && (forall k :: 0 <= k < |m| ==> IsMapped(m, k)) && !NoDuplicates(out, true)
  {
    var m, out := [0, 1, 1, 3, 4], [g[0], g[1], g[3], g[3]];
    assert WellFormed(g);
    assert Ranked(m, [0, 0, 1, 0, 0]);
    ExampleMap(m);
    assert UniqueRecords(g, m) && RefsResolved(g, m);
    assert !NoDuplicates(out, true) by { assert out[2] == out[3] && Counts(out[2].Kind(), true); }
    hide WellFormed, UniqueRecords, RefsResolved, NoDuplicates, AllCanonical, Kept, FinalId, Forest;
    ExampleCollapsed(g, m, out);
  }

  lemma ExampleCollapsed(g: Graph, m: seq<nat>, out: Graph)
    requires WellFormed(g) && FwdsOfInts(g) && m == [0, 1, 1, 3, 4] && out == [g[0], g[1], g[3], g[3]] && Forest(m)
    requires Kept(m, 5) == [1, 3, 4] && FinalId(m, 1) == 1 && FinalId(m, 2) == 1
    ensures Collapsed(g, m, out)
  {
    hide WellFormed, Forest, FinalId, Kept;
    assert RemappedRecord(m, g[1], out[1]) && RemappedRecord(m, g[3], out[2]) && RemappedRecord(m, g[4], out[3]);
  }

  lemma ExampleMap(m: seq<nat>)
    requires m == [0, 1, 1, 3, 4] && Forest(m)
    ensures AllCanonical(m) && Kept(m, 5) == [1, 3, 4] && FinalId(m, 1) == 1 && FinalId(m, 2) == 1
  {
    assert Root(m, 0) == 0 && Root(m, 1) == 1 && Root(m, 2) == 1 && Root(m, 3) == 3 && Root(m, 4) == 4;
    assert Kept(m, 1) == [] && Kept(m, 2) == [1] && Kept(m, 3) == [1] && Kept(m, 4) == [1, 3];
  }

  lemma CanonicalRefs(g: Graph, m: seq<nat>, a: nat, t': BtfType)
    requires WellFormed(g) && |m| == |g| && m[0] == 0 && Forest(m) && a < |g|
    requires RefsResolved(g, m) && IsMapped(m, a) && (t'.Kind() == Fwd ==> FwdsPlain(g))
    requires RemappedRecord(m, g[a], t') && (IsPrimitive(t'.Kind()) || IsReference(t'.Kind()))
    ensures AllSelfMapped(m, g[a].refs)
  {
    assert Label(t').Kind() == t'.Kind() && Label(g[a]).Kind() == g[a].Kind();
    assert RecordOk(g[a]);
  }

  lemma {:induction false} KeptIncreasing(m: seq<nat>, k: nat, p: nat, q: nat)
    requires k <= |m| && p < q < |Kept(m, k)|
    ensures Kept(m, k)[p] < Kept(m, k)[q]
    decreases k
  {
    if k > 1 && q < |Kept(m, k - 1)| { KeptIncreasing(m, k - 1, p, q); }
  }

  /** The finishing order ranks the output, too. */
  lemma CollapsedAcyclic(g: Graph, m: seq<nat>, out: Graph, rank: seq<nat>)
    requires WellFormed(g) && |m| == |g| == |rank| && m[0] == 0 && AllCanonical(m) && Collapsed(g, m, out) && WellFormed(out)
    requires RefsResolved(g, m) && RefRanked(g, rank) && forall i :: 0 <= i < |m| ==> IsMapped(m, i)
    ensures RefAcyclic(out)
  {
    assert |Kept(m, |m|)| == |out| - 1;
    hide Collapsed, Kept, AllCanonical, RefsResolved, RecordOk, RefRanked, IsReference;
    var rank' := OutRank(rank, Kept(m, |m|));
    forall p: nat, j: nat | RefPair(out, p, j) ensures rank'[out[p].refs[j]] < rank'[p] { CollapsedRanked(g, m, out, rank, p, j); }
    RankedPairs(out, rank');
  }

  ghost function OutRank(rank: seq<nat>, ids: seq<nat>): (r: seq<nat>)
    requires forall k :: 0 <= k < |ids| ==> ids[k] < |rank|
    ensures |r| == |ids| + 1 && forall p :: 0 < p < |r| ==> r[p] == rank[ids[p - 1]]
  {
    seq(|ids| + 1, p requires 0 <= p <= |ids| => if p == 0 then 0 else rank[ids[p - 1]])
  }

  /** The j-th reference of a reference type is one, too. */
  ghost predicate RefPair(g: Graph, p: nat, j: nat) {
    p < |g| && j < |g[p].refs| && g[p].refs[j] < |g| && IsReference(g[p].Kind()) && IsReference(g[g[p].refs[j]].Kind())
  }

  lemma RankedPairs(g: Graph, rank: seq<nat>)
    requires WellFormed(g) && |rank| == |g| && forall p: nat, j: nat :: RefPair(g, p, j) ==> rank[g[p].refs[j]] < rank[p]
    ensures RefAcyclic(g)
  {
    forall i, j | 0 <= i < |g| && IsReference(g[i].Kind()) && 0 <= j < |g[i].refs| && IsReference(g[g[i].refs[j]].Kind())
      ensures rank[g[i].refs[j]] < rank[i]
    {
      assert RefsBelow(g[i], |g|);
      assert RefPair(g, i, j);
    }
    assert RefRanked(g, rank);
  }

  lemma CollapsedRanked(g: Graph, m: seq<nat>, out: Graph, rank: seq<nat>, p: nat, j: nat)
    requires WellFormed(g) && |m| == |g| == |rank| && m[0] == 0 && AllCanonical(m) && Collapsed(g, m, out) && WellFormed(out)
    requires RefsResolved(g, m) && RefRanked(g, rank) && forall i :: 0 <= i < |m| ==> IsMapped(m, i)
    requires p < |out| && IsReference(out[p].Kind()) && j < |out[p].refs| && out[p].refs[j] < |out| && IsReference(out[out[p].refs[j]].Kind())
    ensures |Kept(m, |m|)| == |out| - 1 && p > 0 && out[p].refs[j] > 0
    ensures rank[Kept(m, |m|)[out[p].refs[j] - 1]] < rank[Kept(m, |m|)[p - 1]]
  {
    assert out[0].Kind() == Unkn;
    hide Collapsed, RefsResolved, Kept, WellFormed, AllCanonical, RefRanked, FinalId;
    AllCanonicalForest(m);
    CollapsedRecord(g, m, out, p);
    var a, q := Kept(m, |m|)[p - 1], out[p].refs[j];
    var c := g[a].refs[j];
    ResolvedAt(g, m, a);
    CanonicalNumber(m, c);
    CollapsedRecord(g, m, out, q);
    RankedAt(g, rank, a, j);
  }

  lemma AllCanonicalForest(m: seq<nat>)
    requires AllCanonical(m)
    ensures Forest(m)
  {
  }

  lemma ResolvedAt(g: Graph, m: seq<nat>, a: nat)
    requires WellFormed(g) && |m| == |g| && RefsResolved(g, m) && a < |g| && IsReference(g[a].Kind()) && IsMapped(m, a)
    ensures AllSelfMapped(m, g[a].refs)
  {
  }

  lemma CanonicalNumber(m: seq<nat>, c: nat)
    requires Forest(m) && c < |m| && m[c] == c
    ensures c == 0 ==> FinalId(m, c) == 0
    ensures c > 0 ==> 0 < FinalId(m, c) <= |Kept(m, |m|)| && Kept(m, |m|)[FinalId(m, c) - 1] == c
  {
    if c > 0 { KeptAt(m, c); }
  }

  lemma RankedAt(g: Graph, rank: seq<nat>, a: nat, j: nat)
    requires WellFormed(g) && RefRanked(g, rank) && a < |g| && IsReference(g[a].Kind()) && j < |g[a].refs| && g[a].refs[j] < |g|
    requires IsReference(g[g[a].refs[j]].Kind())
    ensures rank[g[a].refs[j]] < rank[a]
  {
  }

  /** Compaction appends the next canonical record; the slot it overwrites was read before. */
  lemma CompactInit(g: Graph, m: seq<nat>, h: seq<nat>)
    requires |g| == |m| == |h| > 0 && m[0] == 0 && h[0] == 0 && forall j :: 1 <= j < |h| ==> h[j] == UNPROCESSED_ID
    ensures CompactedTypes(g, m, g, 1) && CompactMap(m, h, 1) && |Kept(m, 1)| == 0
  {
  }

  lemma KeptStep(m: seq<nat>, k: nat)
    requires 0 < k < |m|
    ensures Kept(m, k + 1) == Kept(m, k) + if m[k] == k then [k] else []
    ensures |Kept(m, k)| + 1 <= k
  {
  }

  lemma CompactStep(g: Graph, m: seq<nat>, out: Graph, h: seq<nat>, k: nat)
    requires 0 < k < |m| && CompactedTypes(g, m, out, k) && CompactMap(m, h, k)
    ensures |Kept(m, k)| + 1 <= k
    ensures m[k] == k ==>
              && CompactedTypes(g, m, out[|Kept(m, k)| + 1 := out[k]], k + 1)
              && CompactMap(m, h[k := |Kept(m, k)| + 1], k + 1)
              && |Kept(m, k + 1)| == |Kept(m, k)| + 1
    ensures m[k] != k ==>
              && CompactedTypes(g, m, out, k + 1) && CompactMap(m, h, k + 1)
              && |Kept(m, k + 1)| == |Kept(m, k)|
  {
    hide CompactedTypes, CompactMap, Kept;
    KeptStep(m, k);
    CompactStepMap(m, h, k);
    CompactStepTypes(g, m, out, k);
  }

  lemma CompactStepMap(m: seq<nat>, h: seq<nat>, k: nat)
    requires 0 < k < |m| && CompactMap(m, h, k)
    ensures if m[k] == k then CompactMap(m, h[k := |Kept(m, k)| + 1], k + 1) else CompactMap(m, h, k + 1)
  {
    hide Kept;
    NewIdIs(m, k);
  }

  lemma NewIdIs(m: seq<nat>, k: nat)
    requires 0 < k < |m|
    ensures NewId(m, k) == |Kept(m, k)| + 1
  {
  }

  lemma CompactStepTypes(g: Graph, m: seq<nat>, out: Graph, k: nat)
    requires 0 < k < |m| && CompactedTypes(g, m, out, k)
    ensures if m[k] == k then |Kept(m, k)| + 1 < |out| && CompactedTypes(g, m, out[|Kept(m, k)| + 1 := out[k]], k + 1) else CompactedTypes(g, m, out, k + 1)
  {
    KeptStep(m, k);
    hide Kept;
    var n := |Kept(m, k)|;
    if m[k] == k {
      var out' := out[n + 1 := out[k]];
      var ids := Kept(m, k + 1);
      forall p | 0 <= p < |ids| ensures out'[p + 1] == g[ids[p]] {
        if p < n { assert ids[p] == Kept(m, k)[p]; }
      }
    }
  }

  /** The references of a record, the first `k` of them remapped. */
  ghost predicate RemappedUpTo(m: seq<nat>, t: BtfType, t': BtfType, k: nat)
    requires Forest(m) && RefsBelow(t, |m|) && k <= |t.refs|
  {
    && Label(t') == Label(t) && |t'.refs| == |t.refs|
    && forall j :: 0 <= j < |t.refs| ==> t'.refs[j] == if j < k then FinalId(m, t.refs[j]) else t.refs[j]
  }

  /** Ids below `k` remapped, the others as compaction left them. */
  ghost predicate RemappedTypes(g: Graph, m: seq<nat>, out: Graph, k: nat)
    requires WellFormed(g) && |m| == |g| && Forest(m)
  {
    && |out| == |g|
    && out[0] == g[0]
    && forall p :: 0 <= p < |Kept(m, |m|)| ==>
         && RefsBelow(g[Kept(m, |m|)[p]], |m|)
         && if p + 1 < k then RemappedRecord(m, g[Kept(m, |m|)[p]], out[p + 1]) else out[p + 1] == g[Kept(m, |m|)[p]]
  }

  lemma RemapStart(g: Graph, m: seq<nat>, out: Graph)
    requires WellFormed(g) && |m| == |g| && Forest(m) && CompactedTypes(g, m, out, |m|)
    ensures RemappedTypes(g, m, out, 1)
  {
    forall p | 0 <= p < |Kept(m, |m|)| ensures RefsBelow(g[Kept(m, |m|)[p]], |m|) {
      assert RefsBelow(g[Kept(m, |m|)[p]], |g|);
    }
  }

  lemma RemapStep(g: Graph, m: seq<nat>, out: Graph, k: nat, t': BtfType)
    requires WellFormed(g) && |m| == |g| && Forest(m) && 0 < k <= |Kept(m, |m|)| && RemappedTypes(g, m, out, k)
    requires RemappedUpTo(m, g[Kept(m, |m|)[k - 1]], t', |g[Kept(m, |m|)[k - 1]].refs|)
    ensures RemappedTypes(g, m, out[k := t'], k + 1)
  {
    var out' := out[k := t'];
    forall p | 0 <= p < |Kept(m, |m|)|
      ensures RefsBelow(g[Kept(m, |m|)[p]], |m|)
      ensures if p + 1 < k + 1 then RemappedRecord(m, g[Kept(m, |m|)[p]], out'[p + 1]) else out'[p + 1] == g[Kept(m, |m|)[p]]
    {
      assert RefsBelow(g[Kept(m, |m|)[p]], |m|);
    }
  }

  lemma RemapFinish(g: Graph, m: seq<nat>, out: Graph)
    requires WellFormed(g) && |m| == |g| && Forest(m) && RemappedTypes(g, m, out, |Kept(m, |m|)| + 1)
    ensures |Kept(m, |m|)| + 1 <= |out| && Collapsed(g, m, out[..|Kept(m, |m|)| + 1])
  {
  }

  // ----- the initial state -----

  function InitialMap(g: Graph): seq<nat> {
    seq(|g|, i requires 0 <= i < |g| => if i == 0 || g[i].Kind() in {Var, Datasec} then i else UNPROCESSED_ID)
  }

  /** Every mapped type is its own representative. */
  lemma InitialRoots(g: Graph, i: nat)
    requires |g| <= MAX_NR_TYPES + 1 && i < |g|
    ensures |InitialMap(g)| == |g| && IsRoot(InitialMap(g), i) && (IsMapped(InitialMap(g), i) ==> InitialMap(g)[i] == i)
  {
  }

  lemma InitialForest(g: Graph)
    requires WellFormed(g) && |g| <= MAX_NR_TYPES + 1
    ensures var m := InitialMap(g); Forest(m) && LinksOk(g, m) && LinksMapped(m, |m|) && RefsUntouched(g, m)
  {
    var m := InitialMap(g);
    assert RefsUntouched(g, m);
    hide InitialMap, WellFormed;
    InitialRoots(g, 0);
    forall i | 0 <= i < |m| ensures IsRoot(m, i) && (IsMapped(m, i) ==> m[i] == i) { InitialRoots(g, i); }
    assert Ranked(m, seq(|m|, i => 0));
  }

  lemma InitialSound(v: Graph, m: seq<nat>)
    requires WellFormed(v) && |v| == |m| && forall i :: 0 <= i < |m| && IsMapped(m, i) ==> m[i] == i
    ensures ViewOk(v, v, m)
  {
    RedirectedRefl(v);
    forall i | 0 <= i < |m| && IsMapped(m, i) ensures m[i] < |m| && Bisimilar(v, i, v, m[i]) { BisimilarRefl(v, i); }
  }

  lemma InitialStage(g: Graph, hash: BtfType -> int, noFwd: bool)
    requires WellFormed(g) && |g| <= MAX_NR_TYPES + 1
    ensures StageOk(g, g, InitialMap(g), map[], hash, noFwd)
    ensures RefsUntouched(g, InitialMap(g)) && LinksMapped(InitialMap(g), |g|)
  {
    hide Forest, LinksOk, LinksMapped, RefsUntouched, ViewOk, View;
    InitialForest(g);
    forall i | 0 <= i < |g| ensures IsMapped(InitialMap(g), i) ==> InitialMap(g)[i] == i { InitialRoots(g, i); }
    InitialSound(View(g, noFwd), InitialMap(g));
  }

  lemma StartLinks(g: Graph, m: seq<nat>)
    requires WellFormed(g) && |g| == |m| && RefsUntouched(g, m) && LinksOk(g, m)
    requires forall i :: 0 < i < |g| && (IsPrimitive(g[i].Kind()) || IsComposite(g[i].Kind())) ==> IsMapped(m, i)
    ensures LinksMapped(m, |m|)
  {
    forall i | 0 <= i < |m| && IsMapped(m, i) ensures m[i] < |m| && IsMapped(m, m[i]) {
      assert LinkOk(g[i], g[m[i]]);
      if m[i] != i {
        assert IsDeduped(g[i].Kind()) && !IsReference(g[i].Kind());
        assert IsPrimitive(g[m[i]].Kind()) || IsComposite(g[m[i]].Kind());
      }
    }
  }

  /** After the primitive and composite passes, the reference pass can start. */
  lemma StartRefs(g: Graph, m: seq<nat>, rank: seq<nat>)
    requires WellFormed(g) && |g| == |m| == |rank| <= MAX_NR_TYPES + 1 && RefsUntouched(g, m) && LinksOk(g, m)
    requires forall i :: 0 < i < |g| && (IsPrimitive(g[i].Kind()) || IsComposite(g[i].Kind())) ==> IsMapped(m, i)
    ensures RefsPending(g, g, m) && RefsResolved(g, m) && LinksMapped(m, |m|) && DoneRanked(g, m, rank)
    ensures forall i :: 0 <= i < |m| ==> m[i] != IN_PROGRESS_ID
  {
    hide LinksMapped, LinksOk;
    StartLinks(g, m);
  }

  lemma AllMappedCanonical(m: seq<nat>)
    requires Forest(m) && forall i :: 0 <= i < |m| ==> IsMapped(m, i)
    ensures AllCanonical(m)
  {
    forall i | 0 <= i < |m| ensures m[Root(m, i)] == Root(m, i) { RootIsSelfMapped(m, i); }
  }

  ghost function FinalIds(m: seq<nat>): seq<nat>
    requires Forest(m)
  {
    seq(|m|, i requires 0 <= i < |m| => FinalId(m, i))
  }

  lemma FinalOnto(m: seq<nat>, p: nat)
    requires AllCanonical(m) && |m| > 0 && m[0] == 0 && 0 < p <= |Kept(m, |m|)|
    ensures FinalIds(m)[Kept(m, |m|)[p - 1]] == p
  {
    var c := Kept(m, |m|)[p - 1];
    KeptAt(m, c);
    if |Kept(m, c)| < p - 1 {
      KeptIncreasing(m, |m|, |Kept(m, c)|, p - 1);
    } else if |Kept(m, c)| > p - 1 {
      KeptIncreasing(m, |m|, p - 1, |Kept(m, c)|);
    }
  }

  /** What the passes together achieve, from the invariants each of them established. */
  lemma DedupResult(g0: Graph, g: Graph, m: seq<nat>, out: Graph, noFwd: bool, rank: seq<nat>)
    requires WellFormed(g0) && WellFormed(g) && |g0| == |g| == |m| && m[0] == 0
    requires AllCanonical(m) && Collapsed(g, m, out) && (Meant(g0, noFwd) ==> ViewOk(View(g0, noFwd), View(g, noFwd), m))
    requires UniqueRecords(g, m) && RefsResolved(g, m) && RefsPending(g0, g, m)
    requires |rank| == |m| && RefRanked(g, rank) && forall i :: 0 <= i < |m| ==> IsMapped(m, i)
    ensures WellFormed(out) && |out| == |Kept(m, |m|)| + 1 && RefAcyclic(out)
    ensures |FinalIds(m)| == |m| && forall i :: 0 <= i < |m| ==> FinalIds(m)[i] < |out|
    ensures Meant(g0, noFwd) ==> forall i :: 0 <= i < |m| ==> Bisimilar(View(g0, noFwd), i, View(out, noFwd), FinalIds(m)[i])
    ensures NoDuplicates(out, FwdsPlain(g0))
  {
    assert |out| == |Kept(m, |m|)| + 1;
    hide WellFormed, Collapsed, Redirected, SoundMap, UniqueRecords, RefsResolved, RefsPending, FwdsPlain, NoDuplicates, Bisimilar, Kept, FinalId, RefRanked, RefAcyclic, View, Meant;
    CollapsedWellFormed(g, m, out);
    CollapsedAcyclic(g, m, out, rank);
    forall i | 0 <= i < |m| ensures FinalIds(m)[i] < |out| { FinalIdBelow(m, i); }
    if Meant(g0, noFwd) {
      CollapsedView(g, noFwd, m, out);
      forall i | 0 <= i < |m| ensures Bisimilar(View(g0, noFwd), i, View(out, noFwd), FinalIds(m)[i]) {
        CollapsedBisimilar(View(g0, noFwd), View(g, noFwd), m, View(out, noFwd), i);
      }
    }
    if FwdsPlain(g0) { FwdsPlainKept(g0, g, m); }
    CollapsedUnique(g, m, out, FwdsPlain(g0));
  }

  lemma FwdsPlainKept(g0: Graph, g: Graph, m: seq<nat>)
    requires |g0| == |g| == |m| && RefsPending(g0, g, m) && FwdsPlain(g0)
    ensures FwdsPlain(g)
  {
    forall i | 0 <= i < |g| && g[i].Kind() == Fwd ensures g[i].refs == [0] { PendingFacts(g0, g, m, i); }
  }
}
