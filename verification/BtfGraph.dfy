/**
 The BTF type graph: type records, the ids they reference, and when two types
 of two (possibly cyclic) graphs mean the same thing.

 A record keeps the parts of `struct btf_type` and of the data that trails it:
   - `nameOff` and `info` are the header words;
   - `size` is the header's size/type union for the kinds that store a size there, 0 otherwise;
   - `refs` are the type ids the record references, in record order
     (the header's `type` first, where the kind has one);
   - `fields` is everything else that trails the header.

   kind                                 refs                 fields
   INT                                  []                   [(encoding word, 0)]
   ENUM                                 []                   one (name, value) per enumerator
   FWD PTR TYPEDEF CONST VOLATILE
   RESTRICT FUNC                        [type]               []
   ARRAY                                [index_type, type]   [(nelems, 0)]
   STRUCT UNION                         member types         one (name, offset) per member
   FUNC_PROTO                           [type] + params      one (name, 0) per parameter
   VAR                                  [type]               [(linkage, 0)]
   DATASEC                              variable types       one (offset, size) per variable
 */
module BtfGraph {

  datatype Kind =
    | Unkn | Int | Ptr | Array | Struct | Union | Enum | Fwd | Typedef
    | Volatile | Const | Restrict | Func | FuncProto | Var | Datasec

  datatype Info = Info(kind: Kind, vlen: nat, kflag: bool, unused: nat)

  datatype Field = Field(first: int, second: int)

  datatype BtfType = BtfType(nameOff: nat, info: Info, size: nat, refs: seq<nat>, fields: seq<Field>)
  {
    function Kind(): Kind { info.kind }
  }

  type Graph = seq<BtfType>

  predicate IsComposite(k: Kind) { k == Struct || k == Union }

  predicate IsPrimitive(k: Kind) { k == Int || k == Enum || k == Fwd }

  /** Kinds whose header union is a type id and that reference nothing else. */
  predicate IsSingleRef(k: Kind) {
    k == Ptr || k == Typedef || k == Volatile || k == Const || k == Restrict || k == Func
  }

  predicate IsReference(k: Kind) { IsSingleRef(k) || k == Array || k == FuncProto }

  /** The shape each kind's record has; parsing sizes records by kind and vlen. */
  predicate RecordOk(t: BtfType) {
    match t.Kind()
    case Unkn => |t.refs| == 0 && |t.fields| == 0
    case Int => |t.refs| == 0 && |t.fields| == 1
    case Enum => |t.refs| == 0 && |t.fields| == t.info.vlen
    case Fwd | Ptr | Typedef | Volatile | Const | Restrict | Func => |t.refs| == 1 && |t.fields| == 0 && t.size == 0
    case Array => |t.refs| == 2 && |t.fields| == 1
    case Struct | Union => |t.refs| == t.info.vlen && |t.fields| == t.info.vlen
    case FuncProto => |t.refs| == t.info.vlen + 1 && |t.fields| == t.info.vlen && t.size == 0
    case Var => |t.refs| == 1 && |t.fields| == 1 && t.size == 0
    case Datasec => |t.refs| == t.info.vlen && |t.fields| == t.info.vlen
  }

  ghost predicate RefsBelow(t: BtfType, n: nat) {
    forall k :: 0 <= k < |t.refs| ==> t.refs[k] < n
  }

  /** Id 0 is void, only void has no kind, and every referenced id exists. */
  ghost predicate WellFormed(g: Graph) {
    && 0 < |g|
    && g[0].Kind() == Unkn
    && (forall i :: 0 <= i < |g| ==> RecordOk(g[i]) && RefsBelow(g[i], |g|))
    && (forall i :: 0 < i < |g| ==> g[i].Kind() != Unkn)
  }

  /** Everything a record says except which types it references. */
  function Label(t: BtfType): BtfType { t.(refs := []) }

  // ----- equality of the infinite unfoldings -----

  /** Types `a` of `ga` and `b` of `gb` unfold to the same tree down to depth `k`. */
  ghost predicate SameToDepth(k: nat, ga: Graph, a: nat, gb: Graph, b: nat)
    requires WellFormed(ga) && WellFormed(gb) && a < |ga| && b < |gb|
    decreases k
  {
    k == 0 ||
    (&& Label(ga[a]) == Label(gb[b])
     && |ga[a].refs| == |gb[b].refs|
     && forall j :: 0 <= j < |ga[a].refs| ==> SameToDepth(k - 1, ga, ga[a].refs[j], gb, gb[b].refs[j]))
  }

  /** Same labels along the whole, possibly infinite, unfolding. */
  ghost predicate Bisimilar(ga: Graph, a: nat, gb: Graph, b: nat)
    requires WellFormed(ga) && WellFormed(gb) && a < |ga| && b < |gb|
  {
    forall k: nat :: SameToDepth(k, ga, a, gb, b)
  }

  lemma DepthHead(k: nat, v: Graph, a: nat, b: nat)
    requires WellFormed(v) && a < |v| && b < |v| && RefsBelow(v[a], |v|) && RefsBelow(v[b], |v|)
    ensures k == 0 ==> SameToDepth(k, v, a, v, b)
    ensures k > 0 ==> (SameToDepth(k, v, a, v, b) <==>
      && Label(v[a]) == Label(v[b]) && |v[a].refs| == |v[b].refs|
      && forall j :: 0 <= j < |v[a].refs| ==> SameToDepth(k - 1, v, v[a].refs[j], v, v[b].refs[j]))
  {
    hide Label, WellFormed;
  }

  lemma {:induction false} SameToDepthRefl(k: nat, g: Graph, a: nat)
    requires WellFormed(g) && a < |g|
    ensures SameToDepth(k, g, a, g, a)
    decreases k
  {
    if k > 0 {
      forall j | 0 <= j < |g[a].refs| ensures SameToDepth(k - 1, g, g[a].refs[j], g, g[a].refs[j]) {
        SameToDepthRefl(k - 1, g, g[a].refs[j]);
      }
    }
  }

  lemma {:induction false} SameToDepthSym(k: nat, ga: Graph, a: nat, gb: Graph, b: nat)
    requires WellFormed(ga) && WellFormed(gb) && a < |ga| && b < |gb|
    requires SameToDepth(k, ga, a, gb, b)
    ensures SameToDepth(k, gb, b, ga, a)
    decreases k
  {
    if k > 0 {
      forall j | 0 <= j < |ga[a].refs| ensures SameToDepth(k - 1, gb, gb[b].refs[j], ga, ga[a].refs[j]) {
        SameToDepthSym(k - 1, ga, ga[a].refs[j], gb, gb[b].refs[j]);
      }
    }
  }

  lemma {:induction false} SameToDepthTrans(k: nat, ga: Graph, a: nat, gb: Graph, b: nat, gc: Graph, c: nat)
    requires WellFormed(ga) && WellFormed(gb) && WellFormed(gc) && a < |ga| && b < |gb| && c < |gc|
    requires SameToDepth(k, ga, a, gb, b) && SameToDepth(k, gb, b, gc, c)
    ensures SameToDepth(k, ga, a, gc, c)
    decreases k
  {
    if k > 0 {
      forall j | 0 <= j < |ga[a].refs| ensures SameToDepth(k - 1, ga, ga[a].refs[j], gc, gc[c].refs[j]) {
        SameToDepthTrans(k - 1, ga, ga[a].refs[j], gb, gb[b].refs[j], gc, gc[c].refs[j]);
      }
    }
  }

  lemma BisimilarRefl(g: Graph, a: nat)
    requires WellFormed(g) && a < |g|
    ensures Bisimilar(g, a, g, a)
  {
    forall k: nat ensures SameToDepth(k, g, a, g, a) { SameToDepthRefl(k, g, a); }
  }

  lemma BisimilarSym(ga: Graph, a: nat, gb: Graph, b: nat)
    requires WellFormed(ga) && WellFormed(gb) && a < |ga| && b < |gb|
    requires Bisimilar(ga, a, gb, b)
    ensures Bisimilar(gb, b, ga, a)
  {
    forall k: nat ensures SameToDepth(k, gb, b, ga, a) { SameToDepthSym(k, ga, a, gb, b); }
  }

  lemma BisimilarTrans(ga: Graph, a: nat, gb: Graph, b: nat, gc: Graph, c: nat)
    requires WellFormed(ga) && WellFormed(gb) && WellFormed(gc) && a < |ga| && b < |gb| && c < |gc|
    requires Bisimilar(ga, a, gb, b) && Bisimilar(gb, b, gc, c)
    ensures Bisimilar(ga, a, gc, c)
  {
    forall k: nat ensures SameToDepth(k, ga, a, gc, c) { SameToDepthTrans(k, ga, a, gb, b, gc, c); }
  }

  /** Bisimilarity is a bisimulation: labels agree and so does every referenced pair. */
  lemma BisimilarUnfold(ga: Graph, a: nat, gb: Graph, b: nat)
    requires WellFormed(ga) && WellFormed(gb) && a < |ga| && b < |gb|
    requires Bisimilar(ga, a, gb, b)
    ensures Label(ga[a]) == Label(gb[b]) && |ga[a].refs| == |gb[b].refs|
    ensures forall j :: 0 <= j < |ga[a].refs| ==> Bisimilar(ga, ga[a].refs[j], gb, gb[b].refs[j])
  {
    assert SameToDepth(1, ga, a, gb, b);
    forall j, k: nat | 0 <= j < |ga[a].refs|
      ensures SameToDepth(k, ga, ga[a].refs[j], gb, gb[b].refs[j])
    {
      assert SameToDepth(k + 1, ga, a, gb, b);
    }
  }

  /** One step of unfolding is enough when every referenced pair is bisimilar. */
  lemma BisimilarFold(ga: Graph, a: nat, gb: Graph, b: nat)
    requires WellFormed(ga) && WellFormed(gb) && a < |ga| && b < |gb|
    requires Label(ga[a]) == Label(gb[b]) && |ga[a].refs| == |gb[b].refs|
    requires forall j :: 0 <= j < |ga[a].refs| ==> Bisimilar(ga, ga[a].refs[j], gb, gb[b].refs[j])
    ensures Bisimilar(ga, a, gb, b)
  {
    forall k: nat ensures SameToDepth(k, ga, a, gb, b) {
      if k > 0 {
        forall j | 0 <= j < |ga[a].refs|
          ensures SameToDepth(k - 1, ga, ga[a].refs[j], gb, gb[b].refs[j])
        {
          assert Bisimilar(ga, ga[a].refs[j], gb, gb[b].refs[j]);
        }
      }
    }
  }

  /** A relation that matches labels and is closed under taking references. */
  ghost predicate IsBisimulation(ga: Graph, gb: Graph, r: set<(nat, nat)>)
    requires WellFormed(ga) && WellFormed(gb)
  {
    forall a, b :: (a, b) in r ==>
      && a < |ga| && b < |gb|
      && Label(ga[a]) == Label(gb[b])
      && |ga[a].refs| == |gb[b].refs|
      && forall j :: 0 <= j < |ga[a].refs| ==> (ga[a].refs[j], gb[b].refs[j]) in r
  }

  /** Bisimilarity contains every bisimulation, so it is the greatest one (with BisimilarUnfold). */
  lemma {:induction false} BisimulationSound(k: nat, ga: Graph, a: nat, gb: Graph, b: nat, r: set<(nat, nat)>)
    requires WellFormed(ga) && WellFormed(gb)
    requires IsBisimulation(ga, gb, r) && (a, b) in r
    ensures a < |ga| && b < |gb| && SameToDepth(k, ga, a, gb, b)
    decreases k
  {
    if k > 0 {
      forall j | 0 <= j < |ga[a].refs| ensures SameToDepth(k - 1, ga, ga[a].refs[j], gb, gb[b].refs[j]) {
        BisimulationSound(k - 1, ga, ga[a].refs[j], gb, gb[b].refs[j], r);
      }
    }
  }

  // ----- a graph rewritten to reference equivalent types -----

  /** `h` is `g` with references replaced by ones bisimilar in `g`. */
  ghost predicate Redirected(g: Graph, h: Graph)
    requires WellFormed(g)
  {
    && WellFormed(h)
    && |h| == |g|
    && forall i :: 0 <= i < |g| ==> RedirectedAt(g, h, i)
  }

  ghost predicate RedirectedAt(g: Graph, h: Graph, i: nat)
    requires WellFormed(g) && WellFormed(h) && |h| == |g| && i < |g|
  {
    && Label(h[i]) == Label(g[i])
    && |h[i].refs| == |g[i].refs|
    && forall j :: 0 <= j < |g[i].refs| ==> Bisimilar(g, g[i].refs[j], g, h[i].refs[j])
  }

  lemma RedirectedRefl(g: Graph)
    requires WellFormed(g)
    ensures Redirected(g, g)
  {
    forall i, j | 0 <= i < |g| && 0 <= j < |g[i].refs| ensures Bisimilar(g, g[i].refs[j], g, g[i].refs[j]) {
      BisimilarRefl(g, g[i].refs[j]);
    }
  }

  /** Equal records of a redirected graph are equivalent types of the original graph. */
  lemma EqualRecordsBisimilar(g: Graph, h: Graph, a: nat, b: nat)
    requires WellFormed(g) && Redirected(g, h) && a < |g| && b < |g|
    requires h[a] == h[b]
    ensures Bisimilar(g, a, g, b)
  {
    assert RedirectedAt(g, h, a) && RedirectedAt(g, h, b);
    forall j | 0 <= j < |g[a].refs| ensures Bisimilar(g, g[a].refs[j], g, g[b].refs[j]) {
      BisimilarSym(g, g[b].refs[j], g, h[b].refs[j]);
      BisimilarTrans(g, g[a].refs[j], g, h[a].refs[j], g, g[b].refs[j]);
    }
    BisimilarFold(g, a, g, b);
  }

  /** Overwriting one reference by a bisimilar one keeps the graph a redirection. */
  lemma RedirectOne(g: Graph, h: Graph, i: nat, j: nat, id: nat)
    requires WellFormed(g) && Redirected(g, h)
    requires i < |h| && j < |h[i].refs| && id < |g|
    requires Bisimilar(g, h[i].refs[j], g, id)
    ensures Redirected(g, h[i := h[i].(refs := h[i].refs[j := id])])
  {
    var h' := h[i := h[i].(refs := h[i].refs[j := id])];
    assert RedirectedAt(g, h, i);
    BisimilarTrans(g, g[i].refs[j], g, h[i].refs[j], g, id);
    forall x | 0 <= x < |h'| ensures RecordOk(h'[x]) && RefsBelow(h'[x], |h'|) {
      assert RecordOk(h[x]) && RefsBelow(h[x], |h|);
    }
    forall x | 0 <= x < |g| ensures RedirectedAt(g, h', x) {
      assert RedirectedAt(g, h, x);
    }
  }
}
