/**
 The type passes of BTF deduplication (libbpf's btf__dedup after its string pass):
 primitive types, structs and unions, reference types, compaction and remapping,
 each rewriting the same arrays in place.
 */
module BtfDedup {
  import opened Machine
  import opened BtfGraph
  import opened BtfForest
  import opened BtfEquiv
  import opened BtfStages
  import opened BtfUnits

  class BtfDedup {
    const noFwd: bool              // opts.dont_resolve_fwds
    const hash: BtfType -> int     // the type signature hash
    var types: seq<BtfType>
    var canon: seq<nat>            // d->map, the canonical type of each type
    var hypotMap: seq<nat>
    var hypotList: seq<nat>
    var table: map<int, set<nat>>  // d->dedup_table, candidates by signature hash
    var nrTypes: nat

    ghost predicate Shape()
      reads `types, `canon, `hypotMap, `nrTypes
    {
      && |types| == |canon| == |hypotMap|
      && 0 < |types| <= MAX_NR_TYPES + 1
      && nrTypes < |types|
    }

    /** What the equivalence check reads. */
    ghost function Ctx(): Context
      reads `types, `canon
    {
      Context(types, canon, noFwd)
    }

    /** hypotList lists exactly the set slots of hypotMap. */
    ghost predicate HypotReady()
      reads `types, `canon, `hypotMap, `hypotList, `nrTypes
    {
      && Shape()
      && ContextOk(Ctx())
      && HypotOk(types, hypotMap)
      && (forall c :: 0 <= c < |hypotMap| && c !in hypotList ==> hypotMap[c] == UNPROCESSED_ID)
      && (forall i :: 0 <= i < |hypotList| ==> hypotList[i] < |hypotMap| && hypotMap[hypotList[i]] <= MAX_NR_TYPES)
    }

    /** Follows the map to the canonical type; terminates because the map is a forest. */
    method ResolveTypeId(typeId: nat) returns (r: nat)
      requires Forest(canon) && typeId < |canon|
      ensures r == Root(canon, typeId)
    {
      r := typeId;
      ghost var m := canon;
      while canon[r] <= MAX_NR_TYPES && canon[r] != r
        invariant r < |canon|
        invariant Root(m, r) == Root(m, typeId)
        decreases RankOf(m)[r]
      {
        assert !IsRoot(m, r);
        r := canon[r];
      }
    }

    method ResolveFwdId(typeId: nat) returns (r: nat)
      requires Shape() && ContextOk(Ctx()) && typeId < |canon|
      ensures r == FwdTarget(Ctx(), typeId)
    {
      if types[typeId].Kind() != Fwd { return typeId; }
      r := ResolveTypeId(typeId);
      if types[r].Kind() != Fwd { return r; }
      r := typeId;
    }

    method HypotMapAdd(fromId: nat, toId: nat)
      requires HypotReady() && fromId < |types| && toId < |types|
      modifies `hypotMap, `hypotList
      ensures HypotReady()
      ensures hypotMap == old(hypotMap)[fromId := toId]
      ensures hypotList == old(hypotList) + [fromId]
    {
      hypotList := hypotList + [fromId];
      hypotMap := hypotMap[fromId := toId];
    }

    method ClearHypotMap()
      requires HypotReady()
      modifies `hypotMap, `hypotList
      ensures HypotReady()
      ensures hypotList == [] && forall c :: 0 <= c < |hypotMap| ==> hypotMap[c] == UNPROCESSED_ID
    {
      var i := 0;
      while i < |hypotList|
        invariant 0 <= i <= |hypotList|
        invariant Shape() && hypotList == old(hypotList)
        invariant forall j :: 0 <= j < |hypotList| ==> hypotList[j] < |hypotMap|
        invariant forall c :: 0 <= c < |hypotMap| ==>
                    hypotMap[c] == if c in hypotList[..i] then UNPROCESSED_ID else old(hypotMap[c])
      {
        hypotMap := hypotMap[hypotList[i] := UNPROCESSED_ID];
        i := i + 1;
      }
      assert hypotList[..i] == hypotList;
      hypotList := [];
    }

    /**
     Side-by-side traversal of two type graphs. It returns 1 exactly when some closed
     hypothetical map extends the current one and settles the pair; the map it leaves
     behind is then such a map, as far as this call added to it.
     */
    method IsEquiv(candId: nat, canonId: nat) returns (r: int)
      requires HypotReady() && candId < |types| && canonId < |types|
      modifies `hypotMap, `hypotList
      ensures HypotReady()
      ensures EquivPost(Ctx(), old(hypotMap), hypotMap, candId, canonId, r)
      ensures r == EINVAL ==> DataClash(types) || DataPair(types, candId, FwdTarget(Ctx(), canonId))
      decreases Unset(hypotMap), 0
    {
      ghost var x, h0 := Ctx(), hypotMap;
      var candRoot := ResolveTypeId(candId);
      var canonRoot := ResolveTypeId(canonId);
      if candRoot == canonRoot {
        SameRootPost(x, h0, candId, canonId);
        return 1;
      }
      var id := ResolveFwdId(canonId);
      if hypotMap[id] <= MAX_NR_TYPES {
        KnownPost(x, h0, candId, canonId);
        return if hypotMap[id] == candId then 1 else 0;
      }
      HypotMapAdd(id, candId);
      ghost var h1 := hypotMap;
      PairEntered(x, h0, h1, candId, canonId);

      r := LocalVerdict(noFwd, types[candId], types[id]);
      if r == EINVAL { DataEntered(x, candId, canonId); }
      if r == RECURSE {
        NodeOkRefs(noFwd, x.g[candId], x.g[id]);
        r := EquivRefs(candId, id);
      }
      EnteredPost(x, h0, h1, hypotMap, candId, canonId, id, r);
    }

    /** Compares the references of a pair already entered in the hypothetical map. */
    method EquivRefs(candId: nat, canonId: nat) returns (r: int)
      requires HypotReady() && candId < |types| && canonId < |types|
      requires hypotMap[canonId] == candId
      requires NodeOk(noFwd, types[candId], types[canonId]) && ComparesRefs(types[candId], types[canonId])
      requires |types[candId].refs| == |types[canonId].refs|
      modifies `hypotMap, `hypotList
      ensures HypotReady() && r in {1, 0, EINVAL} && (r == EINVAL ==> DataClash(types))
      ensures Extends(old(hypotMap), hypotMap)
      ensures r == 1 ==> RefsCovered(Ctx(), hypotMap, candId, canonId)
      ensures r == 1 ==> NewClosed(Ctx(), old(hypotMap), hypotMap)
      ensures forall w :: Completes(Ctx(), old(hypotMap), w) ==> r == 1 && Completes(Ctx(), hypotMap, w)
      decreases Unset(hypotMap), 1
    {
      ghost var x, h0 := Ctx(), hypotMap;
      var a, b := types[candId].refs, types[canonId].refs;
      assert RefsBelow(x.g[candId], |x.g|) && RefsBelow(x.g[canonId], |x.g|);
      var k := 0;
      while k < |a|
        invariant 0 <= k <= |a|
        invariant HypotReady() && Ctx() == x
        invariant Extends(h0, hypotMap)
        invariant PrefixCovered(x, hypotMap, a, b, k)
        invariant NewClosed(x, h0, hypotMap)
        invariant forall w :: Completes(x, h0, w) ==> Completes(x, hypotMap, w)
      {
        ghost var h := hypotMap;
        assert Unset(h) <= Unset(h0);
        forall w | Completes(x, h0, w) ensures Witness(x, h, w, a[k], b[k]) {
          WitnessForRef(x, h, w, candId, canonId, k);
        }
        r := IsEquiv(a[k], b[k]);
        if r <= 0 {
          assert RefersTo(types, candId, a[k]);
          return;
        }
        NewClosedTrans(x, h0, h, hypotMap);
        PrefixCoveredStep(x, h, hypotMap, a, b, k);
        k := k + 1;
      }
      return 1;
    }

    method MergePair(targTypeId: nat, candTypeId: nat)
      requires Shape() && Forest(canon) && targTypeId < |canon| && candTypeId < |canon|
      modifies `canon
      ensures canon == MergedPair(types, old(canon), Root(old(canon), targTypeId),
                                      Root(old(canon), candTypeId))
    {
      var tId := ResolveTypeId(targTypeId);
      var cId := ResolveTypeId(candTypeId);
      var tKind, cKind := types[tId].Kind(), types[cId].Kind();
      if tKind != Fwd && cKind == Fwd {
        canon := canon[cId := tId];
      } else if tKind == Fwd && cKind != Fwd {
        canon := canon[tId := cId];
      }
      if IsComposite(tKind) && cKind != Fwd && canon[cId] <= MAX_NR_TYPES && canon[tId] > MAX_NR_TYPES {
        canon := canon[tId := cId];
      }
    }

    /**
     Turns hypotheses into links of the canonical map: forward declarations to composites,
     and composites not mapped yet to mapped ones. Every link joins the distinct roots of two paired types, and
     no forward declaration paired with a composite is left unresolved.
     */
    method MergeHypotMap()
      requires HypotReady() && LinksOk(types, canon)
      requires PairsChecked(Ctx(), hypotMap)
      requires Meant(types, noFwd) ==> SoundMap(View(types, noFwd), canon)
      modifies `canon
      ensures HypotReady() && LinksOk(types, canon)
      ensures Meant(types, noFwd) ==> SoundMap(View(types, noFwd), canon)
      ensures Grown(types, old(canon), canon)
      ensures FwdsResolved(types, hypotMap, canon) && MetOnly(old(canon), hypotMap, canon)
    {
      hide WellFormed, Forest, LinksOk, SoundMap, Grown, PairsChecked, HypotOk, NodeOk, Bisimilar, View, Meant, PairResolved, MetOnly;
      ghost var x := Ctx();
      GrownRefl(x.g, x.m);
      ghost var h := hypotMap;
      assert MetOnly(x.m, h, x.m) by { MetStart(x.m, h); }
      var i := 0;
      while i < |hypotList|
        invariant 0 <= i <= |hypotList|
        invariant ContextOk(Ctx()) && LinksOk(x.g, canon)
        invariant Meant(x.g, noFwd) ==> SoundMap(View(x.g, noFwd), canon)
        invariant Grown(x.g, x.m, canon) && MetOnly(x.m, h, canon)
        invariant forall k :: 0 <= k < i ==> hypotList[k] < |h| && h[hypotList[k]] < |x.g| && PairResolved(x.g, h, canon, hypotList[k])
      {
        ghost var y := Ctx();
        HypotPair(x, h, hypotList[i]);
        MergedPairOk(y, x.m, h[hypotList[i]], hypotList[i]);
        GrownOnlyRoots(x.g, x.m, canon);
        MergeMet(y, x.m, h, hypotList[i]);
        MergePair(hypotMap[hypotList[i]], hypotList[i]);
        MergeStep(y, h, hypotList[i], canon);
        i := i + 1;
      }
      AllMerged(x.g, h, canon, hypotList);
    }

    // ----- pass 3: structs and unions -----

    ghost predicate Ready()
      reads `types, `canon, `hypotMap, `hypotList, `table, `nrTypes
    {
      && HypotReady()
      && nrTypes + 1 == |types|
      && StageOk(types, types, canon, table, hash, noFwd)
      && RefsUntouched(types, canon)
    }

    /** Checks one candidate and, on success, merges what the check found out. */
    method TryCandidate(typeId: nat, candId: nat) returns (eq: int)
      requires Ready() && typeId < |types| && candId < |types|
      modifies `canon, `hypotMap, `hypotList
      ensures Ready()
      ensures eq in {1, 0, EINVAL} && (eq == EINVAL && IsComposite(types[typeId].Kind()) ==> DataClash(types))
      ensures eq != 1 ==> canon == old(canon)
      ensures eq == 0 ==> NoWitness(old(Ctx()), typeId, candId)
      ensures eq == 1 ==> Grown(types, old(canon), canon) && MetOnly(old(canon), hypotMap, canon)
      ensures eq == 1 ==> Closed(old(Ctx()), hypotMap) && Covered(old(Ctx()), hypotMap, typeId, candId)
      ensures eq == 1 ==> FwdsResolved(types, hypotMap, canon)
      ensures eq == 1 && Meant(types, noFwd) ==> Bisimilar(View(types, noFwd), typeId, View(types, noFwd), candId)
    {
      hide WellFormed, LinksOk, TableOk, Indexed, UniqueRecords, EnumsApart, SoundMap, Redirected, HypotOk, RefsUntouched, EquivPost, Closed, Covered,
        NoWitness, Grown, PairsChecked, Forest, View, Meant, FwdsResolved, MetOnly, Bisimilar;
      ClearHypotMap();
      ghost var x, h0 := Ctx(), hypotMap;
      eq := IsEquiv(typeId, candId);
      ghost var h := hypotMap;
      CheckedFromEmpty(x, h0, h, typeId, candId, eq);
      if eq == 1 {
        MergeHypotMap();
        StageGrown(x.g, x.m, canon, table, hash, noFwd);
      }
    }

    /** Records the canonical type of a primitive or composite type; a canonical one becomes a candidate. */
    method Settle(typeId: nat, newId: nat)
      requires Ready() && 0 < typeId < |types| && newId < |types|
      requires IsPrimitive(types[typeId].Kind()) || IsComposite(types[typeId].Kind())
      requires typeId == newId ==> IsComposite(types[typeId].Kind()) || Fresh(types, table, hash, typeId)
      requires typeId == newId && !noFwd && types[typeId].Kind() == Enum ==> EnumFresh(types, canon, table, hash, typeId)
      requires typeId != newId ==> !Reaches(canon, newId, typeId) && LinkOk(types[typeId], types[newId])
      requires typeId != newId ==> forall h :: !InTable(table, h, typeId)
      requires typeId != newId && Meant(types, noFwd) ==> Bisimilar(View(types, noFwd), typeId, View(types, noFwd), newId)
      modifies `canon, `table
      ensures Ready()
      ensures canon == old(canon)[typeId := newId]
      ensures table == if typeId == newId then TableAdd(old(table), hash(types[typeId]), typeId) else old(table)
    {
      hide WellFormed, LinksOk, TableOk, Indexed, UniqueRecords, EnumsApart, ViewOk, View, Meant, Bisimilar, HypotOk, RefsUntouched, Fresh,
        EnumFresh, Forest, LinkOk;
      ghost var g, m := types, canon;
      UntouchedUpdate(g, m, typeId, newId);
      canon := canon[typeId := newId];
      if typeId == newId {
        StageSelf(g, g, m, table, hash, noFwd, typeId);
        table := TableAdd(table, hash(types[typeId]), typeId);
      } else {
        StageLink(g, g, m, table, hash, noFwd, typeId, newId);
      }
    }

    /** Looks for a candidate with the same record, in whatever order the table yields them. */
    method FindEqual(typeId: nat) returns (newId: nat)
      requires |types| == |canon| && WellFormed(types) && TableOk(types, canon, table, hash)
      requires 0 < typeId < |types| && (IsPrimitive(types[typeId].Kind()) || IsReference(types[typeId].Kind()))
      requires forall h :: !InTable(table, h, typeId)
      ensures newId < |types|
      ensures newId == typeId ==> Fresh(types, table, hash, typeId)
      ensures newId != typeId ==> types[newId] == types[typeId] && CandidateOk(types, canon, hash, hash(types[typeId]), newId)
    {
      var h := hash(types[typeId]);
      var rest := if h in table then table[h] else {};
      while rest != {}
        invariant h in table ==> rest <= table[h]
        invariant h !in table ==> rest == {}
        invariant forall c: nat :: InTable(table, h, c) && c !in rest ==> c < |types| && types[c] != types[typeId]
        decreases rest
      {
        var candId :| candId in rest;
        rest := rest - {candId};
        assert InTable(table, h, candId);
        CandidateFacts(types, canon, table, hash, h, candId);
        EqualRecordExact(types[typeId], types[candId]);
        if EqualRecord(types[typeId], types[candId]) { return candId; }
      }
      return typeId;
    }

    // ----- pass 2: primitive types -----

    /** Resolves an enum forward declaration to the enum being processed. */
    method RedirectEnum(candId: nat, typeId: nat)
      requires Ready() && 0 < typeId < |types| && 0 < candId < |types| && candId != typeId && !noFwd
      requires types[typeId].Kind() == Enum && IsEnumFwd(types[candId]) && LinkOk(types[candId], types[typeId])
      requires !IsMapped(canon, typeId)
      modifies `canon
      ensures Ready() && canon == old(canon)[candId := typeId]
    {
      hide WellFormed, LinksOk, TableOk, Indexed, UniqueRecords, EnumsApart, ViewOk, View, Meant, Bisimilar, HypotOk, Forest, RefsUntouched, LinkOk;
      UnmappedAvoids(canon, typeId, candId);
      if Meant(types, noFwd) { LinkMeans(types, noFwd, candId, typeId); }
      StageLink(types, types, canon, table, hash, noFwd, candId, typeId);
      UntouchedUpdate(types, canon, candId, typeId);
      canon := canon[candId := typeId];
    }

    /** Enum with forward resolution: an enum without enumerators stands for any enum of its name and size. */
    method DedupEnumResolving(typeId: nat)
      requires Ready() && 0 < typeId < |types| && !noFwd
      requires types[typeId].Kind() == Enum && canon[typeId] == UNPROCESSED_ID && LinksMapped(canon, |canon|)
      modifies `canon, `table
      ensures Ready() && IsMapped(canon, typeId)
      ensures PrimStep(old(canon), canon, typeId) && LinksMapped(canon, |canon|)
    {
      hide WellFormed, LinksOk, TableOk, Indexed, UniqueRecords, EnumsApart, ViewOk, View, Meant, Bisimilar, HypotOk, Forest, RefsUntouched,
        LinksMapped, PrimStep;
      var t := types[typeId];
      NotYetInTable(types, canon, table, hash, typeId);
      RecordFacts(types, typeId);
      PrimStart(canon, typeId);
      var h := hash(t);
      var rest := if h in table then table[h] else {};
      while rest != {}
        invariant Ready() && !IsMapped(canon, typeId) && table == old(table)
        invariant PrimStep(old(canon), canon, typeId)
        invariant IsEnumFwd(t) ==> canon == old(canon)
        invariant h in table ==> rest <= table[h]
        invariant h !in table ==> rest == {}
        invariant forall c: nat :: InTable(table, h, c) && c !in rest ==> c < |types| && types[c] != t && (canon[c] == c ==> !CompatEnum(t, types[c]))
        decreases rest
      {
        var candId :| candId in rest;
        rest := rest - {candId};
        assert InTable(table, h, candId);
        CandidateFacts(types, canon, table, hash, h, candId);
        RecordFacts(types, candId);
        EqualRecordExact(t, types[candId]);
        if EqualEnum(t, types[candId]) || (CompatEnum(t, types[candId]) && IsEnumFwd(t)) {
          if IsEnumFwd(t) {
            MappedAvoids(canon, candId, typeId);
          } else {
            SelfMappedAvoids(canon, candId, typeId);
          }
          EnumLinks(types, noFwd, typeId, candId);
          PrimSettled(old(canon), canon, typeId, candId);
          Settle(typeId, candId);
          return;
        }
        if CompatEnum(t, types[candId]) {
          CompatLinks(types[candId], t);
          PrimRedirected(old(canon), canon, typeId, candId);
          RedirectEnum(candId, typeId);
        }
      }
      PrimSettled(old(canon), canon, typeId, typeId);
      Settle(typeId, typeId);
    }

    method DedupPrimType(typeId: nat)
      requires Ready() && 0 < typeId < |types|
      requires IsPrimitive(types[typeId].Kind()) ==> canon[typeId] == UNPROCESSED_ID
      requires LinksMapped(canon, |canon|)
      modifies `canon, `table
      ensures Ready()
      ensures PrimStep(old(canon), canon, typeId) && LinksMapped(canon, |canon|)
      ensures if IsPrimitive(types[typeId].Kind()) then IsMapped(canon, typeId) else canon == old(canon)
    {
      hide WellFormed, LinksOk, TableOk, Indexed, UniqueRecords, EnumsApart, ViewOk, View, Meant, Bisimilar, HypotOk, Forest, RefsUntouched,
        LinksMapped, PrimStep;
      PrimStart(canon, typeId);
      if !IsPrimitive(types[typeId].Kind()) { return; }
      if types[typeId].Kind() == Enum && !noFwd {
        DedupEnumResolving(typeId);
        return;
      }
      NotYetInTable(types, canon, table, hash, typeId);
      var newId := FindEqual(typeId);
      if newId != typeId {
        MappedAvoids(canon, newId, typeId);
        if Meant(types, noFwd) { LinkMeans(types, noFwd, typeId, newId); }
      }
      PrimSettled(canon, canon, typeId, newId);
      Settle(typeId, newId);
    }

    method DedupPrimTypes()
      requires Ready() && LinksMapped(canon, |canon|) && PrimsUpTo(types, canon, 1)
      modifies `canon, `table
      ensures Ready() && PrimsMapped(types, canon)
    {
      hide WellFormed, LinksOk, TableOk, Indexed, UniqueRecords, EnumsApart, ViewOk, View, Meant, HypotOk, Forest, RefsUntouched, LinksMapped,
        PrimStep, PrimsUpTo;
      var i := 1;
      while i < |types|
        invariant 1 <= i <= |types|
        invariant Ready() && LinksMapped(canon, |canon|) && PrimsUpTo(types, canon, i)
      {
        ghost var m := canon;
        PrimNext(types, canon, i);
        DedupPrimType(i);
        PrimsStep(types, m, canon, i);
        i := i + 1;
      }
    }

    /**
     Deduplicates one struct or union. It is mapped to the first candidate (in whatever order the
     table yields them) that a closed hypothetical map settles it with, and becomes canonical
     exactly when no candidate with an equal signature has such a map.
     */
    method DedupStructType(typeId: nat) returns (r: int, ghost v: Verdict)
      requires Ready() && 0 < typeId < |types|
      modifies `canon, `hypotMap, `hypotList, `table
      ensures Ready() && r in {0, EINVAL} && (r == EINVAL ==> DataClash(types))
      ensures r == 0 ==> StructStep(types, noFwd, hash, old(table), old(canon), canon, typeId, v)
    {
      hide WellFormed, LinksOk, TableOk, Indexed, UniqueRecords, EnumsApart, ViewOk, View, Meant, Bisimilar, HypotOk, RefsUntouched, Closed,
        Covered, NoWitness, Forest, DataClash, StructStep, MetOnly, FwdsResolved;
      v := Linked;
      if canon[typeId] <= MAX_NR_TYPES {
        StepIdle(types, noFwd, hash, table, canon, typeId);
        return 0, v;
      }
      var t := types[typeId];
      if !IsComposite(t.Kind()) {
        StepIdle(types, noFwd, hash, table, canon, typeId);
        return 0, v;
      }
      ghost var x := Ctx();
      NotYetInTable(x.g, x.m, table, hash, typeId);
      var h := hash(t);
      var rest := if h in table then table[h] else {};
      while rest != {}
        invariant Ready() && Ctx() == x && table == old(table)
        invariant h in table ==> rest <= table[h]
        invariant h !in table ==> rest == {}
        invariant forall c: nat :: InTable(table, h, c) && c < |types| && c !in rest && ShallowEqualStruct(t, types[c]) ==>
                    NoWitness(x, typeId, c)
        decreases rest
      {
        var candId :| candId in rest;
        rest := rest - {candId};
        CandidateFacts(x.g, x.m, table, hash, h, candId);
        if ShallowEqualStruct(t, types[candId]) {
          var eq := TryCandidate(typeId, candId);
          if eq < 0 { return eq, v; }
          if eq == 1 {
            ghost var m1 := canon;
            SelfMappedAvoids(canon, candId, typeId);
            Settle(typeId, candId);
            StepSame(x.g, noFwd, hash, table, x.m, m1, hypotMap, typeId, candId);
            return 0, Same(x, hypotMap);
          }
        }
      }
      Settle(typeId, typeId);
      StepFirst(x.g, noFwd, hash, old(table), x.m, typeId);
      return 0, First(x);
    }

    ghost var verdicts: seq<Verdict>  // how each struct and union was settled
    ghost var primMap: seq<nat>       // the map after the primitive pass
    ghost var structMap: seq<nat>     // the map after the struct pass

    /** The step of the struct pass. */
    method SettleStruct(typeId: nat, ghost m0: seq<nat>) returns (r: int)
      requires Ready() && 0 < typeId < |types| == |verdicts| && SettledUpTo(types, noFwd, hash, m0, canon, verdicts, typeId)
      modifies `canon, `hypotMap, `hypotList, `table, `verdicts
      ensures Ready() && r in {0, EINVAL} && (r == EINVAL ==> DataClash(types))
      ensures r == 0 ==> |verdicts| == |types| && SettledUpTo(types, noFwd, hash, m0, canon, verdicts, typeId + 1)
    {
      hide WellFormed, LinksOk, TableOk, Indexed, UniqueRecords, EnumsApart, SoundMap, Redirected, View, Meant, HypotOk, RefsUntouched, Forest,
        SettledUpTo, StructStep, DataClash;
      ghost var m, tbl := canon, table;
      ghost var v;
      r, v := DedupStructType(typeId);
      if r < 0 { return; }
      SettledStep(types, noFwd, hash, tbl, m0, m, canon, verdicts, typeId, v);
      verdicts := verdicts[typeId := v];
    }

    /** Settles every struct and union with a verdict that still holds in the end. */
    method DedupStructTypes() returns (r: int)
      requires Ready() && PrimsMapped(types, canon)
      modifies `canon, `hypotMap, `hypotList, `table, `verdicts
      ensures Ready() && r in {0, EINVAL} && (r == EINVAL ==> DataClash(types))
      ensures r == 0 ==> |verdicts| == |types| && SettledUpTo(types, noFwd, hash, old(canon), canon, verdicts, |types|)
    {
      hide Ready, SettledUpTo, DataClash, WellFormed, Forest, PrimsMapped;
      ReadyShape();
      verdicts := seq(|types|, i => Linked);
      ReadyShape();
      SettledStart(types, noFwd, hash, canon, verdicts);
      var i := 1;
      while i < |types|
        invariant 1 <= i <= |types| == |verdicts| == |canon|
        invariant Ready() && WellFormed(types) && Forest(canon)
        invariant SettledUpTo(types, noFwd, hash, old(canon), canon, verdicts, i)
      {
        r := SettleStruct(i, old(canon));
        if r < 0 { return; }
        ReadyShape();
        i := i + 1;
      }
      return 0;
    }

    lemma ReadyShape()
      requires Ready()
      ensures WellFormed(types) && Forest(canon) && 0 < |types| == |canon| <= MAX_NR_TYPES + 1
    {
      hide WellFormed, Forest, LinksOk, TableOk, Indexed, UniqueRecords, EnumsApart, ViewOk, HypotOk, RefsUntouched;
    }

    // ----- pass 4: reference types -----

    ghost var refRank: seq<nat>  // grows along the order in which reference types are finished

    ghost predicate RefReady(g0: Graph)
      reads this
    {
      && WellFormed(g0) && |g0| == |types| == |canon| == |refRank| == nrTypes + 1
      && StageOk(g0, types, canon, table, hash, noFwd)
      && RefsPending(g0, types, canon)
      && RefsResolved(types, canon)
      && LinksMapped(canon, |canon|)
      && DoneRanked(g0, canon, refRank) && DoneRanked(types, canon, refRank)
    }

    method MarkInProgress(ghost g0: Graph, typeId: nat)
      requires RefReady(g0) && typeId < |types| && canon[typeId] == UNPROCESSED_ID
      modifies `canon
      ensures RefReady(g0) && canon == old(canon)[typeId := IN_PROGRESS_ID]
    {
      hide WellFormed, Forest, LinksOk, TableOk, Indexed, UniqueRecords, EnumsApart, Redirected, SoundMap, View, Meant, RefsPending, RefsResolved, LinksMapped,
        DoneRanked, RefRanked, RanksAbove, RanksAboveBut, AllSelfMapped, RefStep, NoNewProgress, Fresh;
      StageMark(g0, types, canon, table, hash, noFwd, typeId);
      PendingUpdate(g0, types, canon, typeId, IN_PROGRESS_ID);
      LinksMappedUpdate(canon, typeId, IN_PROGRESS_ID);
      ResolvedUpdate(types, canon, typeId, IN_PROGRESS_ID);
      DoneRankedMark(g0, canon, refRank, typeId, IN_PROGRESS_ID);
      DoneRankedMark(types, canon, refRank, typeId, IN_PROGRESS_ID);
      canon := canon[typeId := IN_PROGRESS_ID];
    }

    /** Replaces one reference of a type in progress by the canonical type it resolved to. */
    method RewriteRef(ghost g0: Graph, typeId: nat, j: nat, id: nat)
      requires RefReady(g0) && typeId < |types| && j < |types[typeId].refs| && id < |types|
      requires canon[typeId] == IN_PROGRESS_ID && types[typeId].refs[j] < |types|
      requires id == Root(canon, types[typeId].refs[j])
      modifies `types
      ensures RefReady(g0)
      ensures types == old(types)[typeId := old(types)[typeId].(refs := old(types)[typeId].refs[j := id])]
    {
      hide WellFormed, Forest, LinksOk, TableOk, Indexed, UniqueRecords, EnumsApart, Redirected, SoundMap, View, Meant, RefsPending, RefsResolved, LinksMapped,
        DoneRanked, RefRanked, RanksAbove, RanksAboveBut, AllSelfMapped, RefStep, NoNewProgress, Fresh;
      RecordFacts(types, typeId);
      PendingFacts(g0, types, canon, typeId);
      if Meant(g0, noFwd) { SoundRoot(View(g0, noFwd), canon, types[typeId].refs[j]); }
      StageRewrite(g0, types, canon, table, hash, noFwd, typeId, j, id);
      RewritePending(g0, types, canon, typeId, j, id);
      DoneRankedRewrite(types, canon, refRank, typeId, types[typeId].(refs := types[typeId].refs[j := id]));
      types := types[typeId := types[typeId].(refs := types[typeId].refs[j := id])];
    }

    /** Maps a type whose references are canonical to a candidate with the same record, or makes it canonical. */
    method SettleRef(ghost g0: Graph, typeId: nat) returns (newId: nat)
      requires RefReady(g0) && 0 < typeId < |types| && canon[typeId] == IN_PROGRESS_ID
      requires AllSelfMapped(canon, types[typeId].refs)
      requires forall j :: 0 <= j < |g0[typeId].refs| ==> IsMapped(canon, g0[typeId].refs[j])
      modifies `canon, `table, `refRank
      ensures RefReady(g0) && newId < |types|
      ensures canon == old(canon)[typeId := newId] && canon[newId] == newId
    {
      hide WellFormed, Forest, LinksOk, TableOk, Indexed, UniqueRecords, EnumsApart, Redirected, SoundMap, View, Meant, RefsPending, RefsResolved, LinksMapped,
        DoneRanked, RefRanked, RanksAbove, RanksAboveBut, AllSelfMapped, RefStep, NoNewProgress, Fresh;
      PendingFacts(g0, types, canon, typeId);
      NotYetInTable(types, canon, table, hash, typeId);
      newId := FindEqual(typeId);
      PendingUpdate(g0, types, canon, typeId, newId);
      LinksMappedUpdate(canon, typeId, newId);
      ResolvedUpdate(types, canon, typeId, newId);
      DoneRankedStep(g0, canon, refRank, typeId, newId);
      AllSelfAreMapped(canon, types[typeId].refs);
      DoneRankedStep(types, canon, refRank, typeId, newId);
      if newId != typeId {
        SelfMappedAvoids(canon, newId, typeId);
        if Meant(g0, noFwd) { EqualRecordsBisimilar(View(g0, noFwd), View(types, noFwd), typeId, newId); }
        StageLink(g0, types, canon, table, hash, noFwd, typeId, newId);
        canon := canon[typeId := newId];
      } else {
        StageSelf(g0, types, canon, table, hash, noFwd, typeId);
        canon := canon[typeId := typeId];
        table := TableAdd(table, hash(types[typeId]), typeId);
      }
      refRank := refRank[typeId := MaxRank(refRank) + 1];
    }

    /**
     Deduplicates a reference type after the types it references, and returns its canonical type.
     The only failure is a cycle of reference types, and there is none when `g0` has no such cycle.
     */
    method DedupRefType(ghost g0: Graph, typeId: nat) returns (r: int)
      requires RefReady(g0) && typeId < |types|
      modifies `types, `canon, `table, `refRank
      ensures RefReady(g0)
      ensures RefStep(old(types), old(canon), types, canon, |canon|)
      ensures r >= 0 ==> r < |types| && IsMapped(canon, typeId) && r == Root(canon, typeId) && canon[r] == r
      ensures r >= 0 ==> NoNewProgress(old(canon), canon)
      ensures r < 0 ==> r == ELOOP && !IsMapped(old(canon), typeId)
      ensures forall rank: seq<nat> :: |rank| == |g0| && RefRanked(g0, rank) && RanksAbove(old(canon), rank, typeId) ==> r >= 0
      decreases Pending(canon), 0
    {
      hide WellFormed, Forest, LinksOk, TableOk, Indexed, UniqueRecords, EnumsApart, Redirected, SoundMap, View, Meant, RefsPending, RefsResolved, LinksMapped,
        DoneRanked, RefRanked, AllSelfMapped, Fresh;
      PendingFacts(g0, types, canon, typeId);
      if canon[typeId] == IN_PROGRESS_ID {
        assert forall rank: seq<nat> :: |rank| == |canon| ==> !RanksAbove(canon, rank, typeId);
        return ELOOP;
      }
      if canon[typeId] <= MAX_NR_TYPES {
        r := ResolveTypeId(typeId);
        MappedRoot(canon, typeId);
        return;
      }
      MarkInProgress(g0, typeId);
      assert typeId in Pending(old(canon)) && Pending(canon) < Pending(old(canon));
      r := RewriteRefs(g0, typeId);
      if r < 0 { return; }
      r := SettleRef(g0, typeId);
    }

    /** Resolves the references of a type in progress, in the order the source visits them. */
    method RewriteRefs(ghost g0: Graph, typeId: nat) returns (r: int)
      requires RefReady(g0) && typeId < |types|
      requires canon[typeId] == IN_PROGRESS_ID && types[typeId] == g0[typeId]
      modifies `types, `canon, `table, `refRank
      ensures RefReady(g0) && canon[typeId] == IN_PROGRESS_ID
      ensures RefStep(old(types), old(canon), types, canon, typeId)
      ensures r >= 0 ==> AllSelfMapped(canon, types[typeId].refs) && NoNewProgress(old(canon), canon)
      ensures r >= 0 ==> forall j :: 0 <= j < |g0[typeId].refs| ==> IsMapped(canon, g0[typeId].refs[j])
      ensures r < 0 ==> r == ELOOP
      ensures forall rank: seq<nat> :: |rank| == |g0| && RefRanked(g0, rank) && RanksAboveBut(old(canon), rank, typeId) ==> r >= 0
      decreases Pending(canon), 1
    {
      hide WellFormed, Forest, LinksOk, TableOk, Indexed, UniqueRecords, EnumsApart, Redirected, SoundMap, View, Meant, RefsPending, RefsResolved, LinksMapped,
        DoneRanked, RefRanked, RanksAbove, RanksAboveBut, AllSelfMapped, RefStep, NoNewProgress, Fresh, Pending, RefsVisited;
      var isArray, n := types[typeId].Kind() == Array, |types[typeId].refs|;
      PendingFacts(g0, types, canon, typeId);
      VisitStart(g0, types, canon, typeId, isArray);
      var k := 0;
      while k < n
        invariant typeId < |types| == |g0| == |canon|
        invariant 0 <= k <= n == |types[typeId].refs| == |g0[typeId].refs|
        invariant RefReady(g0) && canon[typeId] == IN_PROGRESS_ID
        invariant RefStep(old(types), old(canon), types, canon, typeId) && NoNewProgress(old(canon), canon)
        invariant Pending(canon) <= Pending(old(canon))
        invariant RefsVisited(g0, types, canon, typeId, isArray, k)
      {
        var j := VisitIndex(n, isArray, k);
        VisitFacts(g0, types, canon, typeId, isArray, k);
        var refId := types[typeId].refs[j];
        PendingFacts(g0, types, canon, refId);
        PendingFacts(g0, types, canon, typeId);
        if !IsMapped(canon, refId) {
          forall rank: seq<nat> | |rank| == |g0| && RefRanked(g0, rank) && RanksAboveBut(old(canon), rank, typeId)
            ensures RanksAbove(canon, rank, refId) {
            RanksKept(g0, old(canon), canon, rank, typeId, j);
          }
        }
        ghost var g1, m1 := types, canon;
        var ref := DedupRefType(g0, refId);
        StepTrans(old(types), old(canon), g1, m1, types, canon, typeId);
        if ref < 0 { return ref; }
        VisitStep(g0, g1, m1, types, canon, typeId, isArray, k, ref);
        ProgressTrans(old(canon), m1, canon);
        StepRewrite(old(types), old(canon), types, canon, typeId, types[typeId].(refs := types[typeId].refs[j := ref]));
        RewriteRef(g0, typeId, j, ref);
        k := k + 1;
      }
      VisitDone(g0, types, canon, typeId, isArray);
      return 0;
    }

    /** Succeeds exactly when no cycle consists of reference types only. */
    method DedupRefTypes(ghost g0: Graph) returns (r: int)
      requires RefReady(g0)
      requires forall i :: 0 <= i < |canon| ==> canon[i] != IN_PROGRESS_ID
      modifies `types, `canon, `table, `refRank
      ensures RefReady(g0)
      ensures r == 0 || r == ELOOP
      ensures r == 0 <==> RefAcyclic(g0)
      ensures |canon| == |old(canon)| && forall i :: 0 <= i < |canon| && old(canon)[i] != UNPROCESSED_ID ==> canon[i] == old(canon)[i]
      ensures r == 0 ==> RefRanked(types, refRank) && forall i :: 0 <= i < |canon| ==> IsMapped(canon, i)
    {
      hide WellFormed, Forest, LinksOk, TableOk, Indexed, UniqueRecords, EnumsApart, Redirected, SoundMap, View, Meant, RefsPending, RefsResolved, LinksMapped,
        DoneRanked, RefRanked;
      var i := 1;
      while i < |types|
        invariant 1 <= i <= |types| == |canon| == |g0|
        invariant RefReady(g0)
        invariant |canon| == |old(canon)| && forall j :: 0 <= j < |canon| && old(canon)[j] != UNPROCESSED_ID ==> canon[j] == old(canon)[j]
        invariant forall j :: 0 <= j < |canon| ==> canon[j] != IN_PROGRESS_ID
        invariant forall j :: 0 <= j < i ==> IsMapped(canon, j)
      {
        assert forall rank: seq<nat> :: |rank| == |g0| ==> RanksAbove(canon, rank, i);
        ghost var m1 := canon;
        r := DedupRefType(g0, i);
        if r < 0 { return; }
        forall j | 0 <= j < i ensures IsMapped(canon, j) { assert IsMapped(m1, j); }
        i := i + 1;
      }
      AllDoneRanked(g0, canon, refRank);
      AllDoneRanked(types, canon, refRank);
      return 0;
    }

    // ----- passes 5 and 6: compaction and remapping -----

    /**
     Copies the canonical records over the others in one pass over the same sequence and
     numbers them 1, 2, ... in order; nothing is overwritten before it is read.
     */
    method CompactTypes()
      requires |types| == |canon| == |hypotMap| == nrTypes + 1
      requires canon[0] == 0
      modifies `types, `hypotMap, `nrTypes
      ensures |types| == |old(types)| && CompactedTypes(old(types), canon, types, |canon|)
      ensures CompactMap(canon, hypotMap, |canon|)
      ensures nrTypes == |Kept(canon, |canon|)|
    {
      ResetHypotMap();
      CompactInit(types, canon, hypotMap);
      hide CompactedTypes, CompactMap, Kept;
      var nextTypeId := 1;
      var i := 1;
      while i <= nrTypes
        invariant 1 <= i <= nrTypes + 1 == |types| == |canon| == |hypotMap| && nrTypes == old(nrTypes)
        invariant CompactedTypes(old(types), canon, types, i) && CompactMap(canon, hypotMap, i)
        invariant nextTypeId == |Kept(canon, i)| + 1
      {
        CompactStep(old(types), canon, types, hypotMap, i);
        if canon[i] == i {
          types := types[nextTypeId := types[i]];
          hypotMap := hypotMap[i := nextTypeId];
          nextTypeId := nextTypeId + 1;
        }
        i := i + 1;
      }
      nrTypes := nextTypeId - 1;
    }

    method ResetHypotMap()
      requires |hypotMap| == nrTypes + 1
      modifies `hypotMap
      ensures |hypotMap| == nrTypes + 1 && hypotMap[0] == 0 && forall j :: 1 <= j < |hypotMap| ==> hypotMap[j] == UNPROCESSED_ID
    {
      hypotMap := hypotMap[0 := 0];
      var i := 1;
      while i <= nrTypes
        invariant 1 <= i <= nrTypes + 1 == |hypotMap|
        invariant hypotMap[0] == 0 && forall j :: 1 <= j < i ==> hypotMap[j] == UNPROCESSED_ID
      {
        hypotMap := hypotMap[i := UNPROCESSED_ID];
        i := i + 1;
      }
    }

    method RemapTypeId(typeId: nat) returns (r: int)
      requires Forest(canon) && typeId < |canon| <= MAX_NR_TYPES + 1 && CompactMap(canon, hypotMap, |canon|)
      ensures canon[Root(canon, typeId)] == Root(canon, typeId) ==> r == FinalId(canon, typeId)
      ensures canon[Root(canon, typeId)] != Root(canon, typeId) ==> r == EINVAL
    {
      var resolved := ResolveTypeId(typeId);
      if hypotMap[resolved] > MAX_NR_TYPES { return EINVAL; }
      r := hypotMap[resolved];
    }

    method RemapType(id: nat) returns (r: int)
      requires |canon| <= MAX_NR_TYPES + 1 && AllCanonical(canon) && CompactMap(canon, hypotMap, |canon|)
      requires id < |types| && RefsBelow(types[id], |canon|)
      modifies `types
      ensures r == 0 && |types| == |old(types)|
      ensures types == old(types)[id := types[id]] && RemappedUpTo(canon, old(types)[id], types[id], |old(types)[id].refs|)
    {
      var t := types[id];
      var k := 0;
      while k < |t.refs|
        invariant 0 <= k <= |t.refs| && id < |types| == |old(types)|
        invariant types == old(types)[id := types[id]] && RemappedUpTo(canon, t, types[id], k)
      {
        var newId := RemapTypeId(types[id].refs[k]);
        if newId < 0 { return newId; }
        types := types[id := types[id].(refs := types[id].refs[k := newId])];
        k := k + 1;
      }
      return 0;
    }

    /** Rewrites all references to new ids; every id resolves to a canonical type, so this never fails. */
    method RemapTypes(ghost g: Graph) returns (r: int)
      requires WellFormed(g) && |g| == |canon| == |types| <= MAX_NR_TYPES + 1
      requires AllCanonical(canon) && CompactMap(canon, hypotMap, |canon|)
      requires CompactedTypes(g, canon, types, |canon|) && nrTypes == |Kept(canon, |canon|)|
      modifies `types
      ensures r == 0
      ensures nrTypes + 1 <= |types| && Collapsed(g, canon, types[..nrTypes + 1])
    {
      RemapStart(g, canon, types);
      var i := 1;
      while i <= nrTypes
        invariant 1 <= i <= nrTypes + 1
        invariant RemappedTypes(g, canon, types, i)
      {
        ghost var out := types;
        ghost var ids := Kept(canon, |canon|);
        assert types[(i - 1) + 1] == g[ids[i - 1]];
        r := RemapType(i);
        RemapStep(g, canon, out, i, types[i]);
        if r < 0 { return; }
        i := i + 1;
      }
      RemapFinish(g, canon, types);
      return 0;
    }

    // ----- all type passes -----

    constructor (g: Graph, hash: BtfType -> int, noFwd: bool)
      requires WellFormed(g) && |g| <= MAX_NR_TYPES + 1
      ensures types == g && this.hash == hash && this.noFwd == noFwd
      ensures Ready() && canon == InitialMap(g)
    {
      this.hash := hash;
      this.noFwd := noFwd;
      types := g;
      canon := InitialMap(g);
      hypotMap := seq(|g|, i => UNPROCESSED_ID);
      hypotList := [];
      table := map[];
      nrTypes := |g| - 1;
      refRank, verdicts, primMap, structMap := [], [], [], [];
      new;
      InitialStage(g, hash, noFwd);
    }

    /** Passes 2 and 3. */
    method MapStructs() returns (r: int)
      requires Ready() && canon == InitialMap(types)
      modifies this
      ensures types == old(types) && r in {0, EINVAL} && (r == EINVAL ==> DataClash(types))
      ensures r == 0 ==> Ready() && structMap == canon && |types| == |verdicts| == |primMap| && PrimsMapped(types, primMap)
      ensures r == 0 ==> SettledUpTo(types, noFwd, hash, primMap, canon, verdicts, |types|)
    {
      hide Ready, PrimsMapped, SettledUpTo, DataClash, WellFormed, Forest, InitialMap, LinksMapped, PrimsUpTo, StageOk, RefsUntouched;
      ReadyShape();
      InitialStage(types, hash, noFwd);
      InitialPrims(types);
      DedupPrimTypes();
      primMap := canon;
      ReadyShape();
      r := DedupStructTypes();
      structMap := canon;
      ReadyShape();
    }

    /** Passes 2 to 4: every type is mapped to a canonical one. */
    method MapTypes(ghost g0: Graph) returns (r: int)
      requires Ready() && canon == InitialMap(types) && types == g0
      modifies this
      ensures r in {0, EINVAL, ELOOP}
      ensures r == 0 ==> |hypotMap| == |canon| == nrTypes + 1 && Finished(g0, types, noFwd, hash, primMap, structMap, canon, verdicts, refRank)
      ensures (r == 0 ==> RefAcyclic(g0)) && (r == ELOOP ==> !RefAcyclic(g0)) && (r == EINVAL ==> DataClash(g0))
    {
      hide WellFormed, Forest, LinksOk, TableOk, Indexed, UniqueRecords, EnumsApart, ViewOk, View, Meant, HypotOk, RefsUntouched,
        LinksMapped, RefsPending, RefsResolved, DoneRanked, RefAcyclic, DataClash, RefRanked, SettledUpTo, PrimsMapped, InitialMap, StructsStay, Finished;
      r := MapStructs();
      if r < 0 { return; }
      ghost var ms := canon;
      refRank := seq(|types|, i => 0);
      StartPass(g0, noFwd, hash, primMap, canon, verdicts, refRank);
      r := DedupRefTypes(g0);
      if r < 0 { return; }
      StaysBy(g0, ms, canon);
      FinishedBy(g0, types, noFwd, hash, primMap, ms, canon, verdicts, refRank);
    }

    /**
     Runs the type passes. On success `final[i]` is the id that input type `i` is remapped to and `kept[p]` the input
     type whose record became output type `p`.

     What types mean is kept: without forward resolution every input type is bisimilar to the output type it is
     remapped to, and with it they are bisimilar in the view by name, if forward declarations have names. Nothing is
     kept twice: no two primitive or reference types of the output have the same record, no two structs or unions come
     from types with the same members, and no enum could stand for another. Over clean input, two types get one id
     exactly if they mean the same. Forward declarations that a successful check faced with a struct or union end as one.

     It succeeds exactly when no cycle consists of reference types only, unless types refer to variables or data
     sections that share a name; the output has no such cycle either.
     */
    method Dedup() returns (r: int, ghost final: seq<nat>, ghost kept: seq<nat>)
      requires Ready() && canon == InitialMap(types)
      modifies this
      ensures r in {0, EINVAL, ELOOP}
      ensures r == 0 ==> nrTypes + 1 <= |types| && WellFormed(types[..nrTypes + 1])
      ensures r == 0 ==> |final| == |old(types)| && forall i :: 0 <= i < |final| ==> final[i] <= nrTypes
      ensures r == 0 && Meant(old(types), noFwd) ==>
                forall i :: 0 <= i < |final| ==> Bisimilar(View(old(types), noFwd), i, View(types[..nrTypes + 1], noFwd), final[i])
      ensures r == 0 ==> KeptFrom(old(types), types[..nrTypes + 1], final, kept) && TwinFree(old(types), hash, kept)
      ensures r == 0 ==> NoDuplicates(types[..nrTypes + 1], FwdsPlain(old(types)))
      ensures r == 0 && !noFwd ==> EnumsResolved(types[..nrTypes + 1], hash)
      ensures r == 0 && Clean(old(types), noFwd, hash) ==> Quotient(old(types), noFwd, final)
      ensures r == 0 ==> FwdsEnd(old(types), types[..nrTypes + 1], final, verdicts)
      ensures r == 0 ==> RefAcyclic(old(types)) && RefAcyclic(types[..nrTypes + 1])
      ensures (r == ELOOP ==> !RefAcyclic(old(types))) && (r == EINVAL ==> DataClash(old(types)))
      ensures !DataClash(old(types)) ==> (r == 0 <==> RefAcyclic(old(types)))
    {
      hide WellFormed, Forest, LinksOk, TableOk, Indexed, UniqueRecords, EnumsApart, ViewOk, View, Meant, HypotOk, RefsUntouched, LinksMapped,
        RefsPending, RefsResolved, DoneRanked, RefAcyclic, AllCanonical, CompactedTypes, CompactMap, Collapsed, NoDuplicates, DataClash, RefRanked,
        PrimsMapped, SettledUpTo, StructsStay, KeptFrom, TwinFree, EnumsResolved, Clean, Quotient, FwdsEnd, FwdsPlain, Bisimilar;
      ghost var g0 := types;
      final, kept := [], [];
      r := MapTypes(g0);
      if r < 0 { return; }
      ghost var g := types;
      AllCanonicalForest(canon);
      CompactTypes();
      r := RemapTypes(g);
      final, kept := FinalIds(canon), KeptIds(canon);
      DedupResult(g0, g, canon, types[..nrTypes + 1], noFwd, refRank);
      UnitResult(g0, g, noFwd, hash, primMap, structMap, canon, verdicts, refRank, types[..nrTypes + 1]);
    }
  }
}
