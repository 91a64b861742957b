/**
 The search of the BTF-to-C dumper (btf_dump_order_type in libbpf/src/btf_dump.c) as a function: what one call
 returns and leaves behind, if at most so many calls are nested. A call whose value is None for every
 number of nested calls never returns.
 */
module DumpSearch {
  import opened Machine
  import opened BtfGraph
  import BtfStages

  datatype OrderState = NotOrdered | Ordering | Ordered

  /** Kinds the search passes through on its way to a definition. */
  predicate IsLink(k: Kind) {
    k == Ptr || k == Array || k == Typedef || k == Volatile || k == Const || k == Restrict || k == FuncProto
  }

  /** The types the search visits next. An array's index type is not among them. */
  function Next(t: BtfType): seq<nat>
    requires RecordOk(t)
  {
    if t.Kind() == Array then [t.refs[1]]
    else if IsLink(t.Kind()) || IsComposite(t.Kind()) then t.refs
    else []
  }

  predicate NamedComposite(t: BtfType) { IsComposite(t.Kind()) && t.nameOff != 0 }

  // ----- states -----

  ghost predicate OnlyComposites(g: Graph, s: seq<OrderState>)
    requires |s| == |g|
  {
    forall i :: 0 <= i < |g| && s[i] == Ordering ==> IsComposite(g[i].Kind())
  }

  /** What a visit may change: states only advance, the queue only grows. A visit without error leaves no type ORDERING. */
  ghost predicate Progress(s0: seq<OrderState>, order0: seq<nat>, s: seq<OrderState>, order: seq<nat>, r: int) {
    && |s| == |s0| && order0 <= order
    && (forall i :: 0 <= i < |s| ==> StateKept(s0[i], s[i]))
    && (r >= 0 ==> forall i :: 0 <= i < |s| && s[i] == Ordering ==> s0[i] == Ordering)
  }

  predicate StateKept(a: OrderState, b: OrderState) { a != NotOrdered ==> b == a }

  lemma ProgressThen(s0: seq<OrderState>, o0: seq<nat>, s1: seq<OrderState>, o1: seq<nat>, r1: int, s2: seq<OrderState>, o2: seq<nat>, r2: int)
    requires Progress(s0, o0, s1, o1, r1) && Progress(s1, o1, s2, o2, r2) && r1 >= 0
    ensures Progress(s0, o0, s2, o2, r2)
  {
    forall i | 0 <= i < |s2| ensures StateKept(s0[i], s2[i]) { assert StateKept(s0[i], s1[i]) && StateKept(s1[i], s2[i]); }
  }

  // ----- termination -----

  ghost predicate LinkRanked(g: Graph, rank: seq<nat>)
    requires WellFormed(g)
  {
    |rank| == |g| && forall i :: 0 <= i < |g| && IsLink(g[i].Kind()) ==> LinkAbove(g, rank, i)
  }

  ghost predicate LinkAbove(g: Graph, rank: seq<nat>, i: nat)
    requires WellFormed(g) && |rank| == |g| && i < |g|
  {
    forall j :: 0 <= j < |Next(g[i])| && IsLink(g[Next(g[i])[j]].Kind()) ==> rank[Next(g[i])[j]] < rank[i]
  }

  /** Every cycle of the type graph that the search could follow passes through a struct or union. */
  ghost predicate LinkAcyclic(g: Graph)
    requires WellFormed(g)
  {
    exists rank: seq<nat> :: LinkRanked(g, rank)
  }

  /** Deduplicated types never make the search run forever. */
  lemma RefAcyclicLinks(g: Graph)
    requires WellFormed(g) && BtfStages.RefAcyclic(g)
    ensures LinkAcyclic(g)
  {
    var rank: seq<nat> :| |rank| == |g| && BtfStages.RefRanked(g, rank);
    forall i | 0 <= i < |g| && IsLink(g[i].Kind()) ensures LinkAbove(g, rank, i) {
      var t := g[i];
      assert RecordOk(t);
      if t.Kind() == Array { assert IsLink(g[t.refs[1]].Kind()) ==> rank[t.refs[1]] < rank[i]; }
    }
    assert LinkRanked(g, rank);
  }

  ghost function Depth(g: Graph, rank: seq<nat>, id: nat): nat
    requires |rank| == |g| && id < |g|
  {
    if IsLink(g[id].Kind()) then rank[id] + 1 else 0
  }

  lemma NextShallower(g: Graph, rank: seq<nat>, id: nat, j: nat)
    requires WellFormed(g) && LinkRanked(g, rank) && id < |g| && IsLink(g[id].Kind()) && j < |Next(g[id])|
    ensures Next(g[id])[j] < |g| && Depth(g, rank, Next(g[id])[j]) < Depth(g, rank, id)
  {
    assert LinkAbove(g, rank, id);
    assert RecordOk(g[id]) && RefsBelow(g[id], |g|);
  }

  // ----- when the search cannot fail -----

  /** Levels of a visit that has not, or has, gone through a pointer. */
  datatype Levels = Levels(direct: seq<nat>, behind: seq<nat>)

  ghost function Level(lv: Levels, id: nat, throughPtr: bool): nat
    requires id < |lv.direct| == |lv.behind|
  {
    if throughPtr then lv.behind[id] else lv.direct[id]
  }

  ghost predicate LevelOk(g: Graph, lv: Levels, id: nat)
    requires WellFormed(g) && id < |g| == |lv.direct| == |lv.behind|
  {
    && (IsComposite(g[id].Kind()) && g[id].nameOff == 0 ==> lv.direct[id] <= lv.behind[id])
    && forall j :: 0 <= j < |Next(g[id])| ==> StepOk(g, lv, id, Next(g[id])[j])
  }

  ghost predicate StepOk(g: Graph, lv: Levels, id: nat, c: nat)
    requires id < |g| == |lv.direct| == |lv.behind|
  {
    c < |g| &&
    if IsComposite(g[id].Kind()) then lv.direct[c] < lv.direct[id]
    else if g[id].Kind() == Ptr then lv.behind[c] <= lv.direct[id] && lv.behind[c] <= lv.behind[id]
    else lv.direct[c] <= lv.direct[id] && lv.behind[c] <= lv.behind[id]
  }

  /** No struct or union needs its own definition first: following members, and pointers only to anonymous
      structs and unions, never comes back. */
  ghost predicate Leveled(g: Graph, lv: Levels)
    requires WellFormed(g)
  {
    |lv.direct| == |lv.behind| == |g| && forall id :: 0 <= id < |g| ==> LevelOk(g, lv, id)
  }

  ghost predicate Definable(g: Graph)
    requires WellFormed(g)
  {
    exists lv: Levels :: Leveled(g, lv)
  }

  /** All types being ordered are at a higher level than this visit. */
  ghost predicate Below(g: Graph, s: seq<OrderState>, lv: Levels, id: nat, throughPtr: bool)
    requires WellFormed(g) && |s| == |g| && id < |g|
  {
    Leveled(g, lv) && forall i :: 0 <= i < |g| && s[i] == Ordering ==> lv.direct[i] > Level(lv, id, throughPtr)
  }

  lemma LinkBelow(g: Graph, s0: seq<OrderState>, o0: seq<nat>, s: seq<OrderState>, o: seq<nat>, r: int, lv: Levels, id: nat, j: nat, throughPtr: bool)
    requires WellFormed(g) && |s0| == |s| == |g| && id < |g| && IsLink(g[id].Kind()) && j < |Next(g[id])| && Next(g[id])[j] < |g|
    requires Progress(s0, o0, s, o, r) && r >= 0 && Below(g, s0, lv, id, throughPtr)
    ensures Below(g, s, lv, Next(g[id])[j], throughPtr || g[id].Kind() == Ptr)
  {
    assert LevelOk(g, lv, id);
    assert StepOk(g, lv, id, Next(g[id])[j]);
  }

  lemma MemberBelow(g: Graph, s0: seq<OrderState>, o0: seq<nat>, s: seq<OrderState>, o: seq<nat>, r: int, lv: Levels, id: nat, j: nat, throughPtr: bool)
    requires WellFormed(g) && |s0| == |s| == |g| && id < |g| && IsComposite(g[id].Kind()) && j < |g[id].refs| && g[id].refs[j] < |g|
    requires Progress(s0[id := Ordering], o0, s, o, r) && r >= 0 && Below(g, s0, lv, id, throughPtr)
    requires !throughPtr || g[id].nameOff == 0
    ensures Below(g, s, lv, g[id].refs[j], false)
  {
    assert LevelOk(g, lv, id);
    assert StepOk(g, lv, id, Next(g[id])[j]);
  }

  lemma NotBelow(g: Graph, s: seq<OrderState>, lv: Levels, id: nat, throughPtr: bool)
    requires WellFormed(g) && |s| == |g| && id < |g| && IsComposite(g[id].Kind()) && s[id] == Ordering
    requires !throughPtr || g[id].nameOff == 0
    ensures !Below(g, s, lv, id, throughPtr)
  {
    if Leveled(g, lv) { assert LevelOk(g, lv, id); }
  }

  lemma NoProgress(s: seq<OrderState>, o: seq<nat>, r: int)
    ensures Progress(s, o, s, o, r)
  {
  }

  lemma BelowKept(g: Graph, s0: seq<OrderState>, o0: seq<nat>, s: seq<OrderState>, o: seq<nat>, r: int, lv: Levels, id: nat, throughPtr: bool)
    requires WellFormed(g) && |s0| == |s| == |g| && id < |g|
    requires Progress(s0, o0, s, o, r) && r >= 0 && Below(g, s0, lv, id, throughPtr)
    ensures Below(g, s, lv, id, throughPtr)
  {
  }

  ghost function UnvisitedIn(g: Graph, s: seq<OrderState>): set<nat>
    requires |s| == |g|
  {
    set i: nat | i < |g| && IsComposite(g[i].Kind()) && s[i] == NotOrdered
  }

  lemma UnvisitedLess(g: Graph, s0: seq<OrderState>, id: nat)
    requires |s0| == |g| && id < |g| && IsComposite(g[id].Kind()) && s0[id] == NotOrdered
    ensures UnvisitedIn(g, s0[id := Ordering]) < UnvisitedIn(g, s0)
  {
    assert id in UnvisitedIn(g, s0) && id !in UnvisitedIn(g, s0[id := Ordering]);
  }

  lemma MarkProgress(s0: seq<OrderState>, o0: seq<nat>, s: seq<OrderState>, o: seq<nat>, o': seq<nat>, r: int, id: nat)
    requires id < |s0| && s0[id] == NotOrdered && Progress(s0, o0, s, o, r) && o <= o'
    ensures Progress(s0, o0, s[id := Ordered], o', r)
  {
  }

  lemma ProgressResult(s0: seq<OrderState>, o0: seq<nat>, s: seq<OrderState>, o: seq<nat>, r: int, r': int)
    requires Progress(s0, o0, s, o, r) && r >= 0
    ensures Progress(s0, o0, s, o, r')
  {
  }

  lemma MembersAre(g: Graph, id: nat)
    requires WellFormed(g) && id < |g| && IsComposite(g[id].Kind())
    ensures RecordOk(g[id]) && RefsBelow(g[id], |g|) && Next(g[id]) == g[id].refs
    ensures forall k :: 0 <= k < |g[id].refs| ==> g[id].refs[k] < |g|
  {
  }

  lemma ParamsAre(g: Graph, id: nat)
    requires WellFormed(g) && id < |g| && g[id].Kind() == FuncProto
    ensures RecordOk(g[id]) && RefsBelow(g[id], |g|) && Next(g[id]) == g[id].refs
    ensures forall k :: 0 <= k < |g[id].refs| ==> g[id].refs[k] < |g|
  {
  }

  lemma MemberBelowIf(g: Graph, s0: seq<OrderState>, o0: seq<nat>, s: seq<OrderState>, o: seq<nat>, lv: Levels, id: nat, j: nat, throughPtr: bool)
    requires WellFormed(g) && |s0| == |s| == |g| && id < |g| && IsComposite(g[id].Kind()) && j < |g[id].refs|
    requires Progress(s0[id := Ordering], o0, s, o, 0) && (!throughPtr || g[id].nameOff == 0)
    ensures g[id].refs[j] < |g|
    ensures Below(g, s0, lv, id, throughPtr) ==> Below(g, s, lv, g[id].refs[j], false)
  {
    MembersAre(g, id);
    if Below(g, s0, lv, id, throughPtr) { MemberBelow(g, s0, o0, s, o, 0, lv, id, j, throughPtr); }
  }

  lemma LinkBelowIf(g: Graph, s0: seq<OrderState>, o0: seq<nat>, s: seq<OrderState>, o: seq<nat>, lv: Levels, id: nat, j: nat, throughPtr: bool)
    requires WellFormed(g) && |s0| == |s| == |g| && id < |g| && g[id].Kind() == FuncProto && j < |g[id].refs|
    requires Progress(s0, o0, s, o, 0)
    ensures g[id].refs[j] < |g|
    ensures Below(g, s0, lv, id, throughPtr) ==> Below(g, s, lv, g[id].refs[j], throughPtr)
  {
    ParamsAre(g, id);
    if Below(g, s0, lv, id, throughPtr) { LinkBelow(g, s0, o0, s, o, 0, lv, id, j, throughPtr); }
  }

  lemma EnteredProgress(s0: seq<OrderState>, o0: seq<nat>, s: seq<OrderState>, o: seq<nat>, r: int, id: nat)
    requires id < |s0| && s0[id] == NotOrdered && Progress(s0[id := Ordering], o0, s, o, r) && r < 0
    ensures Progress(s0, o0, s, o, r)
  {
    forall i | 0 <= i < |s| ensures StateKept(s0[i], s[i]) { assert StateKept(s0[id := Ordering][i], s[i]); }
  }

  // ----- one call -----

  /** What a call returns, and the states and the queue it leaves. */
  datatype Outcome = Outcome(r: int, s: seq<OrderState>, queue: seq<nat>)

  /** btf_dump_order_type with at most `fuel` nested calls. */
  ghost function Visit(g: Graph, referenced: seq<bool>, s: seq<OrderState>, q: seq<nat>, id: nat, throughPtr: bool, fuel: nat): (o: Option<Outcome>)
    requires WellFormed(g) && |s| == |referenced| == |g| && id < |g|
    ensures o.Some? ==> |o.value.s| == |g|
    decreases fuel, 0
  {
    var t := g[id];
    if fuel == 0 then None
    else if s[id] == Ordered then Some(Outcome(1, s, q))
    else if s[id] == Ordering then Some(Outcome(if NamedComposite(t) && throughPtr then 0 else ELOOP, s, q))
    else if t.Kind() == Unkn then Some(Outcome(EINVAL, s, q))
    else if t.Kind() == FuncProto then VisitAll(g, referenced, s, q, t.refs, throughPtr, false, fuel - 1)
    else if IsLink(t.Kind()) then
      var o := Visit(g, referenced, s, q, Next(t)[0], throughPtr || t.Kind() == Ptr, fuel - 1);
      if o == None then None else Some(AfterNext(o.value, t, id, throughPtr))
    else if IsComposite(t.Kind()) then
      if throughPtr && t.nameOff != 0 then Some(Outcome(0, s, q))
      else
        var o := VisitAll(g, referenced, s[id := Ordering], q, t.refs, false, false, fuel - 1);
        if o == None then None else Some(AfterMembers(o.value, t, id))
    else if t.Kind() == Enum || t.Kind() == Fwd then
      Some(Outcome(1, s[id := Ordered], if t.nameOff != 0 || !referenced[id] then q + [id] else q))
    else Some(Outcome(0, s[id := Ordered], q))
  }

  /** A pointer is ORDERED whatever comes of its target; a typedef is queued unless its type failed or is a weak link
      behind a pointer; arrays and modifiers pass on what they get. */
  function AfterNext(o: Outcome, t: BtfType, id: nat, throughPtr: bool): Outcome
    requires id < |o.s|
  {
    if t.Kind() == Ptr then Outcome(o.r, o.s[id := Ordered], o.queue)
    else if t.Kind() != Typedef || o.r < 0 || (throughPtr && o.r == 0) then o
    else Outcome(1, o.s[id := Ordered], o.queue + [id])
  }

  /** What is left ORDERED: a pointer whatever comes of its target, a type without references always, and a struct,
      union or typedef as soon as it answers with a strong link. */
  lemma VisitMarks(g: Graph, referenced: seq<bool>, s: seq<OrderState>, q: seq<nat>, id: nat, throughPtr: bool, fuel: nat)
    requires WellFormed(g) && |s| == |referenced| == |g| && id < |g| && s[id] == NotOrdered && g[id].Kind() != Unkn
    requires Visit(g, referenced, s, q, id, throughPtr, fuel).Some?
    ensures var o := Visit(g, referenced, s, q, id, throughPtr, fuel).value;
      (g[id].Kind() == Ptr || g[id].Kind() in {Kind.Int, Func, Var, Datasec, Enum, Fwd} ||
        (o.r == 1 && (IsComposite(g[id].Kind()) || g[id].Kind() == Typedef))) ==> o.s[id] == Ordered
  {
    if IsComposite(g[id].Kind()) && !(throughPtr && g[id].nameOff != 0) { VisitMembers(g, referenced, s, q, id, throughPtr, fuel); }
  }

  lemma VisitNext(g: Graph, referenced: seq<bool>, s: seq<OrderState>, q: seq<nat>, id: nat, throughPtr: bool, c: nat, fuel: nat)
    requires WellFormed(g) && |s| == |referenced| == |g| && id < |g| && s[id] == NotOrdered && fuel > 0
    requires IsLink(g[id].Kind()) && g[id].Kind() != FuncProto && Next(g[id]) == [c] && c < |g|
    ensures var o := Visit(g, referenced, s, q, c, throughPtr || g[id].Kind() == Ptr, fuel - 1);
      Visit(g, referenced, s, q, id, throughPtr, fuel) == if o == None then None else Some(AfterNext(o.value, g[id], id, throughPtr))
  {
  }

  lemma VisitLeaf(g: Graph, referenced: seq<bool>, s: seq<OrderState>, q: seq<nat>, id: nat, throughPtr: bool, fuel: nat)
    requires WellFormed(g) && |s| == |referenced| == |g| && 0 < id < |g| && s[id] == NotOrdered && fuel > 0
    requires g[id].Kind() in {Kind.Int, Func, Var, Datasec}
    ensures Visit(g, referenced, s, q, id, throughPtr, fuel) == Some(Outcome(0, s[id := Ordered], q))
  {
  }

  lemma VisitProto(g: Graph, referenced: seq<bool>, s: seq<OrderState>, q: seq<nat>, id: nat, throughPtr: bool, fuel: nat)
    requires WellFormed(g) && |s| == |referenced| == |g| && id < |g| && s[id] == NotOrdered && fuel > 0 && g[id].Kind() == FuncProto
    ensures Visit(g, referenced, s, q, id, throughPtr, fuel) == VisitAll(g, referenced, s, q, g[id].refs, throughPtr, false, fuel - 1)
  {
  }

  lemma VisitMembers(g: Graph, referenced: seq<bool>, s: seq<OrderState>, q: seq<nat>, id: nat, throughPtr: bool, fuel: nat)
    requires WellFormed(g) && |s| == |referenced| == |g| && id < |g| && s[id] == NotOrdered && fuel > 0 && IsComposite(g[id].Kind())
    requires !(throughPtr && g[id].nameOff != 0)
    ensures var o := VisitAll(g, referenced, s[id := Ordering], q, g[id].refs, false, false, fuel - 1);
      Visit(g, referenced, s, q, id, throughPtr, fuel) == if o == None then None else Some(AfterMembers(o.value, g[id], id))
  {
  }

  /** Visiting the rest of a row begins with its first type. */
  lemma VisitRest(g: Graph, referenced: seq<bool>, s: seq<OrderState>, q: seq<nat>, ids: seq<nat>, i: nat, throughPtr: bool, strong: bool, fuel: nat)
    requires WellFormed(g) && |s| == |referenced| == |g| && (forall k :: 0 <= k < |ids| ==> ids[k] < |g|) && i < |ids|
    ensures var o := Visit(g, referenced, s, q, ids[i], throughPtr, fuel);
      VisitAll(g, referenced, s, q, ids[i..], throughPtr, strong, fuel) ==
      if o == None || o.value.r < 0 then o
      else VisitAll(g, referenced, o.value.s, o.value.queue, ids[i + 1..], throughPtr, strong || o.value.r > 0, fuel)
  {
    hide Visit;
    assert ids[i..][0] == ids[i] && ids[i..][1..] == ids[i + 1..];
  }

  lemma VisitNone(g: Graph, referenced: seq<bool>, s: seq<OrderState>, q: seq<nat>, ids: seq<nat>, throughPtr: bool, strong: bool, fuel: nat)
    requires WellFormed(g) && |s| == |referenced| == |g| && forall k :: 0 <= k < |ids| ==> ids[k] < |g|
    ensures ids[0..] == ids && VisitAll(g, referenced, s, q, ids[|ids|..], throughPtr, strong, fuel) == Some(Outcome(if strong then 1 else 0, s, q))
  {
  }

  lemma OnlyNext(g: Graph, id: nat) returns (c: nat)
    requires WellFormed(g) && id < |g| && IsLink(g[id].Kind()) && g[id].Kind() != FuncProto
    ensures RecordOk(g[id]) && Next(g[id]) == [c] && c < |g|
  {
    assert RecordOk(g[id]) && RefsBelow(g[id], |g|);
    c := Next(g[id])[0];
  }

  function AfterMembers(o: Outcome, t: BtfType, id: nat): Outcome
    requires id < |o.s|
  {
    if o.r < 0 then o else Outcome(1, o.s[id := Ordered], if t.nameOff != 0 then o.queue + [id] else o.queue)
  }

  /** Visits types in a row until one fails. */
  ghost function VisitAll(g: Graph, referenced: seq<bool>, s: seq<OrderState>, q: seq<nat>, ids: seq<nat>, throughPtr: bool, strong: bool, fuel: nat)
    : (o: Option<Outcome>)
    requires WellFormed(g) && |s| == |referenced| == |g| && forall k :: 0 <= k < |ids| ==> ids[k] < |g|
    ensures o.Some? ==> |o.value.s| == |g|
    decreases fuel, |ids| + 1
  {
    if ids == [] then Some(Outcome(if strong then 1 else 0, s, q))
    else
      var o := Visit(g, referenced, s, q, ids[0], throughPtr, fuel);
      if o == None || o.value.r < 0 then o
      else VisitAll(g, referenced, o.value.s, o.value.queue, ids[1..], throughPtr, strong || o.value.r > 0, fuel)
  }

  lemma VisitAllHead(g: Graph, referenced: seq<bool>, s: seq<OrderState>, q: seq<nat>, ids: seq<nat>, throughPtr: bool, strong: bool, fuel: nat)
    requires WellFormed(g) && |s| == |referenced| == |g| && forall k :: 0 <= k < |ids| ==> ids[k] < |g|
    ensures VisitAll(g, referenced, s, q, ids, throughPtr, strong, fuel) ==
      if ids == [] then Some(Outcome(if strong then 1 else 0, s, q))
      else
        var o := Visit(g, referenced, s, q, ids[0], throughPtr, fuel);
        if o == None || o.value.r < 0 then o
        else VisitAll(g, referenced, o.value.s, o.value.queue, ids[1..], throughPtr, strong || o.value.r > 0, fuel)
  {
    hide Visit, WellFormed;
  }

  lemma {:induction false} MoreFuel(g: Graph, referenced: seq<bool>, s: seq<OrderState>, q: seq<nat>, id: nat, throughPtr: bool, fuel: nat, fuel': nat)
    requires WellFormed(g) && |s| == |referenced| == |g| && id < |g| && fuel <= fuel'
    requires Visit(g, referenced, s, q, id, throughPtr, fuel).Some?
    ensures Visit(g, referenced, s, q, id, throughPtr, fuel') == Visit(g, referenced, s, q, id, throughPtr, fuel)
    decreases fuel, 0
  {
    var t := g[id];
    if s[id] == NotOrdered && fuel > 0 {
      if t.Kind() == FuncProto {
        MoreFuelParams(g, referenced, s, q, id, throughPtr, fuel, fuel');
      } else if IsLink(t.Kind()) {
        MoreFuelNext(g, referenced, s, q, id, throughPtr, fuel, fuel');
      } else if IsComposite(t.Kind()) && !(throughPtr && t.nameOff != 0) {
        MoreFuelMembers(g, referenced, s, q, id, throughPtr, fuel, fuel');
      }
    }
  }

  lemma {:induction false} MoreFuelMembers(g: Graph, referenced: seq<bool>, s: seq<OrderState>, q: seq<nat>, id: nat, throughPtr: bool, fuel: nat, fuel': nat)
    requires WellFormed(g) && |s| == |referenced| == |g| && id < |g| && 0 < fuel <= fuel' && s[id] == NotOrdered
    requires IsComposite(g[id].Kind()) && !(throughPtr && g[id].nameOff != 0) && Visit(g, referenced, s, q, id, throughPtr, fuel).Some?
    ensures Visit(g, referenced, s, q, id, throughPtr, fuel') == Visit(g, referenced, s, q, id, throughPtr, fuel)
    decreases fuel - 1, |g[id].refs| + 2
  {
    hide Visit, VisitAll, WellFormed, AfterMembers;
    MembersAre(g, id);
    VisitMembers(g, referenced, s, q, id, throughPtr, fuel);
    VisitMembers(g, referenced, s, q, id, throughPtr, fuel');
    MoreFuelAll(g, referenced, s[id := Ordering], q, g[id].refs, false, false, fuel - 1, fuel' - 1);
  }

  lemma {:induction false} MoreFuelParams(g: Graph, referenced: seq<bool>, s: seq<OrderState>, q: seq<nat>, id: nat, throughPtr: bool, fuel: nat, fuel': nat)
    requires WellFormed(g) && |s| == |referenced| == |g| && id < |g| && 0 < fuel <= fuel' && s[id] == NotOrdered
    requires g[id].Kind() == FuncProto && Visit(g, referenced, s, q, id, throughPtr, fuel).Some?
    ensures Visit(g, referenced, s, q, id, throughPtr, fuel') == Visit(g, referenced, s, q, id, throughPtr, fuel)
    decreases fuel - 1, |g[id].refs| + 2
  {
    hide *;
    ParamsAre(g, id);
    VisitProto(g, referenced, s, q, id, throughPtr, fuel);
    VisitProto(g, referenced, s, q, id, throughPtr, fuel');
    MoreFuelAll(g, referenced, s, q, g[id].refs, throughPtr, false, fuel - 1, fuel' - 1);
  }

  lemma {:induction false} MoreFuelNext(g: Graph, referenced: seq<bool>, s: seq<OrderState>, q: seq<nat>, id: nat, throughPtr: bool, fuel: nat, fuel': nat)
    requires WellFormed(g) && |s| == |referenced| == |g| && id < |g| && 0 < fuel <= fuel' && s[id] == NotOrdered
    requires IsLink(g[id].Kind()) && g[id].Kind() != FuncProto && Visit(g, referenced, s, q, id, throughPtr, fuel).Some?
    ensures Visit(g, referenced, s, q, id, throughPtr, fuel') == Visit(g, referenced, s, q, id, throughPtr, fuel)
    decreases fuel - 1, 1
  {
    hide Visit;
    var c := OnlyNext(g, id);
    VisitNext(g, referenced, s, q, id, throughPtr, c, fuel);
    VisitNext(g, referenced, s, q, id, throughPtr, c, fuel');
    MoreFuel(g, referenced, s, q, c, throughPtr || g[id].Kind() == Ptr, fuel - 1, fuel' - 1);
  }

  lemma {:induction false} MoreFuelAll(g: Graph, referenced: seq<bool>, s: seq<OrderState>, q: seq<nat>, ids: seq<nat>, throughPtr: bool, strong: bool,
                                       fuel: nat, fuel': nat)
    requires WellFormed(g) && |s| == |referenced| == |g| && fuel <= fuel' && forall k :: 0 <= k < |ids| ==> ids[k] < |g|
    requires VisitAll(g, referenced, s, q, ids, throughPtr, strong, fuel).Some?
    ensures VisitAll(g, referenced, s, q, ids, throughPtr, strong, fuel') == VisitAll(g, referenced, s, q, ids, throughPtr, strong, fuel)
    decreases fuel, |ids| + 1
  {
    if ids != [] {
      MoreFuel(g, referenced, s, q, ids[0], throughPtr, fuel, fuel');
      hide Visit;
      var o := Visit(g, referenced, s, q, ids[0], throughPtr, fuel).value;
      if o.r >= 0 { MoreFuelAll(g, referenced, o.s, o.queue, ids[1..], throughPtr, strong || o.r > 0, fuel, fuel'); }
    }
  }

  // ----- calls that return -----

  /** The call returns, with this outcome. */
  ghost predicate Yields(g: Graph, referenced: seq<bool>, s: seq<OrderState>, q: seq<nat>, id: nat, throughPtr: bool, o: Outcome)
    requires WellFormed(g) && |s| == |referenced| == |g| && id < |g|
  {
    exists fuel: nat :: Visit(g, referenced, s, q, id, throughPtr, fuel) == Some(o)
  }

  ghost predicate YieldsAll(g: Graph, referenced: seq<bool>, s: seq<OrderState>, q: seq<nat>, ids: seq<nat>, throughPtr: bool, strong: bool, o: Outcome)
    requires WellFormed(g) && |s| == |referenced| == |g| && forall k :: 0 <= k < |ids| ==> ids[k] < |g|
  {
    exists fuel: nat :: VisitAll(g, referenced, s, q, ids, throughPtr, strong, fuel) == Some(o)
  }

  /** A call has at most one outcome. */
  lemma YieldsOnce(g: Graph, referenced: seq<bool>, s: seq<OrderState>, q: seq<nat>, id: nat, throughPtr: bool, o: Outcome, o': Outcome)
    requires WellFormed(g) && |s| == |referenced| == |g| && id < |g|
    requires Yields(g, referenced, s, q, id, throughPtr, o) && Yields(g, referenced, s, q, id, throughPtr, o')
    ensures o == o'
  {
    hide Visit;
    var a: nat :| Visit(g, referenced, s, q, id, throughPtr, a) == Some(o);
    var b: nat :| Visit(g, referenced, s, q, id, throughPtr, b) == Some(o');
    if a <= b { MoreFuel(g, referenced, s, q, id, throughPtr, a, b); } else { MoreFuel(g, referenced, s, q, id, throughPtr, b, a); }
  }

  lemma YieldsNil(g: Graph, referenced: seq<bool>, s: seq<OrderState>, q: seq<nat>, throughPtr: bool, strong: bool)
    requires WellFormed(g) && |s| == |referenced| == |g|
    ensures YieldsAll(g, referenced, s, q, [], throughPtr, strong, Outcome(if strong then 1 else 0, s, q))
  {
    assert VisitAll(g, referenced, s, q, [], throughPtr, strong, 0) == Some(Outcome(if strong then 1 else 0, s, q));
  }

  lemma YieldsCons(g: Graph, referenced: seq<bool>, s: seq<OrderState>, q: seq<nat>, ids: seq<nat>, throughPtr: bool, strong: bool, o: Outcome, o': Outcome)
    requires WellFormed(g) && |s| == |referenced| == |g| && (forall k :: 0 <= k < |ids| ==> ids[k] < |g|) && ids != []
    requires Yields(g, referenced, s, q, ids[0], throughPtr, o) && |o.s| == |g|
    requires if o.r < 0 then o' == o else YieldsAll(g, referenced, o.s, o.queue, ids[1..], throughPtr, strong || o.r > 0, o')
    ensures YieldsAll(g, referenced, s, q, ids, throughPtr, strong, o')
  {
    hide Visit;
    var a: nat :| Visit(g, referenced, s, q, ids[0], throughPtr, a) == Some(o);
    if o.r < 0 {
      assert VisitAll(g, referenced, s, q, ids, throughPtr, strong, a) == Some(o');
    } else {
      var b: nat :| VisitAll(g, referenced, o.s, o.queue, ids[1..], throughPtr, strong || o.r > 0, b) == Some(o');
      var c := if a < b then b else a;
      MoreFuel(g, referenced, s, q, ids[0], throughPtr, a, c);
      MoreFuelAll(g, referenced, o.s, o.queue, ids[1..], throughPtr, strong || o.r > 0, b, c);
      assert VisitAll(g, referenced, s, q, ids, throughPtr, strong, c) == Some(o');
    }
  }

  /** Calls that make no further call. */
  lemma YieldsNow(g: Graph, referenced: seq<bool>, s: seq<OrderState>, q: seq<nat>, id: nat, throughPtr: bool, o: Outcome)
    requires WellFormed(g) && |s| == |referenced| == |g| && id < |g| && Visit(g, referenced, s, q, id, throughPtr, 1) == Some(o)
    ensures Yields(g, referenced, s, q, id, throughPtr, o)
  {
  }

  /** Calls that visit one type. */
  lemma YieldsNext(g: Graph, referenced: seq<bool>, s: seq<OrderState>, q: seq<nat>, id: nat, throughPtr: bool, c: nat, o: Outcome)
    requires WellFormed(g) && |s| == |referenced| == |g| && id < |g| && s[id] == NotOrdered
    requires IsLink(g[id].Kind()) && Next(g[id]) == [c] && c < |g| && g[id].Kind() != FuncProto && |o.s| == |g|
    requires Yields(g, referenced, s, q, c, throughPtr || g[id].Kind() == Ptr, o)
    ensures Yields(g, referenced, s, q, id, throughPtr, AfterNext(o, g[id], id, throughPtr))
  {
    hide Visit;
    var a: nat :| Visit(g, referenced, s, q, c, throughPtr || g[id].Kind() == Ptr, a) == Some(o);
    VisitNext(g, referenced, s, q, id, throughPtr, c, a + 1);
  }

  lemma YieldsProto(g: Graph, referenced: seq<bool>, s: seq<OrderState>, q: seq<nat>, id: nat, throughPtr: bool, o: Outcome)
    requires WellFormed(g) && |s| == |referenced| == |g| && id < |g| && s[id] == NotOrdered && g[id].Kind() == FuncProto
    requires YieldsAll(g, referenced, s, q, g[id].refs, throughPtr, false, o)
    ensures Yields(g, referenced, s, q, id, throughPtr, o)
  {
    var a: nat :| VisitAll(g, referenced, s, q, g[id].refs, throughPtr, false, a) == Some(o);
    assert Visit(g, referenced, s, q, id, throughPtr, a + 1) == Some(o);
  }

  lemma YieldsMembers(g: Graph, referenced: seq<bool>, s: seq<OrderState>, q: seq<nat>, id: nat, throughPtr: bool, o: Outcome)
    requires WellFormed(g) && |s| == |referenced| == |g| && id < |g| && s[id] == NotOrdered && IsComposite(g[id].Kind()) && |o.s| == |g|
    requires !(throughPtr && g[id].nameOff != 0)
    requires YieldsAll(g, referenced, s[id := Ordering], q, g[id].refs, false, false, o)
    ensures Yields(g, referenced, s, q, id, throughPtr, AfterMembers(o, g[id], id))
  {
    var a: nat :| VisitAll(g, referenced, s[id := Ordering], q, g[id].refs, false, false, a) == Some(o);
    assert Visit(g, referenced, s, q, id, throughPtr, a + 1) == Some(AfterMembers(o, g[id], id));
  }

  // ----- without cycles of links every call returns -----

  ghost predicate StatesAdvance(s: seq<OrderState>, s': seq<OrderState>) {
    |s'| == |s| && forall i :: 0 <= i < |s| && s'[i] == NotOrdered ==> s[i] == NotOrdered
  }

  lemma UnvisitedKept(g: Graph, s: seq<OrderState>, s': seq<OrderState>)
    requires |s| == |g| && StatesAdvance(s, s')
    ensures UnvisitedIn(g, s') <= UnvisitedIn(g, s)
  {
  }

  lemma {:induction false} Returns(g: Graph, referenced: seq<bool>, s: seq<OrderState>, q: seq<nat>, id: nat, throughPtr: bool, rank: seq<nat>)
    returns (o: Outcome)
    requires WellFormed(g) && |s| == |referenced| == |g| && id < |g| && LinkRanked(g, rank)
    ensures Yields(g, referenced, s, q, id, throughPtr, o) && StatesAdvance(s, o.s)
    decreases UnvisitedIn(g, s), Depth(g, rank, id), 1, 0
  {
    var t := g[id];
    if s[id] == NotOrdered && IsLink(t.Kind()) && t.Kind() != FuncProto {
      var c := OnlyNext(g, id);
      NextShallower(g, rank, id, 0);
      hide *;
      var o' := Returns(g, referenced, s, q, c, throughPtr || t.Kind() == Ptr, rank);
      YieldsNext(g, referenced, s, q, id, throughPtr, c, o');
      NextAdvances(s, o', t, id, throughPtr);
      o := AfterNext(o', t, id, throughPtr);
    } else if s[id] == NotOrdered && t.Kind() == FuncProto {
      ParamsAre(g, id);
      forall k | 0 <= k < |t.refs| ensures Depth(g, rank, t.refs[k]) < Depth(g, rank, id) { NextShallower(g, rank, id, k); }
      hide *;
      o := ReturnsAll(g, referenced, s, q, t.refs, throughPtr, false, rank, Depth(g, rank, id));
      YieldsProto(g, referenced, s, q, id, throughPtr, o);
    } else if s[id] == NotOrdered && IsComposite(t.Kind()) && !(throughPtr && t.nameOff != 0) {
      MembersAre(g, id);
      UnvisitedLess(g, s, id);
      var d := DepthBound(g, rank, t.refs);
      hide *;
      var o' := ReturnsAll(g, referenced, s[id := Ordering], q, t.refs, false, false, rank, d);
      YieldsMembers(g, referenced, s, q, id, throughPtr, o');
      MembersAdvance(s, o', t, id);
      o := AfterMembers(o', t, id);
    } else {
      o := Visit(g, referenced, s, q, id, throughPtr, 1).value;
      YieldsNow(g, referenced, s, q, id, throughPtr, o);
    }
  }

  lemma NextAdvances(s: seq<OrderState>, o: Outcome, t: BtfType, id: nat, throughPtr: bool)
    requires id < |s| && StatesAdvance(s, o.s)
    ensures StatesAdvance(s, AfterNext(o, t, id, throughPtr).s)
  {
  }

  lemma MembersAdvance(s: seq<OrderState>, o: Outcome, t: BtfType, id: nat)
    requires id < |s| && s[id] == NotOrdered && StatesAdvance(s[id := Ordering], o.s)
    ensures StatesAdvance(s, AfterMembers(o, t, id).s)
  {
  }

  lemma {:induction false} DepthBound(g: Graph, rank: seq<nat>, ids: seq<nat>) returns (d: nat)
    requires |rank| == |g| && forall k :: 0 <= k < |ids| ==> ids[k] < |g|
    ensures forall k :: 0 <= k < |ids| ==> Depth(g, rank, ids[k]) < d
    decreases |ids|
  {
    d := 0;
    if ids != [] {
      var n := |ids| - 1;
      d := DepthBound(g, rank, ids[..n]);
      forall k | 0 <= k < n ensures Depth(g, rank, ids[k]) < d { assert ids[..n][k] == ids[k]; }
      d := d + Depth(g, rank, ids[n]) + 1;
    }
  }

  lemma {:induction false} ReturnsAll(g: Graph, referenced: seq<bool>, s: seq<OrderState>, q: seq<nat>, ids: seq<nat>, throughPtr: bool, strong: bool,
                                      rank: seq<nat>, depth: nat)
    returns (o: Outcome)
    requires WellFormed(g) && |s| == |referenced| == |g| && LinkRanked(g, rank)
    requires forall k :: 0 <= k < |ids| ==> ids[k] < |g| && Depth(g, rank, ids[k]) < depth
    ensures YieldsAll(g, referenced, s, q, ids, throughPtr, strong, o) && StatesAdvance(s, o.s)
    decreases UnvisitedIn(g, s), depth, 0, |ids|
  {
    hide Yields, YieldsAll, LinkRanked, Depth;
    if ids == [] {
      o := Outcome(if strong then 1 else 0, s, q);
      YieldsNil(g, referenced, s, q, throughPtr, strong);
    } else {
      var o' := Returns(g, referenced, s, q, ids[0], throughPtr, rank);
      if o'.r < 0 {
        o := o';
      } else {
        UnvisitedKept(g, s, o'.s);
        o := ReturnsAll(g, referenced, o'.s, o'.queue, ids[1..], throughPtr, strong || o'.r > 0, rank, depth);
      }
      YieldsCons(g, referenced, s, q, ids, throughPtr, strong, o', o);
    }
  }

  // ----- with a cycle of links some call never returns, unless one fails -----

  /** Links each of which leads to another one of them. */
  ghost predicate Trap(g: Graph, trap: set<nat>)
    requires WellFormed(g)
  {
    forall c :: c in trap ==> c < |g| && IsLink(g[c].Kind()) && LeadsInto(g, c, trap)
  }

  ghost predicate LeadsInto(g: Graph, c: nat, trap: set<nat>)
    requires WellFormed(g) && c < |g|
  {
    exists j :: 0 <= j < |Next(g[c])| && Next(g[c])[j] in trap
  }

  /** The links outside `open` are ranked below `n`, after those they lead to. */
  ghost predicate PartRanked(g: Graph, open: set<nat>, rank: seq<nat>, n: nat)
    requires WellFormed(g)
  {
    |rank| == |g| && forall i :: 0 <= i < |g| && IsLink(g[i].Kind()) && i !in open ==> rank[i] < n && RankedAbove(g, open, rank, i)
  }

  ghost predicate RankedAbove(g: Graph, open: set<nat>, rank: seq<nat>, i: nat)
    requires WellFormed(g) && |rank| == |g| && i < |g|
  {
    forall j :: 0 <= j < |Next(g[i])| && IsLink(g[Next(g[i])[j]].Kind()) ==> Next(g[i])[j] !in open && rank[Next(g[i])[j]] < rank[i]
  }

  /** Either all links can be ranked or some of them form a trap. */
  lemma {:induction false} TrapOrRank(g: Graph, open: set<nat>, rank: seq<nat>, n: nat) returns (trap: set<nat>)
    requires WellFormed(g) && PartRanked(g, open, rank, n) && forall c :: c in open ==> c < |g| && IsLink(g[c].Kind())
    ensures Trap(g, trap) && (trap == {} ==> LinkAcyclic(g))
    decreases |open|
  {
    if exists c :: c in open && !LeadsInto(g, c, open) {
      var c :| c in open && !LeadsInto(g, c, open);
      RankOne(g, open, rank, n, c);
      trap := TrapOrRank(g, open - {c}, rank[c := n], n + 1);
    } else {
      trap := open;
      if open == {} { PartIsAll(g, rank, n); }
    }
  }

  lemma PartIsAll(g: Graph, rank: seq<nat>, n: nat)
    requires WellFormed(g) && PartRanked(g, {}, rank, n)
    ensures LinkAcyclic(g)
  {
    forall i | 0 <= i < |g| && IsLink(g[i].Kind()) ensures LinkAbove(g, rank, i) { assert RankedAbove(g, {}, rank, i); }
    assert LinkRanked(g, rank);
  }

  lemma RankOne(g: Graph, open: set<nat>, rank: seq<nat>, n: nat, c: nat)
    requires WellFormed(g) && PartRanked(g, open, rank, n) && c in open && c < |g| && IsLink(g[c].Kind()) && !LeadsInto(g, c, open)
    ensures PartRanked(g, open - {c}, rank[c := n], n + 1)
  {
    var open', rank' := open - {c}, rank[c := n];
    forall i | 0 <= i < |g| && IsLink(g[i].Kind()) && i !in open' ensures rank'[i] < n + 1 && RankedAbove(g, open', rank', i) {
      if i == c {
        forall j | 0 <= j < |Next(g[c])| && IsLink(g[Next(g[c])[j]].Kind())
          ensures Next(g[c])[j] !in open' && rank'[Next(g[c])[j]] < rank'[c] {
          assert Next(g[c])[j] !in open;
        }
      } else {
        assert RankedAbove(g, open, rank, i);
      }
    }
  }

  ghost predicate Untouched(s: seq<OrderState>, trap: set<nat>) {
    forall c :: c in trap ==> c < |s| && s[c] == NotOrdered
  }

  /** As long as nothing fails, a call that returns has not gone into a trap. */
  ghost predicate OutOf(g: Graph, s: seq<OrderState>, q: seq<nat>, o: Outcome, trap: set<nat>)
    requires 0 < |s| == |g|
  {
    o.r >= 0 && Progress(s, q, o.s, o.queue, o.r) && Untouched(o.s, trap) && o.s[0] == Ordered && OnlyComposites(g, o.s)
  }

  lemma {:induction false} NeverInto(g: Graph, referenced: seq<bool>, s: seq<OrderState>, q: seq<nat>, id: nat, throughPtr: bool, fuel: nat,
                                     trap: set<nat>, lv: Levels)
    requires WellFormed(g) && |s| == |referenced| == |g| && id < |g| && Trap(g, trap) && Untouched(s, trap)
    requires s[0] == Ordered && OnlyComposites(g, s) && Below(g, s, lv, id, throughPtr)
    ensures var o := Visit(g, referenced, s, q, id, throughPtr, fuel); o.Some? ==> id !in trap && OutOf(g, s, q, o.value, trap)
    decreases fuel, 0
  {
    var t := g[id];
    NoProgress(s, q, 0);
    if fuel == 0 || s[id] == Ordered {
    } else if s[id] == Ordering {
      if !(NamedComposite(t) && throughPtr) { NotBelow(g, s, lv, id, throughPtr); }
    } else if IsLink(t.Kind()) && t.Kind() != FuncProto {
      NeverIntoNext(g, referenced, s, q, id, throughPtr, fuel, trap, lv);
    } else if t.Kind() == FuncProto {
      NeverIntoParams(g, referenced, s, q, id, throughPtr, fuel, trap, lv);
    } else if IsComposite(t.Kind()) && !(throughPtr && t.nameOff != 0) {
      NeverIntoMembers(g, referenced, s, q, id, throughPtr, fuel, trap, lv);
    } else {
      var o := Visit(g, referenced, s, q, id, throughPtr, fuel);
      assert id !in trap;
      LeafOut(g, s, q, o.value, id, trap);
    }
  }

  lemma LeafOut(g: Graph, s: seq<OrderState>, q: seq<nat>, o: Outcome, id: nat, trap: set<nat>)
    requires 0 < |s| == |g| && id < |g| && id !in trap && Untouched(s, trap) && s[0] == Ordered && OnlyComposites(g, s) && s[id] == NotOrdered
    requires o.r >= 0 && q <= o.queue && (o.s == s || o.s == s[id := Ordered])
    ensures OutOf(g, s, q, o, trap)
  {
  }

  lemma {:induction false} NeverIntoNext(g: Graph, referenced: seq<bool>, s: seq<OrderState>, q: seq<nat>, id: nat, throughPtr: bool, fuel: nat,
                                         trap: set<nat>, lv: Levels)
    requires WellFormed(g) && |s| == |referenced| == |g| && id < |g| && Trap(g, trap) && Untouched(s, trap) && fuel > 0
    requires s[0] == Ordered && OnlyComposites(g, s) && Below(g, s, lv, id, throughPtr)
    requires s[id] == NotOrdered && IsLink(g[id].Kind()) && g[id].Kind() != FuncProto
    ensures var o := Visit(g, referenced, s, q, id, throughPtr, fuel); o.Some? ==> id !in trap && OutOf(g, s, q, o.value, trap)
    decreases fuel - 1, 1
  {
    hide *;
    var t := g[id];
    var c := OnlyNext(g, id);
    NoProgress(s, q, 0);
    LinkBelow(g, s, q, s, q, 0, lv, id, 0, throughPtr);
    VisitNext(g, referenced, s, q, id, throughPtr, c, fuel);
    NextTrapped(g, id, c, trap);
    NeverInto(g, referenced, s, q, c, throughPtr || t.Kind() == Ptr, fuel - 1, trap, lv);
    var o := Visit(g, referenced, s, q, c, throughPtr || t.Kind() == Ptr, fuel - 1);
    if o.Some? { MarkedOut(g, s, q, o.value, id, throughPtr, trap); }
  }

  lemma NextTrapped(g: Graph, id: nat, c: nat, trap: set<nat>)
    requires WellFormed(g) && id < |g| && Trap(g, trap) && Next(g[id]) == [c]
    ensures id in trap ==> c in trap
  {
    if id in trap { assert LeadsInto(g, id, trap); }
  }

  lemma MarkedOut(g: Graph, s: seq<OrderState>, q: seq<nat>, o: Outcome, id: nat, throughPtr: bool, trap: set<nat>)
    requires 0 < |s| == |g| && id < |g| && id !in trap && s[id] == NotOrdered && OutOf(g, s, q, o, trap)
    ensures OutOf(g, s, q, AfterNext(o, g[id], id, throughPtr), trap)
  {
  }

  lemma {:induction false} NeverIntoParams(g: Graph, referenced: seq<bool>, s: seq<OrderState>, q: seq<nat>, id: nat, throughPtr: bool, fuel: nat,
                                           trap: set<nat>, lv: Levels)
    requires WellFormed(g) && |s| == |referenced| == |g| && id < |g| && Trap(g, trap) && Untouched(s, trap) && fuel > 0
    requires s[0] == Ordered && OnlyComposites(g, s) && Below(g, s, lv, id, throughPtr)
    requires s[id] == NotOrdered && g[id].Kind() == FuncProto
    ensures var o := Visit(g, referenced, s, q, id, throughPtr, fuel); o.Some? ==> id !in trap && OutOf(g, s, q, o.value, trap)
    decreases fuel - 1, |g[id].refs| + 2
  {
    var t := g[id];
    ParamsAre(g, id);
    NoProgress(s, q, 0);
    forall k | 0 <= k < |t.refs| ensures Below(g, s, lv, t.refs[k], throughPtr) { LinkBelow(g, s, q, s, q, 0, lv, id, k, throughPtr); }
    NeverIntoAll(g, referenced, s, q, t.refs, throughPtr, false, fuel - 1, trap, lv);
    hide Below, OutOf;
    if forall k :: 0 <= k < |t.refs| ==> t.refs[k] !in trap { NotTrapped(g, id, trap); }
  }

  lemma NotTrapped(g: Graph, id: nat, trap: set<nat>)
    requires WellFormed(g) && id < |g| && Trap(g, trap) && forall k :: 0 <= k < |Next(g[id])| ==> Next(g[id])[k] !in trap
    ensures id !in trap
  {
  }

  lemma {:induction false} NeverIntoMembers(g: Graph, referenced: seq<bool>, s: seq<OrderState>, q: seq<nat>, id: nat, throughPtr: bool, fuel: nat,
                                            trap: set<nat>, lv: Levels)
    requires WellFormed(g) && |s| == |referenced| == |g| && id < |g| && Trap(g, trap) && Untouched(s, trap) && fuel > 0
    requires s[0] == Ordered && OnlyComposites(g, s) && Below(g, s, lv, id, throughPtr)
    requires s[id] == NotOrdered && IsComposite(g[id].Kind()) && !(throughPtr && g[id].nameOff != 0)
    ensures var o := Visit(g, referenced, s, q, id, throughPtr, fuel); o.Some? ==> id !in trap && OutOf(g, s, q, o.value, trap)
    decreases fuel - 1, |g[id].refs| + 2
  {
    var t := g[id];
    MembersAre(g, id);
    var s1 := s[id := Ordering];
    NoProgress(s1, q, 0);
    forall k | 0 <= k < |t.refs| ensures Below(g, s1, lv, t.refs[k], false) { MemberBelow(g, s, q, s1, q, 0, lv, id, k, throughPtr); }
    assert id !in trap;
    NeverIntoAll(g, referenced, s1, q, t.refs, false, false, fuel - 1, trap, lv);
    var o := VisitAll(g, referenced, s1, q, t.refs, false, false, fuel - 1);
    if o.Some? { MembersOut(g, s, q, o.value, id, trap); }
  }

  lemma MembersOut(g: Graph, s: seq<OrderState>, q: seq<nat>, o: Outcome, id: nat, trap: set<nat>)
    requires |s| == |g| && 0 < id < |g| && id !in trap && s[id] == NotOrdered && OutOf(g, s[id := Ordering], q, o, trap)
    ensures OutOf(g, s, q, AfterMembers(o, g[id], id), trap)
  {
    forall i | 0 <= i < |s| ensures StateKept(s[i], o.s[id := Ordered][i]) { assert StateKept(s[id := Ordering][i], o.s[i]); }
  }

  lemma {:induction false} NeverIntoAll(g: Graph, referenced: seq<bool>, s: seq<OrderState>, q: seq<nat>, ids: seq<nat>, throughPtr: bool, strong: bool,
                                        fuel: nat, trap: set<nat>, lv: Levels)
    requires WellFormed(g) && |s| == |referenced| == |g| && Trap(g, trap) && Untouched(s, trap)
    requires s[0] == Ordered && OnlyComposites(g, s) && forall k :: 0 <= k < |ids| ==> ids[k] < |g| && Below(g, s, lv, ids[k], throughPtr)
    ensures var o := VisitAll(g, referenced, s, q, ids, throughPtr, strong, fuel);
      o.Some? ==> OutOf(g, s, q, o.value, trap) && forall k :: 0 <= k < |ids| ==> ids[k] !in trap
    decreases fuel, |ids| + 1
  {
    VisitAllHead(g, referenced, s, q, ids, throughPtr, strong, fuel);
    NoProgress(s, q, if strong then 1 else 0);
    hide Below, Visit, VisitAll, WellFormed, Trap, Progress, Untouched, OnlyComposites;
    if ids != [] {
      NeverInto(g, referenced, s, q, ids[0], throughPtr, fuel, trap, lv);
      var o := Visit(g, referenced, s, q, ids[0], throughPtr, fuel);
      if o.Some? {
        var v, rest := o.value, ids[1..];
        forall k | 0 <= k < |rest| ensures rest[k] < |g| && Below(g, v.s, lv, rest[k], throughPtr) {
          assert rest[k] == ids[k + 1];
          BelowKept(g, s, q, v.s, v.queue, v.r, lv, rest[k], throughPtr);
        }
        NeverIntoAll(g, referenced, v.s, v.queue, rest, throughPtr, strong || v.r > 0, fuel, trap, lv);
        var o' := VisitAll(g, referenced, v.s, v.queue, rest, throughPtr, strong || v.r > 0, fuel);
        if o'.Some? {
          ProgressThen(s, q, v.s, v.queue, v.r, o'.value.s, o'.value.queue, o'.value.r);
          forall k | 0 <= k < |ids| ensures ids[k] !in trap { if k > 0 { assert rest[k - 1] == ids[k]; } }
        }
      }
    }
  }

  /** Nothing is ordered yet except void. */
  function Fresh(g: Graph): seq<OrderState> { seq(|g|, i => if i == 0 then Ordered else NotOrdered) }

  /** The search from a fresh state returns. */
  ghost predicate Ends(g: Graph, referenced: seq<bool>, id: nat)
    requires WellFormed(g) && |referenced| == |g| && id < |g|
  {
    exists o: Outcome :: Yields(g, referenced, Fresh(g), [], id, false, o)
  }

  /** On graphs that C can express, the search returns from every type exactly if every cycle it could follow passes
      through a struct or union. */
  lemma EndsExactly(g: Graph, referenced: seq<bool>)
    requires WellFormed(g) && |referenced| == |g| && Definable(g)
    ensures (forall id: nat :: id < |g| ==> Ends(g, referenced, id)) <==> LinkAcyclic(g)
  {
    hide Yields, Leveled;
    if LinkAcyclic(g) {
      var rank: seq<nat> :| LinkRanked(g, rank);
      forall id: nat | id < |g| ensures Ends(g, referenced, id) {
        var o := Returns(g, referenced, Fresh(g), [], id, false, rank);
      }
    } else {
      var c := Stuck(g, referenced);
      NoOutcome(g, referenced, c);
    }
  }

  lemma NoOutcome(g: Graph, referenced: seq<bool>, c: nat)
    requires WellFormed(g) && |referenced| == |g| && c < |g| && forall fuel: nat :: Visit(g, referenced, Fresh(g), [], c, false, fuel) == None
    ensures !Ends(g, referenced, c)
  {
    hide Visit;
  }

  lemma FindTrap(g: Graph) returns (trap: set<nat>)
    requires WellFormed(g) && !LinkAcyclic(g)
    ensures Trap(g, trap) && trap != {}
  {
    var links := set i: nat | i < |g| && IsLink(g[i].Kind());
    var zeros := seq(|g|, i => 0);
    assert PartRanked(g, links, zeros, 0);
    hide LinkRanked, Trap, PartRanked;
    trap := TrapOrRank(g, links, zeros, 0);
  }

  /** A type from which the search nests its calls without end. */
  lemma Stuck(g: Graph, referenced: seq<bool>) returns (c: nat)
    requires WellFormed(g) && |referenced| == |g| && Definable(g) && !LinkAcyclic(g)
    ensures c < |g| && forall fuel: nat :: Visit(g, referenced, Fresh(g), [], c, false, fuel) == None
  {
    var lv: Levels :| Leveled(g, lv);
    var trap := FindTrap(g);
    c :| c in trap;
    FreshIs(g, lv, c, trap);
    hide Visit, Leveled, Trap, Below, OutOf, Fresh, OnlyComposites, Untouched;
    forall fuel: nat ensures Visit(g, referenced, Fresh(g), [], c, false, fuel) == None {
      NeverInto(g, referenced, Fresh(g), [], c, false, fuel, trap, lv);
    }
  }

  lemma FreshIs(g: Graph, lv: Levels, c: nat, trap: set<nat>)
    requires WellFormed(g) && Leveled(g, lv) && Trap(g, trap) && c in trap
    ensures c < |g| == |Fresh(g)| && Fresh(g)[0] == Ordered && OnlyComposites(g, Fresh(g)) && Untouched(Fresh(g), trap)
    ensures Below(g, Fresh(g), lv, c, false)
  {
    assert g[0].Kind() == Unkn && 0 !in trap;
    hide Leveled, Below, LeadsInto, RecordOk;
    FreshBelow(g, lv, c);
  }

  lemma FreshBelow(g: Graph, lv: Levels, c: nat)
    requires WellFormed(g) && Leveled(g, lv) && c < |g|
    ensures Below(g, Fresh(g), lv, c, false)
  {
    hide Leveled, WellFormed;
  }

  // ----- inputs on either side of the condition -----

  function Void(): BtfType { BtfType(0, Info(Unkn, 0, false, 0), 0, [], []) }

  /** A modifier of itself: every call makes another one in the same state, so none returns. */
  lemma {:induction false} ModifierOfItself(name: nat, referenced: seq<bool>, q: seq<nat>, throughPtr: bool, fuel: nat)
    requires |referenced| == 2
    ensures var g := [Void(), BtfType(name, Info(Const, 0, false, 0), 0, [1], [])];
      WellFormed(g) && Definable(g) && Visit(g, referenced, Fresh(g), q, 1, throughPtr, fuel) == None
    decreases fuel
  {
    var g := [Void(), BtfType(name, Info(Const, 0, false, 0), 0, [1], [])];
    assert Leveled(g, Levels([0, 0], [0, 0])) by { LevelsOfItself(g); }
    if fuel > 0 {
      ModifierOfItself(name, referenced, q, throughPtr, fuel - 1);
      VisitNext(g, referenced, Fresh(g), q, 1, throughPtr, 1, fuel);
    }
  }

  lemma LevelsOfItself(g: Graph)
    requires WellFormed(g) && |g| == 2 && g[1].Kind() == Const && g[1].refs == [1]
    ensures Leveled(g, Levels([0, 0], [0, 0]))
  {
    var lv := Levels([0, 0], [0, 0]);
    assert LevelOk(g, lv, 0) && LevelOk(g, lv, 1);
  }

  /** A prototype that takes itself and first returns a struct that embeds itself: the search fails, and so returns,
      from every type although there is a cycle of links. */
  lemma EndsByFailing(names: (nat, nat), size: nat, fields: (Field, Field), referenced: seq<bool>)
    requires |referenced| == 3
    ensures var g := [Void(), BtfType(names.0, Info(FuncProto, 1, false, 0), 0, [2, 1], [fields.0]),
                      BtfType(names.1, Info(Struct, 1, false, 0), size, [2], [fields.1])];
      WellFormed(g) && !LinkAcyclic(g) && forall id: nat :: id < |g| ==> Ends(g, referenced, id)
  {
    var g := [Void(), BtfType(names.0, Info(FuncProto, 1, false, 0), 0, [2, 1], [fields.0]),
              BtfType(names.1, Info(Struct, 1, false, 0), size, [2], [fields.1])];
    assert WellFormed(g);
    CycleOfLinks(g);
    FailsInStruct(g, referenced);
    var s := Fresh(g);
    assert Visit(g, referenced, s, [], 0, false, 1) == Some(Outcome(1, s, []));
    assert Yields(g, referenced, s, [], 0, false, Outcome(1, s, []));
    var o := Outcome(ELOOP, s[2 := Ordering], []);
    hide Yields;
    YieldsCons(g, referenced, s, [], [2, 1], false, false, o, o);
    YieldsProto(g, referenced, s, [], 1, false, o);
    forall id: nat | id < |g| ensures Ends(g, referenced, id) {
      if id == 0 { assert Yields(g, referenced, s, [], id, false, Outcome(1, s, [])); } else { assert Yields(g, referenced, s, [], id, false, o); }
    }
  }

  lemma CycleOfLinks(g: Graph)
    requires WellFormed(g) && |g| == 3 && g[1].Kind() == FuncProto && g[1].refs == [2, 1]
    ensures !LinkAcyclic(g)
  {
    forall rank: seq<nat> | |rank| == |g| ensures !LinkRanked(g, rank) { assert Next(g[1])[1] == 1; }
  }

  lemma FailsInStruct(g: Graph, referenced: seq<bool>)
    requires WellFormed(g) && |referenced| == |g| == 3 && g[2].Kind() == Struct && g[2].refs == [2]
    ensures Yields(g, referenced, Fresh(g), [], 2, false, Outcome(ELOOP, Fresh(g)[2 := Ordering], []))
  {
    var s := Fresh(g)[2 := Ordering];
    var o := Outcome(ELOOP, s, []);
    assert Visit(g, referenced, s, [], 2, false, 1) == Some(o);
    YieldsNow(g, referenced, s, [], 2, false, o);
    hide Yields;
    YieldsCons(g, referenced, s, [], [2], false, false, o, o);
    YieldsMembers(g, referenced, Fresh(g), [], 2, false, o);
  }

  // ----- enums and forward declarations -----

  /** Enums and forward declarations that are declarations of their own. */
  predicate IsDeclared(g: Graph, referenced: seq<bool>, id: nat) {
    id < |g| == |referenced| && (g[id].Kind() == Enum || g[id].Kind() == Fwd) && (g[id].nameOff != 0 || !referenced[id])
  }

  /** Those that are ORDERED are queued. */
  ghost predicate DeclaredQueued(g: Graph, referenced: seq<bool>, s: seq<OrderState>, order: seq<nat>) {
    |s| == |g| == |referenced| && forall i: nat :: IsDeclared(g, referenced, i) && s[i] == Ordered ==> i in order
  }

  /** A call queues those that it makes ORDERED, whatever its result, and they are ORDERED when they are visited. */
  ghost predicate Declares(g: Graph, referenced: seq<bool>, s: seq<OrderState>, q: seq<nat>, o: Outcome)
    requires |s| == |referenced| == |g|
  {
    && |o.s| == |g| && q <= o.queue
    && forall i: nat :: IsDeclared(g, referenced, i) && o.s[i] == Ordered && s[i] != Ordered ==> i in o.queue
  }

  lemma DeclaresThen(g: Graph, referenced: seq<bool>, s: seq<OrderState>, q: seq<nat>, o: Outcome, o': Outcome)
    requires |s| == |referenced| == |g| && Declares(g, referenced, s, q, o) && Declares(g, referenced, o.s, o.queue, o')
    ensures Declares(g, referenced, s, q, o')
  {
  }

  lemma {:induction false} VisitDeclares(g: Graph, referenced: seq<bool>, s: seq<OrderState>, q: seq<nat>, id: nat, throughPtr: bool, fuel: nat)
    requires WellFormed(g) && |s| == |referenced| == |g| && id < |g| && Visit(g, referenced, s, q, id, throughPtr, fuel).Some?
    ensures Declares(g, referenced, s, q, Visit(g, referenced, s, q, id, throughPtr, fuel).value)
    decreases fuel, 0
  {
    var t := g[id];
    if s[id] == NotOrdered && fuel > 0 {
      if t.Kind() == FuncProto {
        ParamsAre(g, id);
        VisitAllDeclares(g, referenced, s, q, t.refs, throughPtr, false, fuel - 1);
      } else if IsLink(t.Kind()) {
        NextDeclares(g, referenced, s, q, id, throughPtr, fuel);
      } else if IsComposite(t.Kind()) && !(throughPtr && t.nameOff != 0) {
        MembersDeclare(g, referenced, s, q, id, throughPtr, fuel);
      }
    }
  }

  lemma {:induction false} NextDeclares(g: Graph, referenced: seq<bool>, s: seq<OrderState>, q: seq<nat>, id: nat, throughPtr: bool, fuel: nat)
    requires WellFormed(g) && |s| == |referenced| == |g| && id < |g| && Visit(g, referenced, s, q, id, throughPtr, fuel).Some?
    requires fuel > 0 && s[id] == NotOrdered && IsLink(g[id].Kind()) && g[id].Kind() != FuncProto
    ensures Declares(g, referenced, s, q, Visit(g, referenced, s, q, id, throughPtr, fuel).value)
    decreases fuel - 1, 1
  {
    hide Visit;
    var c := OnlyNext(g, id);
    VisitNext(g, referenced, s, q, id, throughPtr, c, fuel);
    VisitDeclares(g, referenced, s, q, c, throughPtr || g[id].Kind() == Ptr, fuel - 1);
  }

  lemma {:induction false} MembersDeclare(g: Graph, referenced: seq<bool>, s: seq<OrderState>, q: seq<nat>, id: nat, throughPtr: bool, fuel: nat)
    requires WellFormed(g) && |s| == |referenced| == |g| && id < |g| && Visit(g, referenced, s, q, id, throughPtr, fuel).Some?
    requires fuel > 0 && s[id] == NotOrdered && IsComposite(g[id].Kind()) && !(throughPtr && g[id].nameOff != 0)
    ensures Declares(g, referenced, s, q, Visit(g, referenced, s, q, id, throughPtr, fuel).value)
    decreases fuel - 1, |g[id].refs| + 2
  {
    MembersAre(g, id);
    hide Visit, VisitAll;
    VisitMembers(g, referenced, s, q, id, throughPtr, fuel);
    VisitAllDeclares(g, referenced, s[id := Ordering], q, g[id].refs, false, false, fuel - 1);
  }

  lemma {:induction false} VisitAllDeclares(g: Graph, referenced: seq<bool>, s: seq<OrderState>, q: seq<nat>, ids: seq<nat>, throughPtr: bool, strong: bool, fuel: nat)
    requires WellFormed(g) && |s| == |referenced| == |g| && forall k :: 0 <= k < |ids| ==> ids[k] < |g|
    requires VisitAll(g, referenced, s, q, ids, throughPtr, strong, fuel).Some?
    ensures Declares(g, referenced, s, q, VisitAll(g, referenced, s, q, ids, throughPtr, strong, fuel).value)
    decreases fuel, |ids| + 1
  {
    if ids != [] {
      VisitDeclares(g, referenced, s, q, ids[0], throughPtr, fuel);
      hide Visit, IsDeclared;
      var o := Visit(g, referenced, s, q, ids[0], throughPtr, fuel).value;
      if o.r >= 0 {
        VisitAllDeclares(g, referenced, o.s, o.queue, ids[1..], throughPtr, strong || o.r > 0, fuel);
        DeclaresThen(g, referenced, s, q, o, VisitAll(g, referenced, o.s, o.queue, ids[1..], throughPtr, strong || o.r > 0, fuel).value);
      }
    }
  }

  /** After a search that returned, all ORDERED declarations are queued, and the visited type is among them if it is one. */
  lemma DeclaredThen(g: Graph, referenced: seq<bool>, s: seq<OrderState>, order: seq<nat>, o: Outcome, id: nat)
    requires WellFormed(g) && |s| == |referenced| == |g| && id < |g| && DeclaredQueued(g, referenced, s, order)
    requires Yields(g, referenced, s, [], id, false, o)
    ensures DeclaredQueued(g, referenced, o.s, order + o.queue)
    ensures o.r >= 0 && IsDeclared(g, referenced, id) ==> id in order + o.queue
  {
    var fuel: nat :| Visit(g, referenced, s, [], id, false, fuel) == Some(o);
    VisitDeclares(g, referenced, s, [], id, false, fuel);
    forall i: nat | IsDeclared(g, referenced, i) && o.s[i] == Ordered ensures i in order + o.queue {
      if s[i] == Ordered { assert i in order; }
    }
  }

  // ----- nothing else is queued -----

  /** Kinds with a definition of their own. */
  predicate Queueable(g: Graph, referenced: seq<bool>, id: nat) {
    id < |g| && (IsDeclared(g, referenced, id) || NamedComposite(g[id]) || g[id].Kind() == Typedef)
  }

  /** The set contains what its types refer to. */
  ghost predicate ClosedSet(g: Graph, within: set<nat>)
    requires WellFormed(g)
  {
    forall i: nat, j: nat :: i in within && i < |g| && j < |Next(g[i])| ==> Next(g[i])[j] in within
  }

  /** What was queued after `q` are definitions within the set. */
  ghost predicate QueuedWithin(g: Graph, referenced: seq<bool>, q: seq<nat>, queue: seq<nat>, within: set<nat>) {
    q <= queue && forall k :: |q| <= k < |queue| ==> queue[k] in within && Queueable(g, referenced, queue[k])
  }

  /** A call queues definitions of types that the visited type refers to, at any depth. */
  lemma {:induction false} VisitWithin(g: Graph, referenced: seq<bool>, s: seq<OrderState>, q: seq<nat>, id: nat, throughPtr: bool, fuel: nat, within: set<nat>)
    requires WellFormed(g) && |s| == |referenced| == |g| && id < |g| && Visit(g, referenced, s, q, id, throughPtr, fuel).Some?
    requires ClosedSet(g, within) && id in within
    ensures QueuedWithin(g, referenced, q, Visit(g, referenced, s, q, id, throughPtr, fuel).value.queue, within)
    decreases fuel, 0
  {
    hide Visit, VisitAll, WellFormed, ClosedSet, QueuedWithin;
    var t := g[id];
    if s[id] != NotOrdered || fuel == 0 || !(IsLink(t.Kind()) || (IsComposite(t.Kind()) && !(throughPtr && t.nameOff != 0))) {
      LeafWithin(g, referenced, s, q, id, throughPtr, fuel, within);
    } else if t.Kind() == FuncProto {
      RefsWithin(g, id, within);
      VisitProto(g, referenced, s, q, id, throughPtr, fuel);
      VisitAllWithin(g, referenced, s, q, t.refs, throughPtr, false, fuel - 1, within);
    } else if IsLink(t.Kind()) {
      var c := OnlyNext(g, id);
      NextWithin(g, id, c, within);
      VisitNext(g, referenced, s, q, id, throughPtr, c, fuel);
      VisitWithin(g, referenced, s, q, c, throughPtr || t.Kind() == Ptr, fuel - 1, within);
      AfterWithin(g, referenced, q, Visit(g, referenced, s, q, c, throughPtr || t.Kind() == Ptr, fuel - 1).value, id, throughPtr, within);
    } else {
      RefsWithin(g, id, within);
      VisitMembers(g, referenced, s, q, id, throughPtr, fuel);
      VisitAllWithin(g, referenced, s[id := Ordering], q, t.refs, false, false, fuel - 1, within);
      MembersWithin(g, referenced, q, VisitAll(g, referenced, s[id := Ordering], q, t.refs, false, false, fuel - 1).value, id, within);
    }
  }

  lemma LeafWithin(g: Graph, referenced: seq<bool>, s: seq<OrderState>, q: seq<nat>, id: nat, throughPtr: bool, fuel: nat, within: set<nat>)
    requires WellFormed(g) && |s| == |referenced| == |g| && id < |g| && id in within && Visit(g, referenced, s, q, id, throughPtr, fuel).Some?
    requires s[id] != NotOrdered || fuel == 0 || !(IsLink(g[id].Kind()) || (IsComposite(g[id].Kind()) && !(throughPtr && g[id].nameOff != 0)))
    ensures QueuedWithin(g, referenced, q, Visit(g, referenced, s, q, id, throughPtr, fuel).value.queue, within)
  {
    hide VisitAll, WellFormed;
  }

  lemma NextWithin(g: Graph, id: nat, c: nat, within: set<nat>)
    requires WellFormed(g) && id < |g| && Next(g[id]) == [c] && ClosedSet(g, within) && id in within
    ensures c in within
  {
    assert Next(g[id])[0] == c;
  }

  lemma AfterWithin(g: Graph, referenced: seq<bool>, q: seq<nat>, o: Outcome, id: nat, throughPtr: bool, within: set<nat>)
    requires id < |g| && id < |o.s| && id in within && QueuedWithin(g, referenced, q, o.queue, within)
    ensures QueuedWithin(g, referenced, q, AfterNext(o, g[id], id, throughPtr).queue, within)
  {
  }

  lemma MembersWithin(g: Graph, referenced: seq<bool>, q: seq<nat>, o: Outcome, id: nat, within: set<nat>)
    requires id < |g| && id < |o.s| && id in within && IsComposite(g[id].Kind()) && QueuedWithin(g, referenced, q, o.queue, within)
    ensures QueuedWithin(g, referenced, q, AfterMembers(o, g[id], id).queue, within)
  {
  }

  lemma RefsWithin(g: Graph, id: nat, within: set<nat>)
    requires WellFormed(g) && id < |g| && (IsComposite(g[id].Kind()) || g[id].Kind() == FuncProto) && ClosedSet(g, within) && id in within
    ensures forall k :: 0 <= k < |g[id].refs| ==> g[id].refs[k] < |g| && g[id].refs[k] in within
  {
    assert RecordOk(g[id]) && RefsBelow(g[id], |g|) && Next(g[id]) == g[id].refs;
  }

  lemma {:induction false} VisitAllWithin(g: Graph, referenced: seq<bool>, s: seq<OrderState>, q: seq<nat>, ids: seq<nat>, throughPtr: bool, strong: bool, fuel: nat,
                                          within: set<nat>)
    requires WellFormed(g) && |s| == |referenced| == |g| && ClosedSet(g, within) && forall k :: 0 <= k < |ids| ==> ids[k] < |g| && ids[k] in within
    requires VisitAll(g, referenced, s, q, ids, throughPtr, strong, fuel).Some?
    ensures QueuedWithin(g, referenced, q, VisitAll(g, referenced, s, q, ids, throughPtr, strong, fuel).value.queue, within)
    decreases fuel, |ids| + 1
  {
    if ids != [] {
      VisitWithin(g, referenced, s, q, ids[0], throughPtr, fuel, within);
      hide Visit, Queueable, ClosedSet;
      var o := Visit(g, referenced, s, q, ids[0], throughPtr, fuel).value;
      if o.r >= 0 { VisitAllWithin(g, referenced, o.s, o.queue, ids[1..], throughPtr, strong || o.r > 0, fuel, within); }
    }
  }

  lemma YieldsWithin(g: Graph, referenced: seq<bool>, s: seq<OrderState>, order: seq<nat>, o: Outcome, id: nat, within: set<nat>)
    requires WellFormed(g) && |s| == |referenced| == |g| && id < |g| && Yields(g, referenced, s, [], id, false, o)
    requires ClosedSet(g, within) && id in within
    ensures QueuedWithin(g, referenced, order, order + o.queue, within)
  {
    var fuel: nat :| Visit(g, referenced, s, [], id, false, fuel) == Some(o);
    VisitWithin(g, referenced, s, [], id, false, fuel, within);
  }

  // ----- a typedef that is queued twice -----

  /** The graph of: enum E { ... }; typedef enum E T(struct S); struct S { T *p; }; */
  ghost predicate FunctionOfUser(g: Graph) {
    && |g| == 6 && WellFormed(g) && g[1].Kind() == Enum && g[1].nameOff != 0
    && g[2].Kind() == Struct && g[2].nameOff != 0 && g[2].refs == [3] && g[3].Kind() == Ptr && g[3].refs == [4]
    && g[4].Kind() == Typedef && g[4].refs == [5] && g[5].Kind() == FuncProto && g[5].refs == [1, 2]
  }

  lemma VisitTwo(g: Graph, referenced: seq<bool>, s: seq<OrderState>, q: seq<nat>, ids: seq<nat>, throughPtr: bool, fuel: nat, o1: Outcome, o2: Outcome)
    requires WellFormed(g) && |s| == |referenced| == |g| == |o1.s| && |ids| == 2 && ids[0] < |g| && ids[1] < |g|
    requires Visit(g, referenced, s, q, ids[0], throughPtr, fuel) == Some(o1) && o1.r == 1
    requires Visit(g, referenced, o1.s, o1.queue, ids[1], throughPtr, fuel) == Some(o2) && o2.r >= 0 && |o2.s| == |g|
    ensures VisitAll(g, referenced, s, q, ids, throughPtr, false, fuel) == Some(o2.(r := 1))
  {
    hide Visit, VisitAll;
    VisitNone(g, referenced, s, q, ids, throughPtr, false, fuel);
    VisitRest(g, referenced, s, q, ids, 0, throughPtr, false, fuel);
    VisitRest(g, referenced, o1.s, o1.queue, ids, 1, throughPtr, true, fuel);
    VisitNone(g, referenced, o2.s, o2.queue, ids, throughPtr, true, fuel);
  }

  lemma VisitOne(g: Graph, referenced: seq<bool>, s: seq<OrderState>, q: seq<nat>, ids: seq<nat>, throughPtr: bool, fuel: nat, o: Outcome)
    requires WellFormed(g) && |s| == |referenced| == |g| && |ids| == 1 && ids[0] < |g|
    requires Visit(g, referenced, s, q, ids[0], throughPtr, fuel) == Some(o) && o.r == 1
    ensures VisitAll(g, referenced, s, q, ids, throughPtr, false, fuel) == Some(o)
  {
    hide Visit, VisitAll;
    VisitNone(g, referenced, s, q, ids, throughPtr, false, fuel);
    VisitRest(g, referenced, s, q, ids, 0, throughPtr, false, fuel);
    VisitNone(g, referenced, o.s, o.queue, ids, throughPtr, true, fuel);
  }

  lemma VisitEnum(g: Graph, referenced: seq<bool>, s: seq<OrderState>, q: seq<nat>, id: nat, throughPtr: bool, fuel: nat)
    requires WellFormed(g) && |s| == |referenced| == |g| && 0 < id < |g| && s[id] == NotOrdered && fuel > 0
    requires g[id].Kind() == Enum && g[id].nameOff != 0
    ensures Visit(g, referenced, s, q, id, throughPtr, fuel) == Some(Outcome(1, s[id := Ordered], q + [id]))
  {
  }

  /** Seen from inside the struct, the typedef is strong already, by its enum. */
  lemma TypedefInside(g: Graph, referenced: seq<bool>, s: seq<OrderState>, q: seq<nat>, fuel: nat)
    requires FunctionOfUser(g) && |s| == |referenced| == 6 && fuel >= 4
    requires s[1] == Ordered && s[2] == Ordering && s[3] == s[4] == s[5] == NotOrdered
    ensures Visit(g, referenced, s, q, 3, false, fuel) == Some(Outcome(1, s[4 := Ordered][3 := Ordered], q + [4]))
  {
    assert Visit(g, referenced, s, q, 1, true, fuel - 3) == Some(Outcome(1, s, q));
    assert Visit(g, referenced, s, q, 2, true, fuel - 3) == Some(Outcome(0, s, q));
    hide Visit;
    VisitTwo(g, referenced, s, q, [1, 2], true, fuel - 3, Outcome(1, s, q), Outcome(0, s, q));
    VisitProto(g, referenced, s, q, 5, true, fuel - 2);
    VisitNext(g, referenced, s, q, 4, true, 5, fuel - 1);
    VisitNext(g, referenced, s, q, 3, false, 4, fuel);
  }

  /** The typedef is queued while it is visited, from inside the struct, and once more when its own visit ends. */
  lemma TypedefTwice(g: Graph, referenced: seq<bool>, s: seq<OrderState>, fuel: nat)
    requires FunctionOfUser(g) && |s| == |referenced| == 6 && fuel >= 7 && s[0] == Ordered && forall i :: 1 <= i < 6 ==> s[i] == NotOrdered
    ensures exists s': seq<OrderState> :: Visit(g, referenced, s, [], 4, false, fuel) == Some(Outcome(1, s', [1, 4, 2, 4]))
  {
    hide Visit, VisitAll;
    var s1 := s[1 := Ordered];
    VisitEnum(g, referenced, s, [], 1, false, fuel - 2);
    assert [] + [1] == [1] && [1] + [4] == [1, 4] && [1, 4] + [2] == [1, 4, 2] && [1, 4, 2] + [4] == [1, 4, 2, 4];
    var s2 := s1[2 := Ordering];
    TypedefInside(g, referenced, s2, [1], fuel - 3);
    var s3 := s2[4 := Ordered][3 := Ordered];
    VisitOne(g, referenced, s2, [1], [3], false, fuel - 3, Outcome(1, s3, [1, 4]));
    VisitMembers(g, referenced, s1, [1], 2, false, fuel - 2);
    var o2 := Outcome(1, s3[2 := Ordered], [1, 4, 2]);
    assert Visit(g, referenced, s1, [1], 2, false, fuel - 2) == Some(o2);
    VisitTwo(g, referenced, s, [], [1, 2], false, fuel - 2, Outcome(1, s1, [1]), o2);
    VisitProto(g, referenced, s, [], 5, false, fuel - 1);
    VisitNext(g, referenced, s, [], 4, false, 5, fuel);
    assert Visit(g, referenced, s, [], 4, false, fuel) == Some(Outcome(1, o2.s[4 := Ordered], [1, 4, 2, 4]));
  }
}
