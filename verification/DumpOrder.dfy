/**
 The order in which the BTF-to-C dumper defines types (libbpf/src/btf_dump.c): a depth-first
 search that marks types NOT_ORDERED, ORDERING or ORDERED and queues definitions. A type that is
 embedded in another has to be defined first; a type that is only pointed to can be declared,
 unless it is anonymous and therefore defined on the spot.
 */
module DumpOrder {
  import opened Machine
  import opened BtfGraph
  import opened DumpSearch

  // ----- what a type needs to be defined before it -----

  /** A type, and whether it is only pointed to. */
  datatype Node = Node(id: nat, behind: bool)

  function Nodes(ids: seq<nat>, behind: bool): (ns: seq<Node>)
    ensures |ns| == |ids|
  {
    seq(|ids|, i requires 0 <= i < |ids| => Node(ids[i], behind))
  }

  /** What a type needs next. `full` includes what lies behind pointers and prototypes, where a named struct or union needs
      nothing, but an anonymous one needs its members; without `full` those are left out. */
  function Needs(t: BtfType, behind: bool, full: bool): seq<Node>
    requires RecordOk(t)
  {
    if t.Kind() == Ptr || t.Kind() == FuncProto then (if full then Nodes(t.refs, true) else [])
    else if IsComposite(t.Kind()) then (if behind && t.nameOff != 0 then [] else Nodes(t.refs, false))
    else Nodes(Next(t), behind)
  }

  /** Each type of the path is needed by the one before it. */
  ghost predicate NeedPath(g: Graph, p: seq<Node>, full: bool)
    requires WellFormed(g)
  {
    && |p| > 0 && (forall k :: 0 <= k < |p| ==> p[k].id < |g|)
    && forall k :: 0 <= k < |p| - 1 ==> NeedsNext(g, p[k], p[k + 1], full)
  }

  ghost predicate NeedsNext(g: Graph, a: Node, b: Node, full: bool)
    requires a.id < |g| && RecordOk(g[a.id])
  {
    b in Needs(g[a.id], a.behind, full)
  }

  lemma PathTail(g: Graph, p: seq<Node>, full: bool)
    requires WellFormed(g) && NeedPath(g, p, full) && |p| > 1
    ensures NeedPath(g, p[1..], full) && NeedsNext(g, p[0], p[1], full)
  {
    hide Needs, RecordOk, RefsBelow, NeedsNext;
    var q := p[1..];
    forall k | 0 <= k < |q| - 1 ensures NeedsNext(g, q[k], q[k + 1], full) { assert NeedsNext(g, p[k + 1], p[k + 1 + 1], full); }
    assert NeedsNext(g, p[0], p[0 + 1], full);
  }

  /**
   Types with a definition of their own: named structs and unions and typedefs, unless only pointed to, and named enums
   and forward declarations, which nothing can stand in for.
   */
  predicate IsDefined(t: BtfType, behind: bool) {
    if t.Kind() == Enum || t.Kind() == Fwd then t.nameOff != 0
    else !behind && (NamedComposite(t) || t.Kind() == Typedef)
  }

  /** The path shows that `n` needs the definition of `y`. */
  ghost predicate Needed(g: Graph, p: seq<Node>, n: Node, y: nat, full: bool)
    requires WellFormed(g)
  {
    NeedPath(g, p, full) && p[0] == n && p[|p| - 1].id == y && IsDefined(g[y], p[|p| - 1].behind)
  }

  /** Every definition that `n` is or needs, at any depth, is in `order`. */
  ghost predicate Settled(g: Graph, order: seq<nat>, n: Node, full: bool)
    requires WellFormed(g)
  {
    forall p: seq<Node>, y: nat :: Needed(g, p, n, y, full) ==> y in order
  }

  ghost predicate NeedsSettled(g: Graph, order: seq<nat>, n: Node, full: bool)
    requires WellFormed(g) && n.id < |g|
  {
    forall j :: 0 <= j < |Needs(g[n.id], n.behind, full)| ==> Settled(g, order, Needs(g[n.id], n.behind, full)[j], full)
  }

  lemma SettledMore(g: Graph, order: seq<nat>, order': seq<nat>, n: Node, full: bool)
    requires WellFormed(g) && Settled(g, order, n, full) && order <= order'
    ensures Settled(g, order', n, full)
  {
    hide Needed;
  }

  lemma NeedsSettledMore(g: Graph, order: seq<nat>, order': seq<nat>, n: Node, full: bool)
    requires WellFormed(g) && n.id < |g| && NeedsSettled(g, order, n, full) && order <= order'
    ensures NeedsSettled(g, order', n, full)
  {
    hide Settled, Needs;
    var ns := Needs(g[n.id], n.behind, full);
    forall j | 0 <= j < |ns| ensures Settled(g, order', ns[j], full) { SettledMore(g, order, order', ns[j], full); }
  }

  lemma SettledUp(g: Graph, order: seq<nat>, n: Node, full: bool)
    requires WellFormed(g) && n.id < |g| && NeedsSettled(g, order, n, full)
    requires IsDefined(g[n.id], n.behind) ==> n.id in order
    ensures Settled(g, order, n, full)
  {
    hide IsDefined, Needed, NeedsSettled;
    forall p: seq<Node>, y: nat | Needed(g, p, n, y, full) ensures y in order { SettledPath(g, order, n, p, y, full); }
  }

  lemma SettledPath(g: Graph, order: seq<nat>, n: Node, p: seq<Node>, y: nat, full: bool)
    requires WellFormed(g) && n.id < |g| && NeedsSettled(g, order, n, full) && (IsDefined(g[n.id], n.behind) ==> n.id in order)
    requires Needed(g, p, n, y, full)
    ensures y in order
  {
    if |p| > 1 { NeedsPath(g, order, n, p, y, full); }
  }

  lemma NeedsPath(g: Graph, order: seq<nat>, n: Node, p: seq<Node>, y: nat, full: bool)
    requires WellFormed(g) && n.id < |g| && NeedsSettled(g, order, n, full) && Needed(g, p, n, y, full) && |p| > 1
    ensures y in order
  {
    PathTail(g, p, full);
    hide IsDefined, NeedPath, Needs;
    var ns := Needs(g[n.id], n.behind, full);
    var j :| 0 <= j < |ns| && ns[j] == p[1];
    var q := p[1..];
    assert Settled(g, order, p[1], full);
    assert Needed(g, q, p[1], y, full);
  }

  /** A definition is queued strictly before whatever needs it, typedefs at least once and all others at most once. */
  lemma DefinedBeforeUse(g: Graph, s: seq<OrderState>, order: seq<nat>, x: nat, y: nat, p: seq<Node>, full: bool)
    requires WellFormed(g) && OrderInv(g, s, order, full) && x < |order|
    requires Needed(g, p, Node(order[x], false), y, full) && |p| > 1
    ensures y in order[..x] && y < |g|
    ensures g[y].Kind() != Typedef ==> y !in order[x..]
  {
    hide NeedPath, NeedsSettled;
    assert order[x] < |g| && NeedsSettled(g, order[..x], Node(order[x], false), full);
    NeedsPath(g, order[..x], Node(order[x], false), p, y, full);
    var k :| 0 <= k < x && order[..x][k] == y;
    if y in order[x..] {
      var j :| 0 <= j < |order[x..]| && order[x..][j] == y;
      assert order[k] == order[x + j];
    }
  }

  lemma LeafNeeds(g: Graph, order: seq<nat>, n: Node, full: bool)
    requires WellFormed(g) && n.id < |g| && Needs(g[n.id], n.behind, full) == []
    ensures NeedsSettled(g, order, n, full)
  {
  }

  lemma LeafSettled(g: Graph, order: seq<nat>, n: Node, full: bool)
    requires WellFormed(g) && n.id < |g| && Needs(g[n.id], n.behind, full) == [] && !IsDefined(g[n.id], n.behind)
    ensures Settled(g, order, n, full) && NeedsSettled(g, order, n, full)
  {
    hide Settled;
    SettledUp(g, order, n, full);
  }

  /** Whatever is needed of a type that is pointed to is needed of the type itself. */
  lemma {:induction false} LowerPath(g: Graph, p: seq<Node>, id: nat, y: nat, full: bool) returns (q: seq<Node>)
    requires WellFormed(g) && Needed(g, p, Node(id, true), y, full)
    ensures Needed(g, q, Node(id, false), y, full)
    decreases |p|
  {
    if |p| == 1 {
      q := [Node(id, false)];
      return;
    }
    PathTail(g, p, full);
    var rest := p[1..];
    var t := g[id];
    assert RecordOk(t);
    if IsComposite(t.Kind()) || t.Kind() == Ptr || t.Kind() == FuncProto {
      q := [Node(id, false)] + rest;
      assert NeedsNext(g, Node(id, false), rest[0], full);
      PathCons(g, Node(id, false), rest, y, full);
    } else {
      var ns := Nodes(Next(t), true);
      var j :| 0 <= j < |ns| && ns[j] == p[1];
      var c := Next(t)[j];
      assert p[1] == Node(c, true);
      var lower := LowerPath(g, rest, c, y, full);
      assert Nodes(Next(t), false)[j] == Node(c, false);
      q := [Node(id, false)] + lower;
      PathCons(g, Node(id, false), lower, y, full);
    }
  }

  lemma PathCons(g: Graph, n: Node, p: seq<Node>, y: nat, full: bool)
    requires WellFormed(g) && n.id < |g| && NeedPath(g, p, full) && p[|p| - 1].id == y && IsDefined(g[y], p[|p| - 1].behind)
    requires NeedsNext(g, n, p[0], full)
    ensures Needed(g, [n] + p, n, y, full)
  {
    hide Needs, NeedsNext;
    var q := [n] + p;
    forall k | 0 <= k < |q| - 1 ensures NeedsNext(g, q[k], q[k + 1], full) {
      if k > 0 { assert q[k] == p[k - 1] && q[k + 1] == p[k - 1 + 1]; }
    }
    forall k | 0 <= k < |q| ensures q[k].id < |g| { if k > 0 { assert q[k] == p[k - 1]; } }
  }

  lemma SettledBehind(g: Graph, order: seq<nat>, id: nat, full: bool)
    requires WellFormed(g) && Settled(g, order, Node(id, false), full)
    ensures Settled(g, order, Node(id, true), full)
  {
    hide Needed;
    forall p: seq<Node>, y: nat | Needed(g, p, Node(id, true), y, full) ensures y in order {
      var q := LowerPath(g, p, id, y, full);
    }
  }

  lemma SettledLess(g: Graph, order: seq<nat>, n: Node)
    requires WellFormed(g) && Settled(g, order, n, true)
    ensures Settled(g, order, n, false)
  {
    forall p: seq<Node>, y: nat | Needed(g, p, n, y, false) ensures y in order { PathMore(g, p, n, y); }
  }

  lemma PathMore(g: Graph, p: seq<Node>, n: Node, y: nat)
    requires WellFormed(g) && Needed(g, p, n, y, false)
    ensures Needed(g, p, n, y, true)
  {
    forall k | 0 <= k < |p| - 1 ensures NeedsNext(g, p[k], p[k + 1], true) { assert NeedsNext(g, p[k], p[k + 1], false); }
  }

  lemma NeedsSettledLess(g: Graph, order: seq<nat>, n: Node)
    requires WellFormed(g) && n.id < |g| && NeedsSettled(g, order, n, true)
    ensures NeedsSettled(g, order, n, false)
  {
    hide Settled;
    var ns := Needs(g[n.id], n.behind, false);
    forall j | 0 <= j < |ns| ensures Settled(g, order, ns[j], false) {
      assert ns == Needs(g[n.id], n.behind, true);
      SettledLess(g, order, ns[j]);
    }
  }

  // ----- the invariant -----

  ghost predicate OrderedSettled(g: Graph, s: seq<OrderState>, order: seq<nat>, full: bool)
    requires WellFormed(g) && |s| == |g|
  {
    forall id :: 0 <= id < |g| && s[id] == Ordered ==> Settled(g, order, Node(id, false), full)
  }

  /** Only ORDERED types are queued; typedefs may still be NOT_ORDERED while they are being visited again. */
  ghost predicate QueuedOrdered(g: Graph, s: seq<OrderState>, order: seq<nat>)
    requires |s| == |g|
  {
    forall k :: 0 <= k < |order| ==> order[k] < |g| && (g[order[k]].Kind() != Typedef ==> s[order[k]] == Ordered)
  }

  ghost predicate QueuedOnce(g: Graph, order: seq<nat>) {
    forall j, k :: 0 <= j < k < |order| && order[j] == order[k] && order[k] < |g| ==> g[order[k]].Kind() == Typedef
  }

  ghost predicate QueuedAfterNeeds(g: Graph, order: seq<nat>, full: bool)
    requires WellFormed(g)
  {
    forall k :: 0 <= k < |order| && order[k] < |g| ==> NeedsSettled(g, order[..k], Node(order[k], false), full)
  }

  ghost predicate OrderInv(g: Graph, s: seq<OrderState>, order: seq<nat>, full: bool)
    requires WellFormed(g)
  {
    && |s| == |g| && s[0] == Ordered && OnlyComposites(g, s)
    && OrderedSettled(g, s, order, full) && QueuedOrdered(g, s, order) && QueuedOnce(g, order) && QueuedAfterNeeds(g, order, full)
  }

  lemma InvLess(g: Graph, s: seq<OrderState>, order: seq<nat>, full: bool)
    requires WellFormed(g) && OrderInv(g, s, order, full)
    ensures OrderInv(g, s, order, false)
  {
    hide Settled, NeedsSettled;
    if full {
      forall id | 0 <= id < |g| && s[id] == Ordered ensures Settled(g, order, Node(id, false), false) { SettledLess(g, order, Node(id, false)); }
      forall k | 0 <= k < |order| && order[k] < |g| ensures NeedsSettled(g, order[..k], Node(order[k], false), false) {
        NeedsSettledLess(g, order[..k], Node(order[k], false));
      }
    }
  }

  lemma MarkOrdered(g: Graph, s: seq<OrderState>, order: seq<nat>, id: nat, full: bool)
    requires WellFormed(g) && OrderInv(g, s, order, full) && id < |g| && Settled(g, order, Node(id, false), full)
    ensures OrderInv(g, s[id := Ordered], order, full)
  {
    hide Settled, NeedsSettled;
  }

  lemma MarkOrdering(g: Graph, s: seq<OrderState>, order: seq<nat>, id: nat, full: bool)
    requires WellFormed(g) && OrderInv(g, s, order, full) && 0 < id < |g| && s[id] != Ordered && IsComposite(g[id].Kind())
    ensures OrderInv(g, s[id := Ordering], order, full)
  {
    hide Settled, NeedsSettled;
  }

  lemma QueuedSettled(g: Graph, s: seq<OrderState>, order: seq<nat>, id: nat, full: bool)
    requires WellFormed(g) && |s| == |g| && OrderedSettled(g, s, order, full) && id < |g| && NeedsSettled(g, order, Node(id, false), full)
    ensures OrderedSettled(g, s[id := Ordered], order + [id], full) && Settled(g, order + [id], Node(id, false), full)
  {
    var o := order + [id];
    NeedsSettledMore(g, order, o, Node(id, false), full);
    SettledUp(g, o, Node(id, false), full);
    hide Settled, NeedsSettled, Needs, IsDefined;
    forall i | 0 <= i < |g| && s[id := Ordered][i] == Ordered ensures Settled(g, o, Node(i, false), full) {
      if i != id { SettledMore(g, order, o, Node(i, false), full); }
    }
  }

  lemma QueuedLast(g: Graph, order: seq<nat>, id: nat, full: bool)
    requires WellFormed(g) && QueuedAfterNeeds(g, order, full) && id < |g| && NeedsSettled(g, order, Node(id, false), full)
    ensures QueuedAfterNeeds(g, order + [id], full)
  {
    hide NeedsSettled;
    var o := order + [id];
    forall k | 0 <= k < |o| && o[k] < |g| ensures NeedsSettled(g, o[..k], Node(o[k], false), full) {
      if k < |order| { assert o[..k] == order[..k]; } else { assert o[..k] == order; }
    }
  }

  /** Queues a type whose needs are settled; it was not queued before unless it is a typedef. */
  lemma Queued(g: Graph, s: seq<OrderState>, order: seq<nat>, id: nat, full: bool)
    requires WellFormed(g) && OrderInv(g, s, order, full) && id < |g| && NeedsSettled(g, order, Node(id, false), full)
    requires g[id].Kind() != Typedef ==> s[id] != Ordered
    ensures OrderInv(g, s[id := Ordered], order + [id], full)
    ensures Settled(g, order + [id], Node(id, false), full) && Settled(g, order + [id], Node(id, true), full)
  {
    hide OrderedSettled, NeedsSettled, QueuedAfterNeeds, Settled;
    QueuedSettled(g, s, order, id, full);
    QueuedLast(g, order, id, full);
    SettledBehind(g, order + [id], id, full);
  }

  /** What a visit of `id` ensures. */
  ghost predicate Visited(g: Graph, s0: seq<OrderState>, o0: seq<nat>, s: seq<OrderState>, o: seq<nat>,
                          id: nat, throughPtr: bool, r: int, lv: Levels, full: bool)
    requires WellFormed(g) && |s0| == |g| && id < |g|
  {
    && r in {ELOOP, 0, 1} && Progress(s0, o0, s, o, r)
    && SettledAs(g, o, id, throughPtr, r, full)
    && (Below(g, s0, lv, id, throughPtr) ==> r >= 0)
  }

  /** A strong link, or success without a pointer, settles the type; any success settles what it needs behind a pointer. */
  ghost predicate SettledAs(g: Graph, o: seq<nat>, id: nat, throughPtr: bool, r: int, full: bool)
    requires WellFormed(g)
  {
    && (r > 0 || (r == 0 && !throughPtr) ==> Settled(g, o, Node(id, false), full))
    && (r >= 0 ==> Settled(g, o, Node(id, true), full))
  }

  lemma SettledEither(g: Graph, o: seq<nat>, id: nat, throughPtr: bool, r: int, full: bool)
    requires WellFormed(g) && Settled(g, o, Node(id, false), full)
    ensures SettledAs(g, o, id, throughPtr, r, full)
  {
    SettledBehind(g, o, id, full);
  }

  // ----- emitting -----

  /** Each id where it occurs first. */
  function Firsts(ids: seq<nat>): (r: seq<nat>)
    ensures forall id :: id in r <==> id in ids
  {
    if ids == [] then []
    else
      var n := |ids| - 1;
      assert ids == ids[..n] + [ids[n]];
      if ids[n] in ids[..n] then Firsts(ids[..n]) else Firsts(ids[..n]) + [ids[n]]
  }

  lemma FirstsNext(ids: seq<nat>, id: nat)
    ensures Firsts(ids + [id]) == if id in Firsts(ids) then Firsts(ids) else Firsts(ids) + [id]
  {
    assert (ids + [id])[..|ids|] == ids;
  }

  lemma {:induction false} FirstsOnce(ids: seq<nat>)
    ensures forall x, y :: 0 <= x < y < |Firsts(ids)| ==> Firsts(ids)[x] != Firsts(ids)[y]
    decreases |ids|
  {
    if ids != [] { FirstsOnce(ids[..|ids| - 1]); }
  }

  /** Adds the ids that are not there yet. */
  function EmitAll(emitted: seq<nat>, ids: seq<nat>): seq<nat>
    decreases |ids|
  {
    if ids == [] then emitted
    else
      var before := EmitAll(emitted, ids[..|ids| - 1]);
      if ids[|ids| - 1] in before then before else before + [ids[|ids| - 1]]
  }

  lemma {:induction false} FirstsThen(done: seq<nat>, ids: seq<nat>)
    ensures EmitAll(Firsts(done), ids) == Firsts(done + ids)
    decreases |ids|
  {
    if ids == [] {
      assert done + ids == done;
    } else {
      var n := |ids| - 1;
      FirstsThen(done, ids[..n]);
      FirstsNext(done + ids[..n], ids[n]);
      assert done + ids[..n] + [ids[n]] == done + ids;
    }
  }

  /** What is the x-th to come first stands after exactly the x ids that came before it. */
  lemma {:induction false} FirstsAt(ids: seq<nat>, x: nat) returns (i: nat)
    requires x < |Firsts(ids)|
    ensures i < |ids| && ids[i] == Firsts(ids)[x] && Firsts(ids[..i]) == Firsts(ids)[..x]
    decreases |ids|
  {
    var n := |ids| - 1;
    var before := Firsts(ids[..n]);
    if x < |before| {
      i := FirstsAt(ids[..n], x);
      assert ids[..n][..i] == ids[..i] && Firsts(ids)[..x] == before[..x];
    } else {
      i := n;
    }
  }

  class Orderer {
    const g: Graph
    const referenced: seq<bool>
    var orderState: seq<OrderState>
    var emitQueue: seq<nat>
    var emitted: seq<nat>        // the EMITTED types, in the order of their top-level definitions
    ghost var failed: bool       // whether a search failed
    ghost var done: seq<nat>     // what was queued by earlier dumps

    /** All that was ever queued, in order. */
    ghost function Order(): seq<nat>
      reads this
    {
      done + emitQueue
    }

    /** `full` holds until a search fails: a pointer is ORDERED even if its target failed. */
    ghost predicate Valid(full: bool)
      reads this
    {
      WellFormed(g) && |referenced| == |g| && OrderInv(g, orderState, Order(), full)
    }

    method AddEmitQueueId(id: nat)
      modifies `emitQueue
      ensures emitQueue == old(emitQueue) + [id] && Order() == old(Order()) + [id]
    {
      emitQueue := emitQueue + [id];
    }

    method OrderType(id: nat, throughPtr: bool, ghost fuel: nat, ghost lv: Levels, ghost full: bool) returns (r: int)
      requires Valid(full) && id < |g|
      requires Visit(g, referenced, orderState, emitQueue, id, throughPtr, fuel).Some?
      modifies `orderState, `emitQueue
      ensures Valid(full && r >= 0)
      ensures Visited(g, old(orderState), old(Order()), orderState, Order(), id, throughPtr, r, lv, full)
      ensures Visit(g, referenced, old(orderState), old(emitQueue), id, throughPtr, fuel) == Some(Outcome(r, orderState, emitQueue))
      decreases fuel, 2
    {
      NoProgress(orderState, Order(), 0);
      var t := g[id];
      if orderState[id] == Ordered {
        SettledEither(g, Order(), id, throughPtr, 1, full);
        return 1;
      }
      if orderState[id] == Ordering {
        if IsComposite(t.Kind()) && throughPtr && t.nameOff != 0 {
          LeafSettled(g, Order(), Node(id, true), full);
          return 0;
        }
        NoProgress(orderState, Order(), ELOOP);
        InvLess(g, orderState, Order(), full);
        NotBelow(g, orderState, lv, id, throughPtr);
        return ELOOP;
      }
      assert id != 0 && RecordOk(t) && t.Kind() != Unkn;
      hide *;
      match t.Kind()
      case Int => r := OrderLeaf(id, throughPtr, fuel, lv, full);
      case Ptr => r := OrderPtr(id, throughPtr, fuel, lv, full);
      case Array => r := OrderLink(id, throughPtr, fuel, lv, full);
      case Struct => r := OrderComposite(id, throughPtr, fuel, lv, full);
      case Union => r := OrderComposite(id, throughPtr, fuel, lv, full);
      case Enum => r := OrderNamed(id, throughPtr, fuel, lv, full);
      case Fwd => r := OrderNamed(id, throughPtr, fuel, lv, full);
      case Typedef => r := OrderTypedef(id, throughPtr, fuel, lv, full);
      case Volatile => r := OrderLink(id, throughPtr, fuel, lv, full);
      case Const => r := OrderLink(id, throughPtr, fuel, lv, full);
      case Restrict => r := OrderLink(id, throughPtr, fuel, lv, full);
      case FuncProto => r := OrderProto(id, throughPtr, fuel, lv, full);
      case Func => r := OrderLeaf(id, throughPtr, fuel, lv, full);
      case Var => r := OrderLeaf(id, throughPtr, fuel, lv, full);
      case Datasec => r := OrderLeaf(id, throughPtr, fuel, lv, full);
    }

    /** INT, FUNC, VAR and DATASEC need nothing else. */
    method OrderLeaf(id: nat, throughPtr: bool, ghost fuel: nat, ghost lv: Levels, ghost full: bool) returns (r: int)
      requires Valid(full) && 0 < id < |g| && orderState[id] == NotOrdered && g[id].Kind() in {Kind.Int, Func, Var, Datasec}
      requires Visit(g, referenced, orderState, emitQueue, id, throughPtr, fuel).Some?
      modifies `orderState, `emitQueue
      ensures Valid(full && r >= 0)
      ensures Visited(g, old(orderState), old(Order()), orderState, Order(), id, throughPtr, r, lv, full)
      ensures Visit(g, referenced, old(orderState), old(emitQueue), id, throughPtr, fuel) == Some(Outcome(r, orderState, emitQueue))
      decreases fuel, 0
    {
      VisitLeaf(g, referenced, orderState, emitQueue, id, throughPtr, fuel);
      hide Settled, OrderInv, Progress, Visit, Below;
      LeafSettled(g, Order(), Node(id, false), full);
      SettledEither(g, Order(), id, throughPtr, 0, full);
      MarkOrdered(g, orderState, Order(), id, full);
      StepProgress(orderState, Order(), id, Order(), 0);
      orderState := orderState[id := Ordered];
      return 0;
    }

    method OrderNamed(id: nat, throughPtr: bool, ghost fuel: nat, ghost lv: Levels, ghost full: bool) returns (r: int)
      requires Valid(full) && 0 < id < |g| && orderState[id] == NotOrdered && (g[id].Kind() == Enum || g[id].Kind() == Fwd)
      requires Visit(g, referenced, orderState, emitQueue, id, throughPtr, fuel).Some?
      modifies `orderState, `emitQueue
      ensures Valid(full && r >= 0)
      ensures Visited(g, old(orderState), old(Order()), orderState, Order(), id, throughPtr, r, lv, full)
      ensures Visit(g, referenced, old(orderState), old(emitQueue), id, throughPtr, fuel) == Some(Outcome(r, orderState, emitQueue))
      decreases fuel, 0
    {
      ghost var s0, o0 := orderState, Order();
      LeafNeeds(g, o0, Node(id, false), full);
      hide Settled, NeedsSettled, OrderInv, Progress, Below, Visit;
      if g[id].nameOff != 0 || !referenced[id] {
        assert s0[id] != Ordered;
        Queued(g, s0, o0, id, full);
        StepProgress(s0, o0, id, o0 + [id], 1);
        AddEmitQueueId(id);
      } else {
        LeafSettled(g, o0, Node(id, false), full);
        SettledEither(g, o0, id, throughPtr, 1, full);
        MarkOrdered(g, s0, o0, id, full);
        StepProgress(s0, o0, id, o0, 1);
      }
      orderState := orderState[id := Ordered];
      return 1;
    }

    method OrderPtr(id: nat, throughPtr: bool, ghost fuel: nat, ghost lv: Levels, ghost full: bool) returns (r: int)
      requires Valid(full) && 0 < id < |g| && orderState[id] == NotOrdered && g[id].Kind() == Ptr
      requires Visit(g, referenced, orderState, emitQueue, id, throughPtr, fuel).Some?
      modifies `orderState, `emitQueue
      ensures Valid(full && r >= 0)
      ensures Visited(g, old(orderState), old(Order()), orderState, Order(), id, throughPtr, r, lv, full)
      ensures Visit(g, referenced, old(orderState), old(emitQueue), id, throughPtr, fuel) == Some(Outcome(r, orderState, emitQueue))
      decreases fuel, 0
    {
      ghost var s0, o0, q0 := orderState, Order(), emitQueue;
      var c := NextOf(g, id);
      VisitNext(g, referenced, s0, q0, id, throughPtr, c, fuel);
      LinkFacts(g, s0, o0, lv, id, throughPtr);
      hide WellFormed, Settled, NeedsSettled, OrderInv, Progress, Below, Visit, RecordOk;
      r := OrderType(c, true, fuel - 1, lv, full);
      PtrSettled(g, Order(), id, c, full && r >= 0);
      SettledEither(g, Order(), id, throughPtr, r, full && r >= 0);
      MarkOrdered(g, orderState, Order(), id, full && r >= 0);
      MarkProgress(s0, o0, orderState, Order(), Order(), r, id);
      orderState := orderState[id := Ordered];
    }

    /** ARRAY and the modifiers. */
    method OrderLink(id: nat, throughPtr: bool, ghost fuel: nat, ghost lv: Levels, ghost full: bool) returns (r: int)
      requires Valid(full) && 0 < id < |g| && orderState[id] == NotOrdered && g[id].Kind() in {Kind.Array, Volatile, Const, Restrict}
      requires Visit(g, referenced, orderState, emitQueue, id, throughPtr, fuel).Some?
      modifies `orderState, `emitQueue
      ensures Valid(full && r >= 0)
      ensures Visited(g, old(orderState), old(Order()), orderState, Order(), id, throughPtr, r, lv, full)
      ensures Visit(g, referenced, old(orderState), old(emitQueue), id, throughPtr, fuel) == Some(Outcome(r, orderState, emitQueue))
      decreases fuel, 0
    {
      ghost var s0, o0, q0 := orderState, Order(), emitQueue;
      var c := NextOf(g, id);
      VisitNext(g, referenced, s0, q0, id, throughPtr, c, fuel);
      LinkFacts(g, s0, o0, lv, id, throughPtr);
      hide WellFormed, Settled, NeedsSettled, OrderInv, Progress, Below, Visit, SettledAs, RecordOk;
      r := OrderType(c, throughPtr, fuel - 1, lv, full);
      LinkSettled(g, Order(), id, c, throughPtr, r, full);
    }

    method OrderTypedef(id: nat, throughPtr: bool, ghost fuel: nat, ghost lv: Levels, ghost full: bool) returns (r: int)
      requires Valid(full) && 0 < id < |g| && orderState[id] == NotOrdered && g[id].Kind() == Typedef
      requires Visit(g, referenced, orderState, emitQueue, id, throughPtr, fuel).Some?
      modifies `orderState, `emitQueue
      ensures Valid(full && r >= 0)
      ensures Visited(g, old(orderState), old(Order()), orderState, Order(), id, throughPtr, r, lv, full)
      ensures Visit(g, referenced, old(orderState), old(emitQueue), id, throughPtr, fuel) == Some(Outcome(r, orderState, emitQueue))
      decreases fuel, 0
    {
      ghost var s0, o0, q0 := orderState, Order(), emitQueue;
      var c := NextOf(g, id);
      VisitNext(g, referenced, s0, q0, id, throughPtr, c, fuel);
      LinkFacts(g, s0, o0, lv, id, throughPtr);
      hide WellFormed, Settled, NeedsSettled, OrderInv, Progress, Below, Visit, SettledAs, RecordOk;
      r := OrderType(c, throughPtr, fuel - 1, lv, full);
      TypedefSettled(g, Order(), id, c, throughPtr, r, full);
      if r < 0 { return; }
      if throughPtr && r == 0 { return; }
      ghost var s1, o1 := orderState, Order();
      Queued(g, s1, o1, id, full);
      AddEmitQueueId(id);
      orderState := orderState[id := Ordered];
      MarkProgress(s0, o0, s1, o1, Order(), r, id);
      ProgressResult(s0, o0, orderState, Order(), r, 1);
      SettledEither(g, Order(), id, throughPtr, 1, full);
      r := 1;
    }

    method OrderComposite(id: nat, throughPtr: bool, ghost fuel: nat, ghost lv: Levels, ghost full: bool) returns (r: int)
      requires Valid(full) && 0 < id < |g| && orderState[id] == NotOrdered && IsComposite(g[id].Kind())
      requires Visit(g, referenced, orderState, emitQueue, id, throughPtr, fuel).Some?
      modifies `orderState, `emitQueue
      ensures Valid(full && r >= 0)
      ensures Visited(g, old(orderState), old(Order()), orderState, Order(), id, throughPtr, r, lv, full)
      ensures Visit(g, referenced, old(orderState), old(emitQueue), id, throughPtr, fuel) == Some(Outcome(r, orderState, emitQueue))
      decreases fuel, 0
    {
      ghost var s0, o0, q0 := orderState, Order(), emitQueue;
      NoProgress(s0, o0, 0);
      if throughPtr && g[id].nameOff != 0 {
        LeafSettled(g, o0, Node(id, true), full);
        return 0;
      }
      MarkOrdering(g, s0, o0, id, full);
      VisitMembers(g, referenced, s0, q0, id, throughPtr, fuel);
      MembersAre(g, id);
      hide WellFormed, Settled, NeedsSettled, OrderInv, Progress, Below, Visit, VisitAll, SettledAs, FirstSettled, RecordOk;
      orderState := orderState[id := Ordering];
      r := OrderMembers(id, throughPtr, fuel - 1, lv, full, s0, o0);
      if r < 0 {
        EnteredProgress(s0, o0, orderState, Order(), r, id);
        return;
      }
      r := FinishComposite(id, throughPtr, s0, o0, lv, full);
    }

    /** Visits the members in turn until one fails. */
    method OrderMembers(id: nat, throughPtr: bool, ghost fuel: nat, ghost lv: Levels, ghost full: bool, ghost s0: seq<OrderState>, ghost o0: seq<nat>)
      returns (r: int)
      requires Valid(full) && id < |g| == |s0| && IsComposite(g[id].Kind())
      requires orderState == s0[id := Ordering] && Order() == o0 && !(throughPtr && g[id].nameOff != 0)
      requires RefsBelow(g[id], |g|) && VisitAll(g, referenced, orderState, emitQueue, g[id].refs, false, false, fuel).Some?
      modifies `orderState, `emitQueue
      ensures Valid(full && r >= 0) && r in {ELOOP, 0, 1} && Progress(s0[id := Ordering], o0, orderState, Order(), r)
      ensures r >= 0 ==> FirstSettled(g, Order(), id, |g[id].refs|, false, full)
      ensures Below(g, s0, lv, id, throughPtr) ==> r >= 0
      ensures VisitAll(g, referenced, s0[id := Ordering], old(emitQueue), g[id].refs, false, false, fuel) == Some(Outcome(r, orderState, emitQueue))
      decreases fuel, 3
    {
      ghost var s1, q0 := orderState, emitQueue;
      NoProgress(s1, o0, 0);
      FirstNone(g, o0, id, false, full);
      VisitNone(g, referenced, s1, q0, g[id].refs, false, false, fuel);
      ghost var outcome := VisitAll(g, referenced, s1, q0, g[id].refs, false, false, fuel);
      hide WellFormed, Settled, NeedsSettled, OrderInv, Progress, Below, Visit, VisitAll, SettledAs, FirstSettled, RecordOk;
      var strong, i := false, 0;
      while i < |g[id].refs|
        invariant 0 <= i <= |g[id].refs| && Valid(full)
        invariant Progress(s1, o0, orderState, Order(), 0) && FirstSettled(g, Order(), id, i, false, full)
        invariant VisitAll(g, referenced, orderState, emitQueue, g[id].refs[i..], false, strong, fuel) == outcome
      {
        ghost var s, o, q := orderState, Order(), emitQueue;
        MemberBelowIf(g, s0, o0, s, o, lv, id, i, throughPtr);
        VisitRest(g, referenced, s, q, g[id].refs, i, false, strong, fuel);
        r := OrderType(g[id].refs[i], false, fuel, lv, full);
        ProgressThen(s1, o0, s, o, 0, orderState, Order(), r);
        if r < 0 { return; }
        ProgressResult(s1, o0, orderState, Order(), r, 0);
        FirstMore(g, s, o, orderState, Order(), r, id, i, false, full);
        strong := strong || r > 0;
        i := i + 1;
      }
      r := if strong then 1 else 0;
      ProgressResult(s1, o0, orderState, Order(), 0, r);
      VisitNone(g, referenced, orderState, emitQueue, g[id].refs, false, strong, fuel);
    }

    /** All members are ordered: queue the type if it has a name. */
    method FinishComposite(id: nat, throughPtr: bool, ghost s0: seq<OrderState>, ghost o0: seq<nat>, ghost lv: Levels, ghost full: bool) returns (r: int)
      requires Valid(full) && 0 < id < |g| == |s0| && s0[id] == NotOrdered && IsComposite(g[id].Kind())
      requires Progress(s0[id := Ordering], o0, orderState, Order(), 0) && FirstSettled(g, Order(), id, |g[id].refs|, false, full)
      modifies `orderState, `emitQueue
      ensures Valid(full) && r == 1 && Visited(g, s0, o0, orderState, Order(), id, throughPtr, r, lv, full)
      ensures orderState == old(orderState)[id := Ordered]
      ensures emitQueue == if g[id].nameOff != 0 then old(emitQueue) + [id] else old(emitQueue)
    {
      MembersAre(g, id);
      ghost var s1, o1 := orderState, Order();
      StillOrdering(s0, o0, s1, o1, id);
      AllSettled(g, o1, id, full);
      hide WellFormed, Settled, NeedsSettled, OrderInv, Progress, Below, FirstSettled;
      if g[id].nameOff != 0 {
        Queued(g, s1, o1, id, full);
        AddEmitQueueId(id);
      } else {
        SettledUp(g, o1, Node(id, false), full);
        MarkOrdered(g, s1, o1, id, full);
      }
      SettledEither(g, Order(), id, throughPtr, 1, full);
      orderState := orderState[id := Ordered];
      FinishedProgress(s0, o0, s1, o1, Order(), id);
      r := 1;
    }

    method OrderProto(id: nat, throughPtr: bool, ghost fuel: nat, ghost lv: Levels, ghost full: bool) returns (r: int)
      requires Valid(full) && 0 < id < |g| && orderState[id] == NotOrdered && g[id].Kind() == FuncProto
      requires Visit(g, referenced, orderState, emitQueue, id, throughPtr, fuel).Some?
      modifies `orderState, `emitQueue
      ensures Valid(full && r >= 0)
      ensures Visited(g, old(orderState), old(Order()), orderState, Order(), id, throughPtr, r, lv, full)
      ensures Visit(g, referenced, old(orderState), old(emitQueue), id, throughPtr, fuel) == Some(Outcome(r, orderState, emitQueue))
      decreases fuel, 1
    {
      ghost var s0, o0, q0 := orderState, Order(), emitQueue;
      ParamsAre(g, id);
      VisitProto(g, referenced, s0, q0, id, throughPtr, fuel);
      hide WellFormed, Settled, NeedsSettled, OrderInv, Progress, Below, Visit, VisitAll, FirstSettled, RecordOk;
      r := OrderParams(id, throughPtr, fuel - 1, lv, full);
      if r >= 0 {
        ProtoSettled(g, Order(), id, full);
        SettledEither(g, Order(), id, throughPtr, r, full);
      }
    }

    /** Visits the return type and the parameters in turn until one fails; strong if any of them is. */
    method OrderParams(id: nat, throughPtr: bool, ghost fuel: nat, ghost lv: Levels, ghost full: bool) returns (r: int)
      requires Valid(full) && id < |g| && g[id].Kind() == FuncProto
      requires RefsBelow(g[id], |g|) && VisitAll(g, referenced, orderState, emitQueue, g[id].refs, throughPtr, false, fuel).Some?
      modifies `orderState, `emitQueue
      ensures Valid(full && r >= 0) && r in {ELOOP, 0, 1} && Progress(old(orderState), old(Order()), orderState, Order(), r)
      ensures r >= 0 ==> FirstSettled(g, Order(), id, |g[id].refs|, true, full)
      ensures Below(g, old(orderState), lv, id, throughPtr) ==> r >= 0
      ensures VisitAll(g, referenced, old(orderState), old(emitQueue), g[id].refs, throughPtr, false, fuel) == Some(Outcome(r, orderState, emitQueue))
      decreases fuel, 3
    {
      ghost var s0, o0, q0 := orderState, Order(), emitQueue;
      NoProgress(s0, o0, 0);
      FirstNone(g, o0, id, true, full);
      VisitNone(g, referenced, s0, q0, g[id].refs, throughPtr, false, fuel);
      ghost var outcome := VisitAll(g, referenced, s0, q0, g[id].refs, throughPtr, false, fuel);
      hide WellFormed, Settled, NeedsSettled, OrderInv, Progress, Below, Visit, VisitAll, FirstSettled, RecordOk;
      var isStrong, i := false, 0;
      while i < |g[id].refs|
        invariant 0 <= i <= |g[id].refs| && Valid(full)
        invariant Progress(s0, o0, orderState, Order(), 0) && FirstSettled(g, Order(), id, i, true, full)
        invariant VisitAll(g, referenced, orderState, emitQueue, g[id].refs[i..], throughPtr, isStrong, fuel) == outcome
      {
        ghost var s, o, q := orderState, Order(), emitQueue;
        LinkBelowIf(g, s0, o0, s, o, lv, id, i, throughPtr);
        VisitRest(g, referenced, s, q, g[id].refs, i, throughPtr, isStrong, fuel);
        r := OrderType(g[id].refs[i], throughPtr, fuel, lv, full);
        ProgressThen(s0, o0, s, o, 0, orderState, Order(), r);
        if r < 0 { return; }
        ProgressResult(s0, o0, orderState, Order(), r, 0);
        FirstMore(g, s, o, orderState, Order(), r, id, i, true, full);
        if r > 0 { isStrong := true; }
        i := i + 1;
      }
      r := if isStrong then 1 else 0;
      ProgressResult(s0, o0, orderState, Order(), 0, r);
      VisitNone(g, referenced, orderState, emitQueue, g[id].refs, throughPtr, isStrong, fuel);
    }

    // ----- dumping -----

    /** Nothing is ordered yet except void. */
    constructor (g: Graph, referenced: seq<bool>)
      requires WellFormed(g) && |referenced| == |g|
      ensures Valid(true) && AtRest() && this.g == g && this.referenced == referenced && orderState == Fresh(g) && emitted == [] && !failed
    {
      this.g, this.referenced := g, referenced;
      orderState := Fresh(g);
      emitQueue, emitted, done, failed := [], [], [], false;
      new;
      LeafSettled(g, Order(), Node(0, false), true);
    }

    /** No search is under way, and unless one failed, what was queued is what was emitted, in order and once. */
    ghost predicate AtRest()
      reads this
    {
      && (!failed ==> emitted == Firsts(Order()) && forall i :: 0 <= i < |orderState| ==> orderState[i] != Ordering)
      && DeclaredQueued(g, referenced, orderState, Order())
    }

    /** The search of a type returns. */
    ghost predicate Returning(id: nat)
      requires WellFormed(g) && |orderState| == |referenced| == |g| && id < |g|
      reads this
    {
      exists o: Outcome :: Yields(g, referenced, orderState, [], id, false, o)
    }

    /** Emits the definition of a type and of all it needs, provided that the search returns. It fails only for a type that
        does not exist, for a graph in which some struct or union would have to be defined before itself, or after
        another failure. */
    method DumpType(id: nat) returns (r: int)
      requires Valid(!failed) && AtRest() && (id < |g| ==> Returning(id))
      modifies this
      ensures Valid(!failed) && AtRest() && r in {EINVAL, ELOOP, 0} && old(Order()) <= Order()
      ensures r == EINVAL <==> id >= |g|
      ensures r == 0 ==> Settled(g, Order(), Node(id, false), !failed) && failed == old(failed)
      ensures r == 0 && (IsDefined(g[id], false) || IsDeclared(g, referenced, id)) ==> id in Order()
      ensures forall within: set<nat> :: ClosedSet(g, within) && id in within ==> QueuedWithin(g, referenced, old(Order()), Order(), within)
      ensures Definable(g) && !old(failed) && id < |g| ==> r == 0
    {
      if id >= |g| { return EINVAL; }
      ghost var lv := if exists lv: Levels :: Leveled(g, lv) then (var lv: Levels :| Leveled(g, lv); lv) else Levels([], []);
      hide Settled, OrderInv, Leveled, Yields, Firsts, DeclaredQueued, EmitAll, IsDefined, IsDeclared, Queueable, ClosedSet;
      r := Search(id, lv);
      if r < 0 {
        InvLess(g, orderState, Order(), !failed && r >= 0);
        failed := true;
        return;
      }
      SettledSelf(g, Order(), id, !failed);
      if !failed { FirstsThen(done, emitQueue); }
      EmitQueued();
      r := 0;
    }

    method Search(id: nat, ghost lv: Levels) returns (r: int)
      requires Valid(!failed) && AtRest() && id < |g| && Returning(id)
      modifies `orderState, `emitQueue, `done
      ensures Valid(!failed && r >= 0) && r in {ELOOP, 0, 1} && old(Order()) <= Order() && done == old(Order())
      ensures r >= 0 ==> Settled(g, Order(), Node(id, false), !failed)
      ensures r >= 0 && !failed ==> forall i :: 0 <= i < |orderState| ==> orderState[i] != Ordering
      ensures Leveled(g, lv) && !failed ==> r >= 0
      ensures DeclaredQueued(g, referenced, orderState, Order()) && (r >= 0 && IsDeclared(g, referenced, id) ==> id in Order())
      ensures forall within: set<nat> :: ClosedSet(g, within) && id in within ==> QueuedWithin(g, referenced, old(Order()), Order(), within)
    {
      ghost var s0 := orderState;
      ghost var o: Outcome :| Yields(g, referenced, orderState, [], id, false, o);
      hide WellFormed, Settled, NeedsSettled, OrderInv, Visit, Leveled, DeclaredQueued, Queueable, ClosedSet, QueuedWithin;
      ghost var fuel: nat :| Visit(g, referenced, orderState, [], id, false, fuel) == Some(o);
      done, emitQueue := done + emitQueue, [];
      assert Order() == old(Order());
      r := OrderType(id, false, fuel, lv, !failed);
      assert Yields(g, referenced, s0, [], id, false, Outcome(r, orderState, emitQueue));
      DeclaredThen(g, referenced, s0, done, Outcome(r, orderState, emitQueue), id);
      forall within: set<nat> | ClosedSet(g, within) && id in within ensures QueuedWithin(g, referenced, done, Order(), within) {
        YieldsWithin(g, referenced, s0, done, Outcome(r, orderState, emitQueue), id, within);
      }
    }

    /** Without cycles of links every search returns. */
    lemma AlwaysReturning(id: nat, full: bool)
      requires Valid(full) && LinkAcyclic(g) && id < |g|
      ensures Returning(id)
    {
      hide OrderInv, Yields, LinkRanked;
      StatesMatch(full);
      var rank: seq<nat> :| LinkRanked(g, rank);
      var o := Returns(g, referenced, orderState, [], id, false, rank);
    }

    lemma StatesMatch(full: bool)
      requires Valid(full)
      ensures |orderState| == |g| == |referenced|
    {
    }

    /** Emits what is queued, unless it is emitted already. */
    method EmitQueued()
      modifies `emitted
      ensures emitted == EmitAll(old(emitted), emitQueue)
    {
      var i := 0;
      while i < |emitQueue|
        invariant 0 <= i <= |emitQueue| && emitted == EmitAll(old(emitted), emitQueue[..i])
      {
        assert emitQueue[..i + 1][..i] == emitQueue[..i];
        if emitQueue[i] !in emitted { emitted := emitted + [emitQueue[i]]; }
        i := i + 1;
      }
      assert emitQueue[..i] == emitQueue;
    }

    /** Any dumps, one after the other: on a graph that C can express none fails, every definition that is asked for or
        needed is emitted once, and before whatever needs it, be it embedded or part of an anonymous struct or union that
        is pointed to. */
    method DumpTypes(ids: seq<nat>)
      requires Valid(true) && AtRest() && LinkAcyclic(g) && Definable(g) && !failed && forall k :: 0 <= k < |ids| ==> ids[k] < |g|
      modifies this
      ensures Valid(true) && AtRest() && !failed
      ensures forall x, y :: 0 <= x < y < |emitted| ==> emitted[x] != emitted[y]
      ensures forall k :: 0 <= k < |ids| ==> Settled(g, emitted, Node(ids[k], false), true)
      ensures forall k :: 0 <= k < |ids| && IsDeclared(g, referenced, ids[k]) ==> ids[k] in emitted
      ensures forall x, y, p: seq<Node> ::
                0 <= x < |emitted| && |p| > 1 && Needed(g, p, Node(emitted[x], false), y, true) ==> y in emitted[..x]
    {
      hide Settled, Needed, OrderInv, Leveled, LinkRanked, Returning, Firsts, IsDeclared, DeclaredQueued;
      var i := 0;
      while i < |ids|
        invariant 0 <= i <= |ids| && Valid(true) && AtRest() && !failed
        invariant forall k :: 0 <= k < i ==> Settled(g, Order(), Node(ids[k], false), true)
        invariant forall k :: 0 <= k < i && IsDeclared(g, referenced, ids[k]) ==> ids[k] in Order()
      {
        ghost var o := Order();
        AlwaysReturning(ids[i], true);
        var r := DumpType(ids[i]);
        forall k | 0 <= k < i ensures Settled(g, Order(), Node(ids[k], false), true) { SettledMore(g, o, Order(), Node(ids[k], false), true); }
        i := i + 1;
      }
      FirstsOnce(Order());
      forall k | 0 <= k < |ids| ensures Settled(g, emitted, Node(ids[k], false), true) { SettledFirsts(g, Order(), Node(ids[k], false)); }
      forall x, y, p: seq<Node> | 0 <= x < |emitted| && |p| > 1 && Needed(g, p, Node(emitted[x], false), y, true)
        ensures y in emitted[..x]
      {
        EmittedBefore(g, orderState, Order(), x, y, p);
      }
    }
  }

  /** A definition is one of those it needs. */
  lemma SettledSelf(g: Graph, order: seq<nat>, id: nat, full: bool)
    requires WellFormed(g) && id < |g| && Settled(g, order, Node(id, false), full)
    ensures IsDefined(g[id], false) ==> id in order
  {
    if IsDefined(g[id], false) { assert Needed(g, [Node(id, false)], Node(id, false), id, full); }
  }

  lemma SettledFirsts(g: Graph, order: seq<nat>, n: Node)
    requires WellFormed(g) && Settled(g, order, n, true)
    ensures Settled(g, Firsts(order), n, true)
  {
    hide Needed;
  }

  lemma EmittedBefore(g: Graph, s: seq<OrderState>, order: seq<nat>, x: nat, y: nat, p: seq<Node>)
    requires WellFormed(g) && OrderInv(g, s, order, true) && x < |Firsts(order)| && |p| > 1
    requires Needed(g, p, Node(Firsts(order)[x], false), y, true)
    ensures y in Firsts(order)[..x]
  {
    hide OrderInv, Needed, Firsts;
    var i := FirstsAt(order, x);
    DefinedBeforeUse(g, s, order, i, y, p, true);
  }

  /** A struct with a pointer to an anonymous struct that embeds a named one needs the named one. */
  lemma PointerToAnonymous(g: Graph, b: nat, ptr: nat, anon: nat, a: nat)
    requires WellFormed(g) && b < |g| && ptr < |g| && anon < |g| && a < |g|
    requires IsComposite(g[b].Kind()) && ptr in g[b].refs && g[ptr].Kind() == Ptr && g[ptr].refs == [anon]
    requires IsComposite(g[anon].Kind()) && g[anon].nameOff == 0 && a in g[anon].refs && NamedComposite(g[a])
    ensures Needed(g, [Node(b, false), Node(ptr, false), Node(anon, true), Node(a, false)], Node(b, false), a, true)
  {
    var p := [Node(b, false), Node(ptr, false), Node(anon, true), Node(a, false)];
    NodeIn(g[b].refs, ptr, false);
    NodeIn(g[ptr].refs, anon, true);
    NodeIn(g[anon].refs, a, false);
    hide Nodes;
    assert NeedsNext(g, p[0], p[1], true) && NeedsNext(g, p[1], p[2], true) && NeedsNext(g, p[2], p[3], true);
  }

  lemma NodeIn(ids: seq<nat>, id: nat, behind: bool)
    requires id in ids
    ensures Node(id, behind) in Nodes(ids, behind)
  {
    var k :| 0 <= k < |ids| && ids[k] == id;
    assert Nodes(ids, behind)[k] == Node(id, behind);
  }

  lemma StepProgress(s: seq<OrderState>, o: seq<nat>, id: nat, o': seq<nat>, r: int)
    requires id < |s| && s[id] == NotOrdered && o <= o'
    ensures Progress(s, o, s[id := Ordered], o', r)
  {
  }

  /** The only type a pointer, array, typedef or modifier leads to. */
  method NextOf(g: Graph, id: nat) returns (c: nat)
    requires WellFormed(g) && id < |g| && IsLink(g[id].Kind()) && g[id].Kind() != FuncProto
    ensures c < |g| && Next(g[id]) == [c]
  {
    assert RecordOk(g[id]) && RefsBelow(g[id], |g|);
    c := if g[id].Kind() == Array then g[id].refs[1] else g[id].refs[0];
  }

  lemma LinkFacts(g: Graph, s: seq<OrderState>, o: seq<nat>, lv: Levels, id: nat, throughPtr: bool)
    requires WellFormed(g) && |s| == |g| && id < |g| && IsLink(g[id].Kind()) && |Next(g[id])| > 0 && Next(g[id])[0] < |g|
    ensures Below(g, s, lv, id, throughPtr) ==> Below(g, s, lv, Next(g[id])[0], throughPtr || g[id].Kind() == Ptr)
  {
    if Below(g, s, lv, id, throughPtr) {
      NoProgress(s, o, 0);
      LinkBelow(g, s, o, s, o, 0, lv, id, 0, throughPtr);
    }
  }

  /** A pointer needs what its target needs behind a pointer, if that counts at all. */
  lemma PtrSettled(g: Graph, o: seq<nat>, id: nat, c: nat, full: bool)
    requires WellFormed(g) && id < |g| && g[id].Kind() == Ptr && Next(g[id]) == [c] && (full ==> Settled(g, o, Node(c, true), full))
    ensures Settled(g, o, Node(id, false), full)
  {
    hide Settled;
    assert Needs(g[id], false, full) == if full then [Node(c, true)] else [];
    SettledUp(g, o, Node(id, false), full);
  }

  lemma LinkSettled(g: Graph, o: seq<nat>, id: nat, c: nat, throughPtr: bool, r: int, full: bool)
    requires WellFormed(g) && id < |g| && g[id].Kind() in {Kind.Array, Volatile, Const, Restrict} && Next(g[id]) == [c]
    requires SettledAs(g, o, c, throughPtr, r, full)
    ensures SettledAs(g, o, id, throughPtr, r, full)
  {
    hide Settled;
    assert Needs(g[id], false, full) == [Node(c, false)] && Needs(g[id], true, full) == [Node(c, true)];
    if r > 0 || (r == 0 && !throughPtr) { SettledUp(g, o, Node(id, false), full); }
    if r >= 0 { SettledUp(g, o, Node(id, true), full); }
  }

  /** A typedef that is not queued is settled behind a pointer only. */
  lemma TypedefSettled(g: Graph, o: seq<nat>, id: nat, c: nat, throughPtr: bool, r: int, full: bool)
    requires WellFormed(g) && id < |g| && g[id].Kind() == Typedef && Next(g[id]) == [c]
    requires SettledAs(g, o, c, throughPtr, r, full)
    ensures r < 0 || (throughPtr && r == 0) ==> SettledAs(g, o, id, throughPtr, r, full)
    ensures r > 0 || (r == 0 && !throughPtr) ==> NeedsSettled(g, o, Node(id, false), full)
  {
    hide Settled;
    assert Needs(g[id], false, full) == [Node(c, false)] && Needs(g[id], true, full) == [Node(c, true)];
    if r >= 0 { SettledUp(g, o, Node(id, true), full); }
  }

  ghost predicate FirstSettled(g: Graph, o: seq<nat>, id: nat, n: nat, behind: bool, full: bool)
    requires WellFormed(g) && id < |g|
  {
    n <= |g[id].refs| && forall j :: 0 <= j < n ==> Settled(g, o, Node(g[id].refs[j], behind), full)
  }

  lemma FirstNone(g: Graph, o: seq<nat>, id: nat, behind: bool, full: bool)
    requires WellFormed(g) && id < |g|
    ensures FirstSettled(g, o, id, 0, behind, full)
  {
  }

  lemma FirstMore(g: Graph, s: seq<OrderState>, o: seq<nat>, s': seq<OrderState>, o': seq<nat>, r: int, id: nat, n: nat, behind: bool, full: bool)
    requires WellFormed(g) && id < |g| && FirstSettled(g, o, id, n, behind, full) && n < |g[id].refs|
    requires Progress(s, o, s', o', r) && Settled(g, o', Node(g[id].refs[n], behind), full)
    ensures FirstSettled(g, o', id, n + 1, behind, full)
  {
    hide Settled;
    forall j | 0 <= j < n ensures Settled(g, o', Node(g[id].refs[j], behind), full) { SettledMore(g, o, o', Node(g[id].refs[j], behind), full); }
  }

  lemma AllSettled(g: Graph, o: seq<nat>, id: nat, full: bool)
    requires WellFormed(g) && id < |g| && IsComposite(g[id].Kind()) && FirstSettled(g, o, id, |g[id].refs|, false, full)
    ensures NeedsSettled(g, o, Node(id, false), full)
  {
    hide Settled;
    MembersAre(g, id);
    assert Needs(g[id], false, full) == Nodes(g[id].refs, false);
  }

  lemma ProtoSettled(g: Graph, o: seq<nat>, id: nat, full: bool)
    requires WellFormed(g) && id < |g| && g[id].Kind() == FuncProto && FirstSettled(g, o, id, |g[id].refs|, true, full)
    ensures Settled(g, o, Node(id, false), full)
  {
    hide Settled;
    ParamsAre(g, id);
    assert Needs(g[id], false, full) == if full then Nodes(g[id].refs, true) else [];
    SettledUp(g, o, Node(id, false), full);
  }

  lemma StillOrdering(s0: seq<OrderState>, o0: seq<nat>, s: seq<OrderState>, o: seq<nat>, id: nat)
    requires id < |s0| && Progress(s0[id := Ordering], o0, s, o, 0)
    ensures |s| == |s0| && s[id] == Ordering
  {
    assert StateKept(s0[id := Ordering][id], s[id]);
  }

  lemma FinishedProgress(s0: seq<OrderState>, o0: seq<nat>, s: seq<OrderState>, o: seq<nat>, o': seq<nat>, id: nat)
    requires id < |s0| && s0[id] == NotOrdered && Progress(s0[id := Ordering], o0, s, o, 0) && o <= o'
    ensures Progress(s0, o0, s[id := Ordered], o', 1)
  {
    forall i | 0 <= i < |s| ensures StateKept(s0[i], s[id := Ordered][i]) { assert StateKept(s0[id := Ordering][i], s[i]); }
  }
}
