/**
 The canonical-type map of BTF deduplication as a forest: an id is a root when it
 is not mapped to any type yet or is mapped to itself, and following the map from
 any id ends in a root.
 */
module BtfForest {

  const MAX_NR_TYPES: nat := 0x7fffffff
  const UNPROCESSED_ID: nat := 0xffffffff
  const IN_PROGRESS_ID: nat := 0xfffffffe

  predicate IsMapped(m: seq<nat>, i: nat)
    requires i < |m|
  {
    m[i] <= MAX_NR_TYPES
  }

  predicate IsRoot(m: seq<nat>, i: nat)
    requires i < |m|
  {
    !IsMapped(m, i) || m[i] == i
  }

  /** `rank` strictly decreases along every link. */
  ghost predicate Ranked(m: seq<nat>, rank: seq<nat>) {
    && |rank| == |m|
    && forall i :: 0 <= i < |m| && !IsRoot(m, i) ==> m[i] < |m| && rank[m[i]] < rank[i]
  }

  ghost predicate Forest(m: seq<nat>) {
    exists rank: seq<nat> :: Ranked(m, rank)
  }

  ghost function RankOf(m: seq<nat>): (rank: seq<nat>)
    requires Forest(m)
    ensures Ranked(m, rank)
  {
    var rank: seq<nat> :| Ranked(m, rank); rank
  }

  /** Where following the map from `i` ends. */
  ghost function Root(m: seq<nat>, i: nat): (r: nat)
    requires Forest(m) && i < |m|
    ensures r < |m| && IsRoot(m, r)
    decreases RankOf(m)[i]
  {
    if IsRoot(m, i) then i else Root(m, m[i])
  }

  /** The path from `i` to its root goes through `x`. */
  ghost predicate Reaches(m: seq<nat>, i: nat, x: nat)
    requires Forest(m) && i < |m|
    decreases RankOf(m)[i]
  {
    i == x || (!IsRoot(m, i) && Reaches(m, m[i], x))
  }

  /** Linking `x` to a type whose own path avoids `x` keeps the map a forest. */
  lemma LinkKeepsForest(m: seq<nat>, x: nat, t: nat)
    requires Forest(m) && x < |m| && t < |m|
    requires !Reaches(m, t, x)
    ensures Forest(m[x := t])
  {
    var rank := RankOf(m);
    var m' := m[x := t];
    var rank' := seq(|m|, i requires 0 <= i < |m| => rank[i] + if Reaches(m, i, x) then rank[t] + 1 else 0);
    forall i | 0 <= i < |m'| && !IsRoot(m', i) ensures m'[i] < |m'| && rank'[m'[i]] < rank'[i] {
      if i != x {
        assert !IsRoot(m, i);
        assert Reaches(m, i, x) <==> Reaches(m, m[i], x);
      }
    }
    assert Ranked(m', rank');
  }

  /** An entry that becomes a root cannot close a cycle. */
  lemma RootKeepsForest(m: seq<nat>, x: nat, v: nat)
    requires Forest(m) && x < |m|
    requires v == x || v > MAX_NR_TYPES
    ensures Forest(m[x := v])
  {
    assert Ranked(m[x := v], RankOf(m));
  }

  lemma RootOfRoot(m: seq<nat>, i: nat)
    requires Forest(m) && i < |m|
    ensures Root(m, Root(m, i)) == Root(m, i)
  {
  }

  /** Only roots were redirected. */
  ghost predicate OnlyRoots(m0: seq<nat>, m: seq<nat>) {
    |m0| == |m| && forall i :: 0 <= i < |m| && m[i] != m0[i] ==> IsRoot(m0, i)
  }

  /** Redirecting roots never separates ids: where an id leads is where its former root leads. */
  lemma {:induction false} RootThrough(m0: seq<nat>, m: seq<nat>, i: nat)
    requires Forest(m0) && Forest(m) && OnlyRoots(m0, m) && i < |m|
    ensures Root(m, i) == Root(m, Root(m0, i))
    decreases RankOf(m0)[i]
  {
    if !IsRoot(m0, i) { RootThrough(m0, m, m0[i]); }
  }

  /** With every id mapped, every root is mapped to itself. */
  lemma RootIsSelfMapped(m: seq<nat>, i: nat)
    requires Forest(m) && i < |m|
    requires forall j :: 0 <= j < |m| ==> IsMapped(m, j)
    ensures m[Root(m, i)] == Root(m, i)
  {
    assert IsMapped(m, Root(m, i));
  }
}
