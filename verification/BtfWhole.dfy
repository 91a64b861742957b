/**
 btf__dedup as a whole: the string pass rewrites the name offsets of the type records, then the type
 passes run on them. What a type means is told by the strings its offsets denote, so input and output
 can be compared although they use different string sections.
 */
module BtfWhole {
  import opened Machine
  import opened BtfGraph
  import opened BtfForest
  import opened BtfEquiv
  import opened BtfStages
  import opened BtfUnits
  import opened BtfStrings
  import D = BtfDedup

  // ----- the names in a record -----

  /** Kinds whose members, enumerators or parameters have names. */
  predicate NamesFields(k: Kind) { IsComposite(k) || k == Enum || k == FuncProto }

  /** Name offsets are unsigned. */
  predicate NamesOk(t: BtfType) {
    NamesFields(t.Kind()) ==> forall k :: 0 <= k < |t.fields| ==> t.fields[k].first >= 0
  }

  ghost predicate AllNamesOk(g: Graph) { forall i :: 0 <= i < |g| ==> NamesOk(g[i]) }

  /** The name offsets of a record, in the order in which they are visited. */
  function Names(t: BtfType): (r: seq<nat>)
    requires NamesOk(t)
    ensures |r| == NameCount(t)
  {
    [t.nameOff] + if NamesFields(t.Kind()) then seq(|t.fields|, k requires 0 <= k < |t.fields| => t.fields[k].first) else []
  }

  function NameCount(t: BtfType): nat { 1 + if NamesFields(t.Kind()) then |t.fields| else 0 }

  /** The record with other name offsets. */
  function Renamed(t: BtfType, names: seq<nat>): BtfType
    requires |names| == NameCount(t)
  {
    t.(nameOff := names[0],
       fields := if NamesFields(t.Kind()) then seq(|t.fields|, k requires 0 <= k < |t.fields| => Field(names[k + 1], t.fields[k].second)) else t.fields)
  }

  // ----- meaning -----

  /** Everything two records say except which types they reference is the same, names read as strings. */
  ghost predicate SameText(sec: seq<nat>, t: BtfType, sec': seq<nat>, t': BtfType) {
    && NamesOk(t) && NamesOk(t') && t.info == t'.info && t.size == t'.size && |t.fields| == |t'.fields|
    && StrAt(sec, t.nameOff) == StrAt(sec', t'.nameOff)
    && forall k :: 0 <= k < |t.fields| ==> SameField(sec, t, sec', t', k)
  }

  ghost predicate SameField(sec: seq<nat>, t: BtfType, sec': seq<nat>, t': BtfType, k: nat)
    requires k < |t.fields| == |t'.fields| && NamesOk(t) && NamesOk(t') && t.info == t'.info
  {
    t.fields[k].second == t'.fields[k].second &&
    if NamesFields(t.Kind()) then StrAt(sec, t.fields[k].first) == StrAt(sec', t'.fields[k].first)
    else t.fields[k].first == t'.fields[k].first
  }

  /** The unfoldings of two types carry the same text down to depth `k`. */
  ghost predicate SameMeaningTo(k: nat, sec: seq<nat>, g: Graph, a: nat, sec': seq<nat>, g': Graph, b: nat)
    requires WellFormed(g) && WellFormed(g') && a < |g| && b < |g'|
    decreases k
  {
    k == 0 ||
    (&& SameText(sec, g[a], sec', g'[b]) && |g[a].refs| == |g'[b].refs|
     && forall j :: 0 <= j < |g[a].refs| ==> SameMeaningTo(k - 1, sec, g, g[a].refs[j], sec', g', g'[b].refs[j]))
  }

  /** Two types mean the same: their whole, possibly infinite, unfoldings carry the same text. */
  ghost predicate SameMeaning(sec: seq<nat>, g: Graph, a: nat, sec': seq<nat>, g': Graph, b: nat)
    requires WellFormed(g) && WellFormed(g') && a < |g| && b < |g'|
  {
    forall k: nat :: SameMeaningTo(k, sec, g, a, sec', g', b)
  }

  // ----- the string pass over the records -----

  /** The name offsets of types 1 to n - 1, in order. */
  ghost function Slots(g: Graph, n: nat): (r: seq<nat>)
    requires n <= |g| && AllNamesOk(g)
  {
    if n <= 1 then [] else Slots(g, n - 1) + Names(g[n - 1])
  }

  lemma {:induction false} SlotsPrefix(g: Graph, i: nat, n: nat)
    requires i <= n <= |g| && AllNamesOk(g)
    ensures Slots(g, i) <= Slots(g, n)
    decreases n
  {
    if i < n && n > 1 { SlotsPrefix(g, i, n - 1); }
  }

  /** Where the names of type `i` are. */
  lemma SlotsAt(g: Graph, i: nat)
    requires 0 < i < |g| && AllNamesOk(g)
    ensures |Slots(g, i)| + NameCount(g[i]) == |Slots(g, i + 1)| <= |Slots(g, |g|)|
    ensures Slots(g, |g|)[|Slots(g, i)|..|Slots(g, i + 1)|] == Names(g[i])
  {
    SlotsPrefix(g, i + 1, |g|);
    var s, t := Slots(g, |g|), Slots(g, i + 1);
    assert t == Slots(g, i) + Names(g[i]);
    assert s[..|t|] == t;
    assert s[|Slots(g, i)|..|t|] == t[|Slots(g, i)|..];
  }

  lemma NameAt(g: Graph, slots: seq<nat>, i: nat, k: nat)
    requires 0 < i < |g| && AllNamesOk(g) && Slots(g, |g|) <= slots && k < NameCount(g[i])
    ensures NamesOk(g[i]) && |Slots(g, i)| + k < |slots| && slots[|Slots(g, i)| + k] == Names(g[i])[k]
  {
    SlotsAt(g, i);
    hide Slots, Names, NameCount;
    var from, n := |Slots(g, i)|, NameCount(g[i]);
    var all := Slots(g, |g|);
    assert all[from..from + n][k] == all[from + k] == slots[from + k];
  }

  method CollectNames(g: Graph) returns (slots: seq<nat>)
    requires |g| > 0 && AllNamesOk(g)
    ensures slots == Slots(g, |g|)
  {
    slots := [];
    var i := 1;
    while i < |g|
      invariant 1 <= i <= |g| && slots == Slots(g, i)
    {
      slots := slots + Names(g[i]);
      i := i + 1;
    }
  }

  /** `g'` is `g` with the name offsets `slots`, from type 1 up to type n - 1. */
  ghost predicate RenamedTo(g: Graph, g': Graph, slots: seq<nat>, n: nat)
    requires AllNamesOk(g)
  {
    && |g'| == |g| && n <= |g| && |Slots(g, |g|)| <= |slots|
    && (forall i :: 0 <= i < |g| && (i == 0 || i >= n) ==> g'[i] == g[i])
    && (forall i :: 0 < i < n ==> IsRenamed(g, g', slots, i))
  }

  ghost predicate IsRenamed(g: Graph, g': Graph, slots: seq<nat>, i: nat)
    requires AllNamesOk(g) && 0 < i < |g| == |g'|
  {
    var from := |Slots(g, i)|;
    from + NameCount(g[i]) <= |slots| && g'[i] == Renamed(g[i], slots[from..from + NameCount(g[i])])
  }

  method WriteNames(g: Graph, slots: seq<nat>) returns (g': Graph)
    requires WellFormed(g) && AllNamesOk(g) && |Slots(g, |g|)| <= |slots|
    ensures RenamedTo(g, g', slots, |g|)
  {
    hide Slots, RenamedTo, AllNamesOk, Renamed, WellFormed;
    g' := g;
    VoidFirst(g);
    var i, at := 1, 0;
    NoSlots(g);
    RenamedStart(g, slots);
    while i < |g|
      invariant 1 <= i <= |g| && at == |Slots(g, i)| && RenamedTo(g, g', slots, i)
    {
      SlotsAt(g, i);
      var n := NameCount(g[i]);
      RenamedStep(g, g', slots, i);
      g' := g'[i := Renamed(g[i], slots[at..at + n])];
      i, at := i + 1, at + n;
    }
  }

  lemma RenamedStart(g: Graph, slots: seq<nat>)
    requires |g| > 0 && AllNamesOk(g) && |Slots(g, |g|)| <= |slots|
    ensures RenamedTo(g, g, slots, 1)
  {
  }

  lemma RenamedStep(g: Graph, g': Graph, slots: seq<nat>, i: nat)
    requires AllNamesOk(g) && 0 < i < |g| && RenamedTo(g, g', slots, i) && |Slots(g, i)| + NameCount(g[i]) <= |slots|
    ensures |g'| == |g|
    ensures RenamedTo(g, g'[i := Renamed(g[i], slots[|Slots(g, i)|..|Slots(g, i)| + NameCount(g[i])])], slots, i + 1)
  {
    hide Slots, Renamed;
    var g2 := g'[i := Renamed(g[i], slots[|Slots(g, i)|..|Slots(g, i)| + NameCount(g[i])])];
    forall j | 0 < j < i + 1 ensures IsRenamed(g, g2, slots, j) {
      if j < i { assert IsRenamed(g, g', slots, j); }
    }
  }

  lemma NoSlots(g: Graph)
    requires |g| > 0 && AllNamesOk(g)
    ensures Slots(g, 1) == []
  {
  }

  /** The slots of the renamed graph are the new offsets. */
  lemma {:induction false} SlotsRenamed(g: Graph, g': Graph, slots: seq<nat>, n: nat)
    requires AllNamesOk(g) && RenamedTo(g, g', slots, |g|) && 0 < n <= |g| && AllNamesOk(g')
    ensures |Slots(g', n)| == |Slots(g, n)| <= |slots| && Slots(g', n) == slots[..|Slots(g, n)|]
    decreases n
  {
    hide Slots, Renamed, Names;
    SlotsPrefix(g, n, |g|);
    if n > 1 {
      SlotsRenamed(g, g', slots, n - 1);
      SlotsStep(g, n);
      SlotsStep(g', n);
      assert IsRenamed(g, g', slots, n - 1);
      var from, k := |Slots(g, n - 1)|, NameCount(g[n - 1]);
      NamesRenamed(g[n - 1], slots[from..from + k]);
      assert slots[..from + k] == slots[..from] + slots[from..from + k];
    } else {
      NoSlots(g);
      NoSlots(g');
    }
  }

  lemma SlotsStep(g: Graph, n: nat)
    requires 1 < n <= |g| && AllNamesOk(g)
    ensures Slots(g, n) == Slots(g, n - 1) + Names(g[n - 1]) && NamesOk(g[n - 1])
  {
  }

  lemma NamesRenamed(t: BtfType, names: seq<nat>)
    requires |names| == NameCount(t)
    ensures NamesOk(Renamed(t, names)) && Names(Renamed(t, names)) == names
  {
  }

  lemma RenamedWellFormed(g: Graph, g': Graph, slots: seq<nat>)
    requires WellFormed(g) && AllNamesOk(g) && RenamedTo(g, g', slots, |g|)
    ensures WellFormed(g') && AllNamesOk(g') && |g'| == |g|
    ensures forall i :: 0 <= i < |g| ==> g'[i].refs == g[i].refs && g'[i].info == g[i].info
  {
    hide Slots;
    forall i | 0 <= i < |g|
      ensures RecordOk(g'[i]) && RefsBelow(g'[i], |g'|) && NamesOk(g'[i]) && g'[i].refs == g[i].refs && g'[i].info == g[i].info
    {
      assert RecordOk(g[i]) && RefsBelow(g[i], |g|);
      if i > 0 {
        assert IsRenamed(g, g', slots, i);
        RenamedRecordOk(g[i], slots[|Slots(g, i)|..|Slots(g, i)| + NameCount(g[i])]);
      }
    }
  }

  lemma RenamedRecordOk(t: BtfType, names: seq<nat>)
    requires RecordOk(t) && |names| == NameCount(t)
    ensures RecordOk(Renamed(t, names)) && NamesOk(Renamed(t, names))
  {
  }

  /** If the new offsets denote the old strings, every record says what it said before. */
  lemma RenamedSameText(sec: seq<nat>, t: BtfType, sec': seq<nat>, names: seq<nat>)
    requires NamesOk(t) && |names| == NameCount(t) && forall k :: 0 <= k < |names| ==> StrAt(sec', names[k]) == StrAt(sec, Names(t)[k])
    ensures SameText(sec, t, sec', Renamed(t, names))
  {
    NamesRenamed(t, names);
    var t' := Renamed(t, names);
    hide StrAt;
    forall k | 0 <= k < |t.fields| ensures SameField(sec, t, sec', t', k) {
      if NamesFields(t.Kind()) { assert Names(t)[k + 1] == t.fields[k].first && t'.fields[k].first == names[k + 1]; }
    }
  }

  ghost predicate SlotsKept(sec: seq<nat>, slots: seq<nat>, sec': seq<nat>, slots': seq<nat>) {
    |slots'| == |slots| && forall k :: 0 <= k < |slots| ==> StrAt(sec', slots'[k]) == StrAt(sec, slots[k])
  }

  lemma VoidText(sec: seq<nat>, t: BtfType, sec': seq<nat>, g: Graph)
    requires WellFormed(g) && t == g[0] && StrAt(sec, t.nameOff) == StrAt(sec', t.nameOff)
    ensures SameText(sec, t, sec', t)
  {
    assert RecordOk(g[0]);
  }

  lemma RenamedAll(sec: seq<nat>, g: Graph, sec': seq<nat>, g': Graph, slots: seq<nat>, slots': seq<nat>, i: nat)
    requires WellFormed(g) && AllNamesOk(g) && RenamedTo(g, g', slots', |g|) && i < |g|
    requires SlotsKept(sec, slots, sec', slots') && Slots(g, |g|) <= slots && StrAt(sec, g[0].nameOff) == StrAt(sec', g[0].nameOff)
    ensures SameText(sec, g[i], sec', g'[i])
  {
    hide Slots, StrAt, SameText, Renamed, Names, WellFormed;
    if i == 0 {
      VoidText(sec, g[0], sec', g);
    } else {
      SlotsAt(g, i);
      assert IsRenamed(g, g', slots', i);
      var from, n := |Slots(g, i)|, NameCount(g[i]);
      var names := slots'[from..from + n];
      forall k | 0 <= k < n ensures StrAt(sec', names[k]) == StrAt(sec, Names(g[i])[k]) {
        NameAt(g, slots, i, k);
        assert names[k] == slots'[from + k];
      }
      RenamedSameText(sec, g[i], sec', names);
    }
  }

  // ----- both passes together -----

  lemma {:induction false} SameMeaningThen(k: nat, sec: seq<nat>, g: Graph, a: nat, sec': seq<nat>, g1: Graph, out: Graph, b: nat)
    requires WellFormed(g) && WellFormed(g1) && WellFormed(out) && |g1| == |g| && a < |g| && b < |out|
    requires forall i :: 0 <= i < |g| ==> SameText(sec, g[i], sec', g1[i]) && g1[i].refs == g[i].refs
    requires SameToDepth(k, g1, a, out, b)
    ensures SameMeaningTo(k, sec, g, a, sec', out, b)
    decreases k
  {
    if k > 0 {
      assert RefsBelow(g[a], |g|) && RefsBelow(out[b], |out|);
      hide SameText, Label, WellFormed, RefsBelow;
      LabelText(sec, g[a], sec', g1[a], out[b]);
      forall j | 0 <= j < |g[a].refs| ensures SameMeaningTo(k - 1, sec, g, g[a].refs[j], sec', out, out[b].refs[j]) {
        SameMeaningThen(k - 1, sec, g, g[a].refs[j], sec', g1, out, out[b].refs[j]);
      }
    }
  }

  lemma LabelText(sec: seq<nat>, t: BtfType, sec': seq<nat>, t': BtfType, u: BtfType)
    requires SameText(sec, t, sec', t') && Label(u) == Label(t')
    ensures SameText(sec, t, sec', u)
  {
    hide StrAt;
    SameLabelParts(t', u);
    forall k | 0 <= k < |t.fields| ensures SameField(sec, t, sec', u, k) { assert SameField(sec, t, sec', t', k); }
  }

  lemma SameLabelParts(t: BtfType, u: BtfType)
    requires Label(u) == Label(t)
    ensures u.nameOff == t.nameOff && u.info == t.info && u.size == t.size && u.fields == t.fields
  {
    assert u.nameOff == Label(u).nameOff && t.nameOff == Label(t).nameOff;
    assert u.info == Label(u).info && t.info == Label(t).info;
    assert u.size == Label(u).size && t.size == Label(t).size;
    assert u.fields == Label(u).fields && t.fields == Label(t).fields;
  }

  /** The names of a record are offsets of strings of the section. */
  ghost predicate NamesStart(sec: seq<nat>, t: BtfType) {
    NamesOk(t) && forall k :: 0 <= k < |Names(t)| ==> Names(t)[k] == 0 || IsStart(sec, Names(t)[k])
  }

  /** In a section without equal strings, records that say the same are the same. */
  lemma TextIsRecord(sec: seq<nat>, t: BtfType, u: BtfType)
    requires SectionOk(sec) && NoEqualStrings(sec) && NamesStart(sec, t) && NamesStart(sec, u)
    requires SameText(sec, t, sec, u) && t.refs == u.refs
    ensures t == u
  {
    hide StrAt;
    assert Names(t)[0] == t.nameOff && Names(u)[0] == u.nameOff;
    SameStart(sec, t.nameOff, u.nameOff);
    forall k | 0 <= k < |t.fields| ensures t.fields[k] == u.fields[k] {
      assert SameField(sec, t, sec, u, k);
      if NamesFields(t.Kind()) {
        assert Names(t)[k + 1] == t.fields[k].first && Names(u)[k + 1] == u.fields[k].first;
        SameStart(sec, t.fields[k].first, u.fields[k].first);
      }
    }
    assert t.fields == u.fields;
  }

  lemma SameStart(sec: seq<nat>, a: nat, b: nat)
    requires SectionOk(sec) && NoEqualStrings(sec) && (a == 0 || IsStart(sec, a)) && (b == 0 || IsStart(sec, b))
    requires StrAt(sec, a) == StrAt(sec, b)
    ensures a == b
  {
    assert IsStart(sec, 0);
  }

  /** No two primitive or reference types of the output say the same about the same types. */
  ghost predicate NoTextDuplicates(sec: seq<nat>, out: Graph, fwds: bool) {
    forall p, q :: 0 < p < q < |out| && Counts(out[p].Kind(), fwds) ==> !(SameText(sec, out[p], sec, out[q]) && out[p].refs == out[q].refs)
  }

  lemma TextUnique(sec: seq<nat>, g1: Graph, out: Graph, final: seq<nat>, kept: seq<nat>, fwds: bool)
    requires SectionOk(sec) && NoEqualStrings(sec) && NoDuplicates(out, fwds) && KeptFrom(g1, out, final, kept)
    requires forall i :: 0 < i < |g1| ==> NamesStart(sec, g1[i])
    requires WellFormed(g1) && WellFormed(out)
    ensures NoTextDuplicates(sec, out, fwds)
  {
    hide NoEqualStrings, SectionOk, SameText, KeptFrom;
    forall p, q | 0 < p < q < |out| && Counts(out[p].Kind(), fwds)
      ensures !(SameText(sec, out[p], sec, out[q]) && out[p].refs == out[q].refs)
    {
      OutNames(sec, g1, out, final, kept, p);
      OutNames(sec, g1, out, final, kept, q);
      if SameText(sec, out[p], sec, out[q]) && out[p].refs == out[q].refs { TextIsRecord(sec, out[p], out[q]); }
    }
  }

  lemma OutNames(sec: seq<nat>, g1: Graph, out: Graph, final: seq<nat>, kept: seq<nat>, p: nat)
    requires KeptFrom(g1, out, final, kept) && 0 < p < |out| && WellFormed(g1) && WellFormed(out)
    requires forall i :: 0 < i < |g1| ==> NamesStart(sec, g1[i])
    ensures NamesStart(sec, out[p])
  {
    hide WellFormed, IsStart;
    assert KeptEntry(g1, out, final, kept, p);
    var i := kept[p];
    SameLabelParts(g1[i], out[p]);
    OnlyVoidUnkn(g1, out, i, p);
    assert Names(out[p]) == Names(g1[i]);
  }

  lemma OnlyVoidUnkn(g: Graph, out: Graph, i: nat, p: nat)
    requires WellFormed(g) && WellFormed(out) && i < |g| && 0 < p < |out| && g[i].info == out[p].info
    ensures i > 0
  {
  }

  lemma NamesOfSlots(sec: seq<nat>, g: Graph, slots: seq<nat>, i: nat)
    requires 0 < i < |g| && AllNamesOk(g) && Slots(g, |g|) <= slots && SlotsOk(sec, slots)
    ensures NamesStart(sec, g[i])
  {
    hide Slots, IsStart, Names, NameCount;
    forall k | 0 <= k < NameCount(g[i]) ensures Names(g[i])[k] == 0 || IsStart(sec, Names(g[i])[k]) { NameAt(g, slots, i, k); }
  }

  class Btf {
    var types: seq<BtfType>
    var section: seq<nat>    // the string section
    var lineInfo: seq<nat>   // the name offsets of the line information, in order

    /** Void has no name. */
    ghost predicate Valid()
      reads this
    {
      WellFormed(types) && |types| <= MAX_NR_TYPES + 1 && AllNamesOk(types) && types[0].nameOff == 0 && SectionOk(section)
    }

    /** All name offsets the string pass visits. */
    ghost function AllSlots(): seq<nat>
      requires Valid()
      reads this
    {
      Slots(types, |types|) + lineInfo
    }

    /** The string pass: every record says what it said before, over a section without equal strings. */
    method DedupNames() returns (r: int)
      requires Valid()
      modifies this
      ensures Valid() && |types| == |old(types)| && |lineInfo| == |old(lineInfo)|
      ensures r == 0 || r == EINVAL
      ensures r == 0 <==> SlotsOk(old(section), old(AllSlots()))
      ensures r != 0 ==> types == old(types) && section == old(section) && lineInfo == old(lineInfo)
      ensures forall i :: 0 <= i < |types| ==> SameText(old(section), old(types)[i], section, types[i])
      ensures forall i :: 0 <= i < |types| ==> types[i].refs == old(types)[i].refs && types[i].info == old(types)[i].info
      ensures forall k :: 0 <= k < |lineInfo| ==> StrAt(section, lineInfo[k]) == StrAt(old(section), old(lineInfo)[k])
      ensures r == 0 ==> NoEqualStrings(section) && forall i :: 0 < i < |types| ==> NamesStart(section, types[i])
      ensures r == 0 ==> OnlyReferenced(section, old(section), old(AllSlots())) && |section| <= |old(section)|
    {
      hide WellFormed, StrAt, SameText, Slots, NoEqualStrings, OnlyReferenced, SlotsOk, NamesStart, RenamedTo, AllNamesOk;
      ghost var g, sec := types, section;
      VoidFirst(g);
      var slots := CollectNames(types);
      var n := |slots|;
      var strings := new StringSection(section, slots + lineInfo);
      ghost var all := slots + lineInfo;
      r := strings.DedupStrings();
      if r < 0 {
        forall i | 0 <= i < |types| ensures SameText(section, types[i], section, types[i]) { SameTextRefl(section, types, i); }
        return;
      }
      var names := strings.slots;
      types := WriteNames(types, names);
      section, lineInfo := strings.section, names[n..];
      RenamedWellFormed(g, types, names);
      NamesWritten(sec, g, all, section, types, names);
      LineInfoKept(sec, all, section, names, n);
    }

    /**
     Deduplicates strings and types. On success every type means what it meant before, the strings of its unfolding
     included: without forward resolution altogether, and with it in the view by name if forward declarations have
     names. Over clean input two types get one id exactly if they mean the same. Every output type comes from some
     input type; no two primitive or reference types say the same about the same types; no two strings are equal and
     all but the empty one were denoted before. It fails exactly when a name offset is not that of a string or the
     types form a cycle of references, unless types refer to variables or data sections that share a name.
     */
    method Dedup(hash: BtfType -> int, noFwd: bool) returns (r: int, ghost final: seq<nat>)
      requires Valid()
      modifies this
      ensures r in {0, EINVAL, ELOOP}
      ensures r == 0 ==> WellFormed(types) && RefAcyclic(types) && SectionOk(section)
      ensures r == 0 ==> |final| == |old(types)| && forall i :: 0 <= i < |final| ==> final[i] < |types|
      ensures r == 0 && TextMeant(old(section), old(types), noFwd) ==>
                forall i :: 0 <= i < |final| ==>
                  SameMeaning(old(section), TextView(old(section), old(types), noFwd), i, section, TextView(section, types, noFwd), final[i])
      ensures r == 0 && TextClean(old(section), old(types), noFwd, hash) ==> TextQuotient(old(section), old(types), noFwd, final)
      ensures r == 0 ==> forall p :: 0 <= p < |types| ==> p in final
      ensures r == 0 ==> NoTextDuplicates(section, types, FwdsPlain(old(types)))
      ensures r == 0 ==> NoEqualStrings(section) && OnlyReferenced(section, old(section), old(AllSlots())) && |section| <= |old(section)|
      ensures |lineInfo| == |old(lineInfo)|
      ensures forall k :: 0 <= k < |lineInfo| ==> StrAt(section, lineInfo[k]) == StrAt(old(section), old(lineInfo)[k])
      ensures !SlotsOk(old(section), old(AllSlots())) ==> r == EINVAL && types == old(types) && section == old(section)
      ensures SlotsOk(old(section), old(AllSlots())) && r == EINVAL ==> DataTextClash(old(section), old(types))
      ensures SlotsOk(old(section), old(AllSlots())) && !DataTextClash(old(section), old(types)) ==> (r == 0 <==> RefAcyclic(old(types)))
    {
      hide WellFormed, StrAt, SameText, Slots, NoEqualStrings, OnlyReferenced, SlotsOk, NamesStart, RenamedTo, AllNamesOk, RefAcyclic,
        NoDuplicates, KeptFrom, Bisimilar, DataClash, NoTextDuplicates, SameMeaning, FwdsPlain, SectionOk, DataTextClash, View, TextView,
        Meant, TextMeant, Clean, TextClean, Quotient, TextQuotient, Respelled;
      final := [];
      ghost var g, sec := types, section;
      VoidFirst(g);
      r := DedupNames();
      if r < 0 { return; }
      ghost var g1 := types;
      RespelledBy(sec, g, section, g1);
      SameCycles(g, g1);
      SameFwds(g, g1);
      ghost var kept;
      r, final, kept := DedupTypes(hash, noFwd);
      if r == EINVAL { ClashText(sec, g, section, g1); }
      if r < 0 { return; }
      TextUnique(section, g1, types, final, kept, FwdsPlain(g1));
      forall p | 0 <= p < |types| ensures p in final { StandsIn(g1, types, final, kept, p); }
      if TextMeant(sec, g, noFwd) { ViewKept(sec, g, section, g1, types, noFwd, final, kept); }
      if TextClean(sec, g, noFwd, hash) {
        CleanRespelled(sec, g, section, g1, noFwd, hash);
        QuotientText(sec, g, section, g1, noFwd, final);
      }
    }

    /** The type passes over the renamed records. */
    method DedupTypes(hash: BtfType -> int, noFwd: bool) returns (r: int, ghost final: seq<nat>, ghost kept: seq<nat>)
      requires WellFormed(types) && |types| <= MAX_NR_TYPES + 1
      modifies `types
      ensures r in {0, EINVAL, ELOOP} && (r != 0 ==> final == [])
      ensures r == 0 ==> WellFormed(types) && RefAcyclic(types) && RefAcyclic(old(types)) && KeptFrom(old(types), types, final, kept)
      ensures r == 0 ==> |final| == |old(types)| && forall i :: 0 <= i < |final| ==> final[i] < |types|
      ensures r == 0 && Meant(old(types), noFwd) ==> forall i :: 0 <= i < |final| ==> Bisimilar(View(old(types), noFwd), i, View(types, noFwd), final[i])
      ensures r == 0 && Clean(old(types), noFwd, hash) ==> Quotient(old(types), noFwd, final)
      ensures r == 0 ==> NoDuplicates(types, FwdsPlain(old(types)))
      ensures (r == ELOOP ==> !RefAcyclic(old(types))) && (r == EINVAL ==> DataClash(old(types)))
    {
      hide WellFormed, RefAcyclic, NoDuplicates, KeptFrom, Bisimilar, DataClash, FwdsPlain, InitialMap, View, Meant, Clean, Quotient;
      var d := new D.BtfDedup(types, hash, noFwd);
      r, final, kept := d.Dedup();
      if r < 0 {
        final := [];
        return;
      }
      types := d.types[..d.nrTypes + 1];
    }
  }

  lemma RespelledBy(sec: seq<nat>, g: Graph, sec1: seq<nat>, g1: Graph)
    requires |g| == |g1| && |g| > 0 && g1[0].nameOff == 0 && SectionOk(sec1) && NoEqualStrings(sec1)
    requires forall i :: 0 <= i < |g| ==> SameText(sec, g[i], sec1, g1[i])
    requires forall i :: 0 <= i < |g| ==> g1[i].refs == g[i].refs && g1[i].info == g[i].info
    requires forall i :: 0 < i < |g1| ==> NamesStart(sec1, g1[i])
    ensures Respelled(sec, g, sec1, g1)
  {
    hide SameText, NoEqualStrings, SectionOk, NamesStart;
  }

  /** The output is its own view by text. */
  lemma OutView(sec: seq<nat>, g1: Graph, out: Graph, noFwd: bool, final: seq<nat>, kept: seq<nat>)
    requires SectionOk(sec) && NoEqualStrings(sec) && KeptFrom(g1, out, final, kept) && WellFormed(g1) && WellFormed(out) && g1[0].nameOff == 0
    requires forall i :: 0 < i < |g1| ==> NamesStart(sec, g1[i])
    ensures TextView(sec, out, noFwd) == View(out, noFwd)
  {
    assert KeptEntry(g1, out, final, kept, 0);
    forall i | 0 <= i < |out| ensures TextShown(sec, noFwd, out[i]) == Shown(noFwd, out[i]) {
      OutShown(sec, g1, out, noFwd, final, kept, i);
    }
    assert TextView(sec, out, noFwd) == View(out, noFwd);
  }

  lemma OutShown(sec: seq<nat>, g1: Graph, out: Graph, noFwd: bool, final: seq<nat>, kept: seq<nat>, i: nat)
    requires SectionOk(sec) && NoEqualStrings(sec) && KeptFrom(g1, out, final, kept) && WellFormed(g1) && WellFormed(out) && g1[0].nameOff == 0
    requires (forall i :: 0 < i < |g1| ==> NamesStart(sec, g1[i])) && i < |out|
    ensures TextShown(sec, noFwd, out[i]) == Shown(noFwd, out[i])
  {
    if i > 0 {
      hide WellFormed, KeptFrom, NoEqualStrings, SectionOk, IsStart;
      OutNames(sec, g1, out, final, kept, i);
      NameStarts(sec, out[i]);
    } else {
      assert KeptEntry(g1, out, final, kept, 0);
      SameLabelParts(g1[kept[0]], out[0]);
      assert g1[kept[0]].Kind() == Unkn && kept[0] == 0;
    }
    ShownText(sec, noFwd, out[i]);
  }

  lemma ViewKept(sec: seq<nat>, g: Graph, sec1: seq<nat>, g1: Graph, out: Graph, noFwd: bool, final: seq<nat>, kept: seq<nat>)
    requires WellFormed(g) && WellFormed(g1) && WellFormed(out) && Respelled(sec, g, sec1, g1) && TextMeant(sec, g, noFwd) && KeptFrom(g1, out, final, kept)
    requires |final| == |g| && forall i :: 0 <= i < |final| ==> final[i] < |out|
    requires Meant(g1, noFwd) ==> forall i :: 0 <= i < |final| ==> Bisimilar(View(g1, noFwd), i, View(out, noFwd), final[i])
    ensures forall i :: 0 <= i < |final| ==> SameMeaning(sec, TextView(sec, g, noFwd), i, sec1, TextView(sec1, out, noFwd), final[i])
  {
    RespelledMeant(sec, g, sec1, g1, noFwd);
    RespelledView(sec, g, sec1, g1, noFwd);
    OutView(sec1, g1, out, noFwd, final, kept);
    hide WellFormed, Respelled, TextMeant, Meant, View, TextView, Bisimilar, SameMeaning, SameText, KeptFrom;
    forall i | 0 <= i < |final| ensures SameMeaning(sec, TextView(sec, g, noFwd), i, sec1, TextView(sec1, out, noFwd), final[i]) {
      MeaningKept(sec, TextView(sec, g, noFwd), i, sec1, View(g1, noFwd), View(out, noFwd), final[i]);
    }
  }

  /** Some struct, union or reference type refers to a variable or data section that shares its name with another. */
  ghost predicate DataTextClash(sec: seq<nat>, g: Graph) {
    exists a: nat, b: nat, i: nat :: DataTextPair(sec, g, a, b) && RefersTo(g, i, a)
  }

  ghost predicate DataTextPair(sec: seq<nat>, g: Graph, a: nat, b: nat) {
    a < |g| && b < |g| && a != b && IsData(g[a].Kind()) && g[b].Kind() == g[a].Kind() && StrAt(sec, g[b].nameOff) == StrAt(sec, g[a].nameOff)
  }

  lemma ClashText(sec: seq<nat>, g: Graph, sec': seq<nat>, g': Graph)
    requires |g| == |g'| && DataClash(g')
    requires forall i :: 0 <= i < |g| ==> SameText(sec, g[i], sec', g'[i]) && g'[i].refs == g[i].refs && g'[i].info == g[i].info
    ensures DataTextClash(sec, g)
  {
    hide StrAt;
    var a: nat, b: nat, i: nat :| DataPair(g', a, b) && RefersTo(g', i, a);
    assert SameText(sec, g[a], sec', g'[a]) && SameText(sec, g[b], sec', g'[b]);
    assert g[i].Kind() == g'[i].Kind();
    assert DataTextPair(sec, g, a, b) && RefersTo(g, i, a);
  }

  lemma VoidFirst(g: Graph)
    requires WellFormed(g)
    ensures |g| > 0
  {
  }

  lemma SameTextRefl(sec: seq<nat>, g: Graph, i: nat)
    requires i < |g| && AllNamesOk(g)
    ensures SameText(sec, g[i], sec, g[i])
  {
  }

  lemma NamesWritten(sec: seq<nat>, g: Graph, slots: seq<nat>, sec': seq<nat>, g': Graph, slots': seq<nat>)
    requires WellFormed(g) && AllNamesOk(g) && AllNamesOk(g') && RenamedTo(g, g', slots', |g|) && g[0].nameOff == 0
    requires SectionOk(sec) && SectionOk(sec') && SlotsKept(sec, slots, sec', slots') && Slots(g, |g|) <= slots && SlotsOk(sec', slots')
    ensures |g'| == |g| && g'[0] == g[0]
    ensures forall i :: 0 <= i < |g| ==> SameText(sec, g[i], sec', g'[i])
    ensures forall i :: 0 < i < |g'| ==> NamesStart(sec', g'[i])
  {
    assert StrAt(sec, 0) == StrAt(sec', 0) == [];
    assert |g'| == |g| && g'[0] == g[0] && |g| > 0;
    hide WellFormed, AllNamesOk, RenamedTo, SlotsKept, SlotsOk, SameText, NamesStart, Slots, StrAt;
    forall i | 0 <= i < |g| ensures SameText(sec, g[i], sec', g'[i]) { RenamedAll(sec, g, sec', g', slots, slots', i); }
    SlotsRenamed(g, g', slots', |g|);
    forall i | 0 < i < |g'| ensures NamesStart(sec', g'[i]) { NamesOfSlots(sec', g', slots', i); }
  }

  lemma LineInfoKept(sec: seq<nat>, slots: seq<nat>, sec': seq<nat>, slots': seq<nat>, n: nat)
    requires SlotsKept(sec, slots, sec', slots') && n <= |slots|
    ensures |slots'[n..]| == |slots[n..]|
    ensures forall k :: 0 <= k < |slots'[n..]| ==> StrAt(sec', slots'[n..][k]) == StrAt(sec, slots[n..][k])
  {
    hide StrAt;
  }

  lemma SameCycles(g: Graph, g': Graph)
    requires WellFormed(g) && WellFormed(g') && |g| == |g'|
    requires forall i :: 0 <= i < |g| ==> g'[i].refs == g[i].refs && g'[i].info == g[i].info
    ensures RefAcyclic(g) <==> RefAcyclic(g')
  {
    if RefAcyclic(g) {
      var rank: seq<nat> :| |rank| == |g| && RefRanked(g, rank);
      SameRanks(g, g', rank);
    }
    if RefAcyclic(g') {
      var rank: seq<nat> :| |rank| == |g'| && RefRanked(g', rank);
      SameRanks(g', g, rank);
    }
  }

  lemma SameRanks(g: Graph, g': Graph, rank: seq<nat>)
    requires WellFormed(g) && WellFormed(g') && |g| == |g'| == |rank| && RefRanked(g, rank)
    requires forall i :: 0 <= i < |g| ==> g'[i].refs == g[i].refs && g'[i].info == g[i].info
    ensures RefRanked(g', rank)
  {
    forall i, j | 0 <= i < |g'| && IsReference(g'[i].Kind()) && 0 <= j < |g'[i].refs| && IsReference(g'[g'[i].refs[j]].Kind())
      ensures rank[g'[i].refs[j]] < rank[i]
    {
      assert RefsBelow(g[i], |g|);
      assert g[i].Kind() == g'[i].Kind() && g[g[i].refs[j]].Kind() == g'[g'[i].refs[j]].Kind();
    }
  }

  lemma SameFwds(g: Graph, g': Graph)
    requires |g| == |g'| && forall i :: 0 <= i < |g| ==> g'[i].refs == g[i].refs && g'[i].info == g[i].info
    ensures FwdsPlain(g) <==> FwdsPlain(g')
  {
    forall i | 0 <= i < |g| ensures g[i].Kind() == g'[i].Kind() { }
  }

  lemma StandsIn(g: Graph, out: Graph, final: seq<nat>, kept: seq<nat>, p: nat)
    requires KeptFrom(g, out, final, kept) && p < |out|
    ensures p in final
  {
    assert KeptEntry(g, out, final, kept, p);
  }

  lemma MeaningKept(sec: seq<nat>, g: Graph, a: nat, sec': seq<nat>, g1: Graph, out: Graph, b: nat)
    requires WellFormed(g) && WellFormed(g1) && WellFormed(out) && |g1| == |g| && a < |g| && b < |out|
    requires forall i :: 0 <= i < |g| ==> SameText(sec, g[i], sec', g1[i]) && g1[i].refs == g[i].refs
    requires Bisimilar(g1, a, out, b)
    ensures SameMeaning(sec, g, a, sec', out, b)
  {
    hide WellFormed, SameText, SameToDepth, SameMeaningTo;
    forall k: nat ensures SameMeaningTo(k, sec, g, a, sec', out, b) { SameMeaningThen(k, sec, g, a, sec', g1, out, b); }
  }

  // ----- the view, with names read as strings -----

  ghost function TextShown(sec: seq<nat>, noFwd: bool, t: BtfType): BtfType {
    if noFwd || StrAt(sec, t.nameOff) == [] then t else ByName(t)
  }

  /** The graph itself, or with forward resolution what it says by name. */
  ghost function TextView(sec: seq<nat>, g: Graph, noFwd: bool): (v: Graph)
    ensures |v| == |g| && forall i :: 0 <= i < |g| ==> v[i] == TextShown(sec, noFwd, g[i])
    ensures noFwd ==> v == g
    ensures WellFormed(g) ==> WellFormed(v)
  {
    var v := seq(|g|, i requires 0 <= i < |g| => TextShown(sec, noFwd, g[i]));
    Recut(g, v);
    v
  }

  /** Forward declarations have names. */
  ghost predicate TextMeant(sec: seq<nat>, g: Graph, noFwd: bool) {
    noFwd || forall i :: 0 <= i < |g| && (g[i].Kind() == Fwd || IsEnumFwd(g[i])) ==> StrAt(sec, g[i].nameOff) != []
  }

  /** `g1` over section `sec1` says what `g` says over `sec`, and no two strings of `sec1` are equal. */
  ghost predicate Respelled(sec: seq<nat>, g: Graph, sec1: seq<nat>, g1: Graph) {
    && |g| == |g1| && |g| > 0 && g1[0].nameOff == 0 && SectionOk(sec1) && NoEqualStrings(sec1)
    && (forall i :: 0 <= i < |g| ==> SameText(sec, g[i], sec1, g1[i]) && g1[i].refs == g[i].refs && g1[i].info == g[i].info)
    && (forall i :: 0 < i < |g1| ==> NamesStart(sec1, g1[i]))
  }

  /** In a section without equal strings only offset 0 denotes the empty string. */
  lemma EmptyName(sec: seq<nat>, a: nat)
    requires SectionOk(sec) && NoEqualStrings(sec) && (a == 0 || IsStart(sec, a))
    ensures StrAt(sec, a) == [] <==> a == 0
  {
    assert StrAt(sec, 0) == [];
    if StrAt(sec, a) == [] { SameStart(sec, a, 0); }
  }

  lemma ShownText(sec: seq<nat>, noFwd: bool, t: BtfType)
    requires SectionOk(sec) && NoEqualStrings(sec) && (t.nameOff == 0 || IsStart(sec, t.nameOff))
    ensures TextShown(sec, noFwd, t) == Shown(noFwd, t)
  {
    EmptyName(sec, t.nameOff);
  }

  lemma NameStarts(sec: seq<nat>, t: BtfType)
    requires NamesStart(sec, t)
    ensures t.nameOff == 0 || IsStart(sec, t.nameOff)
  {
    assert Names(t)[0] == t.nameOff;
  }

  lemma SameShown(sec: seq<nat>, t: BtfType, sec': seq<nat>, t': BtfType, noFwd: bool)
    requires SameText(sec, t, sec', t') && t'.refs == t.refs
    ensures var u, u' := TextShown(sec, noFwd, t), TextShown(sec', noFwd, t'); SameText(sec, u, sec', u') && u'.refs == u.refs && u'.info == u.info
  {
    hide StrAt;
  }

  /** The views of a graph and of its new spelling. */
  lemma RespelledView(sec: seq<nat>, g: Graph, sec1: seq<nat>, g1: Graph, noFwd: bool)
    requires Respelled(sec, g, sec1, g1)
    ensures TextView(sec1, g1, noFwd) == View(g1, noFwd)
    ensures forall i :: 0 <= i < |g| ==>
      SameText(sec, TextView(sec, g, noFwd)[i], sec1, View(g1, noFwd)[i]) && View(g1, noFwd)[i].refs == TextView(sec, g, noFwd)[i].refs
  {
    hide StrAt, NoEqualStrings, SectionOk, IsStart, SameText, TextShown, Shown, WellFormed;
    forall i | 0 <= i < |g|
      ensures TextShown(sec1, noFwd, g1[i]) == Shown(noFwd, g1[i])
      ensures SameText(sec, TextView(sec, g, noFwd)[i], sec1, View(g1, noFwd)[i]) && View(g1, noFwd)[i].refs == TextView(sec, g, noFwd)[i].refs
    {
      if i > 0 { NameStarts(sec1, g1[i]); }
      ShownText(sec1, noFwd, g1[i]);
      SameShown(sec, g[i], sec1, g1[i], noFwd);
    }
    assert TextView(sec1, g1, noFwd) == View(g1, noFwd);
  }

  lemma RespelledMeant(sec: seq<nat>, g: Graph, sec1: seq<nat>, g1: Graph, noFwd: bool)
    requires Respelled(sec, g, sec1, g1) && TextMeant(sec, g, noFwd)
    ensures Meant(g1, noFwd)
  {
    hide NoEqualStrings, IsStart, NamesStart;
    if !noFwd {
      forall i | 0 <= i < |g1| && (g1[i].Kind() == Fwd || IsEnumFwd(g1[i])) ensures g1[i].nameOff != 0 {
        assert SameText(sec, g[i], sec1, g1[i]) && g[i].Kind() == g1[i].Kind() && IsEnumFwd(g[i]) == IsEnumFwd(g1[i]);
        assert StrAt(sec1, 0) == [];
      }
    }
  }

  // ----- which types get one id, by text -----

  lemma TextSym(sec: seq<nat>, t: BtfType, sec': seq<nat>, t': BtfType)
    requires SameText(sec, t, sec', t')
    ensures SameText(sec', t', sec, t)
  {
    hide StrAt;
    forall k | 0 <= k < |t.fields| ensures SameField(sec', t', sec, t, k) { assert SameField(sec, t, sec', t', k); }
  }

  lemma TextTrans(sec: seq<nat>, t: BtfType, sec': seq<nat>, t': BtfType, sec2: seq<nat>, t2: BtfType)
    requires SameText(sec, t, sec', t') && SameText(sec', t', sec2, t2)
    ensures SameText(sec, t, sec2, t2)
  {
    hide StrAt;
    forall k | 0 <= k < |t.fields| ensures SameField(sec, t, sec2, t2, k) {
      assert SameField(sec, t, sec', t', k) && SameField(sec', t', sec2, t2, k);
    }
  }

  /** Records that say the same have equal labels. */
  ghost predicate TextTells(sec: seq<nat>, v: Graph) {
    forall i, j :: 0 <= i < |v| && 0 <= j < |v| && SameText(sec, v[i], sec, v[j]) ==> Label(v[i]) == Label(v[j])
  }

  lemma StartsTell(sec: seq<nat>, v: Graph)
    requires SectionOk(sec) && NoEqualStrings(sec) && |v| > 0 && forall i :: 0 <= i < |v| ==> NamesStart(sec, v[i])
    ensures TextTells(sec, v)
  {
    hide StrAt, NoEqualStrings, SectionOk, NamesStart;
    forall i, j | 0 <= i < |v| && 0 <= j < |v| && SameText(sec, v[i], sec, v[j]) ensures Label(v[i]) == Label(v[j]) {
      LabelStarts(sec, v[i]);
      LabelStarts(sec, v[j]);
      LabelTexts(sec, v[i], v[j]);
      TextIsRecord(sec, Label(v[i]), Label(v[j]));
    }
  }

  lemma LabelStarts(sec: seq<nat>, t: BtfType)
    requires NamesStart(sec, t)
    ensures NamesStart(sec, Label(t))
  {
    assert Names(Label(t)) == Names(t);
  }

  lemma LabelTexts(sec: seq<nat>, t: BtfType, u: BtfType)
    requires SameText(sec, t, sec, u)
    ensures SameText(sec, Label(t), sec, Label(u))
  {
    hide StrAt;
    forall k | 0 <= k < |t.fields| ensures SameField(sec, Label(t), sec, Label(u), k) { assert SameField(sec, t, sec, u, k); }
  }

  lemma TextOfLabels(sec: seq<nat>, t: BtfType, sec1: seq<nat>, t1: BtfType, u: BtfType, u1: BtfType)
    requires SameText(sec, t, sec1, t1) && SameText(sec, u, sec1, u1)
    requires SameText(sec1, t1, sec1, u1) ==> Label(t1) == Label(u1)
    ensures SameText(sec, t, sec, u) <==> Label(t1) == Label(u1)
  {
    hide SameText, Label;
    TextSym(sec, t, sec1, t1);
    TextSym(sec, u, sec1, u1);
    if SameText(sec, t, sec, u) {
      TextTrans(sec1, t1, sec, t, sec, u);
      TextTrans(sec1, t1, sec, u, sec1, u1);
    }
    if Label(t1) == Label(u1) {
      LabelText(sec, t, sec1, t1, u1);
      TextTrans(sec, t, sec1, u1, sec, u);
    }
  }

  /** `v1` over section `sec1` spells the records of `v` so that equal texts mean equal labels. */
  ghost predicate Spells(sec: seq<nat>, v: Graph, sec1: seq<nat>, v1: Graph) {
    |v| == |v1| && TextTells(sec1, v1) && forall i :: 0 <= i < |v| ==> SameText(sec, v[i], sec1, v1[i]) && v1[i].refs == v[i].refs
  }

  lemma SpelledPair(sec: seq<nat>, v: Graph, sec1: seq<nat>, v1: Graph, a: nat, b: nat)
    requires WellFormed(v) && Spells(sec, v, sec1, v1) && a < |v| && b < |v|
    ensures SameText(sec, v[a], sec, v[b]) <==> Label(v1[a]) == Label(v1[b])
    ensures |v1| == |v| && v1[a].refs == v[a].refs && v1[b].refs == v[b].refs
    ensures RefsBelow(v[a], |v|) && RefsBelow(v[b], |v|) && RefsBelow(v1[a], |v1|) && RefsBelow(v1[b], |v1|)
    ensures (forall j :: 0 <= j < |v[a].refs| ==> v[a].refs[j] < |v|) && forall j :: 0 <= j < |v[b].refs| ==> v[b].refs[j] < |v|
  {
    assert RefsBelow(v[a], |v|) && RefsBelow(v[b], |v|);
    hide SameText, Label, WellFormed;
    TextOfLabels(sec, v[a], sec1, v1[a], v[b], v1[b]);
  }

  /** If the unfoldings of the new spelling carry the same labels, those of the old one carry the same text. */
  lemma {:induction false} DepthToText(k: nat, sec: seq<nat>, v: Graph, sec1: seq<nat>, v1: Graph, a: nat, b: nat)
    requires WellFormed(v) && WellFormed(v1) && Spells(sec, v, sec1, v1) && a < |v| && b < |v| && SameToDepth(k, v1, a, v1, b)
    ensures SameMeaningTo(k, sec, v, a, sec, v, b)
    decreases k
  {
    hide *;
    SpelledPair(sec, v, sec1, v1, a, b);
    DepthHead(k, v1, a, b);
    if k > 0 {
      forall j | 0 <= j < |v[a].refs| ensures SameMeaningTo(k - 1, sec, v, v[a].refs[j], sec, v, v[b].refs[j]) {
        DepthToText(k - 1, sec, v, sec1, v1, v[a].refs[j], v[b].refs[j]);
      }
    }
    MeaningHead(k, sec, v, a, b);
  }

  /** One level of unfolding, as labels and as text. */
  lemma MeaningHead(k: nat, sec: seq<nat>, v: Graph, a: nat, b: nat)
    requires WellFormed(v) && a < |v| && b < |v| && RefsBelow(v[a], |v|) && RefsBelow(v[b], |v|)
    ensures k == 0 ==> SameMeaningTo(k, sec, v, a, sec, v, b)
    ensures k > 0 ==> (SameMeaningTo(k, sec, v, a, sec, v, b) <==>
      && SameText(sec, v[a], sec, v[b]) && |v[a].refs| == |v[b].refs|
      && forall j :: 0 <= j < |v[a].refs| ==> SameMeaningTo(k - 1, sec, v, v[a].refs[j], sec, v, v[b].refs[j]))
  {
    hide SameText, WellFormed;
  }

  /** And the other way round. */
  lemma {:induction false} TextToDepth(k: nat, sec: seq<nat>, v: Graph, sec1: seq<nat>, v1: Graph, a: nat, b: nat)
    requires WellFormed(v) && WellFormed(v1) && Spells(sec, v, sec1, v1) && a < |v| && b < |v| && SameMeaningTo(k, sec, v, a, sec, v, b)
    ensures SameToDepth(k, v1, a, v1, b)
    decreases k
  {
    hide *;
    SpelledPair(sec, v, sec1, v1, a, b);
    MeaningHead(k, sec, v, a, b);
    if k > 0 {
      forall j | 0 <= j < |v1[a].refs| ensures SameToDepth(k - 1, v1, v1[a].refs[j], v1, v1[b].refs[j]) {
        TextToDepth(k - 1, sec, v, sec1, v1, v[a].refs[j], v[b].refs[j]);
      }
    }
    DepthHead(k, v1, a, b);
  }

  /** Two types of the input mean the same in the view. */
  ghost predicate TextSame(sec: seq<nat>, g: Graph, noFwd: bool, a: nat, b: nat)
    requires WellFormed(g)
  {
    a < |g| && b < |g| && SameMeaning(sec, TextView(sec, g, noFwd), a, sec, TextView(sec, g, noFwd), b)
  }

  lemma ShownStarts(sec: seq<nat>, noFwd: bool, t: BtfType)
    requires NamesStart(sec, t)
    ensures NamesStart(sec, Shown(noFwd, t))
  {
    hide IsStart;
    var u := Shown(noFwd, t);
    assert Names(t)[0] == t.nameOff;
    assert u == t || (u.nameOff == t.nameOff && |u.fields| == 0 && Names(u) == [t.nameOff]) || u.fields == t.fields;
  }

  lemma TextSameIs(sec: seq<nat>, g: Graph, sec1: seq<nat>, g1: Graph, noFwd: bool, a: nat, b: nat)
    requires WellFormed(g) && WellFormed(g1) && Respelled(sec, g, sec1, g1) && a < |g| && b < |g|
    ensures TextSame(sec, g, noFwd, a, b) <==> SameIn(g1, noFwd, a, b)
  {
    var v, v1 := TextView(sec, g, noFwd), View(g1, noFwd);
    RespelledView(sec, g, sec1, g1, noFwd);
    RespelledTells(sec, g, sec1, g1, noFwd);
    assert Spells(sec, v, sec1, v1);
    hide WellFormed, Respelled, TextView, View, Spells, SameMeaningTo, SameToDepth;
    if TextSame(sec, g, noFwd, a, b) {
      forall k: nat ensures SameToDepth(k, v1, a, v1, b) { TextToDepth(k, sec, v, sec1, v1, a, b); }
    }
    if SameIn(g1, noFwd, a, b) {
      forall k: nat ensures SameMeaningTo(k, sec, v, a, sec, v, b) { DepthToText(k, sec, v, sec1, v1, a, b); }
    }
  }

  lemma RespelledTells(sec: seq<nat>, g: Graph, sec1: seq<nat>, g1: Graph, noFwd: bool)
    requires WellFormed(g1) && Respelled(sec, g, sec1, g1)
    ensures TextTells(sec1, View(g1, noFwd))
  {
    var v := View(g1, noFwd);
    VoidStarts(sec1, g1);
    hide WellFormed, StrAt, NoEqualStrings, SectionOk, NamesStart, SameText, View;
    forall i | 0 <= i < |v| ensures NamesStart(sec1, v[i]) { ShownStarts(sec1, noFwd, g1[i]); }
    StartsTell(sec1, v);
  }

  lemma VoidStarts(sec: seq<nat>, g: Graph)
    requires WellFormed(g) && g[0].nameOff == 0
    ensures NamesStart(sec, g[0])
  {
    assert RecordOk(g[0]);
    assert Names(g[0]) == [0];
  }

  /** A unit holds the types that its structs, unions and reference types refer to, and no two that mean the same. */
  ghost predicate IsTextUnit(sec: seq<nat>, g: Graph, noFwd: bool, unit: set<nat>)
    requires WellFormed(g)
  {
    && (forall a :: a in unit ==> a < |g|)
    && (forall i, a :: i in unit && RefersTo(g, i, a) ==> a in unit)
    && (forall a, b :: a in unit && b in unit && TextSame(sec, g, noFwd, a, b) ==> a == b)
  }

  ghost predicate InTextUnit(sec: seq<nat>, g: Graph, noFwd: bool, i: nat)
    requires WellFormed(g)
  {
    exists unit: set<nat> :: i in unit && IsTextUnit(sec, g, noFwd, unit)
  }

  /** Under one name and kind there is one struct, union or enum; declarations of it may be repeated. */
  ghost predicate TextNamesDecide(sec: seq<nat>, g: Graph)
    requires WellFormed(g)
  {
    TextMeant(sec, g, false) && forall a: nat, c: nat :: SameTextName(sec, g, a, c) ==> OneUnderText(sec, g, a, c)
  }

  ghost predicate SameTextName(sec: seq<nat>, g: Graph, a: nat, c: nat) {
    a < |g| && c < |g| && g[a].Kind() == g[c].Kind() && StrAt(sec, g[a].nameOff) == StrAt(sec, g[c].nameOff) != []
  }

  ghost predicate OneUnderText(sec: seq<nat>, g: Graph, a: nat, c: nat)
    requires WellFormed(g) && a < |g| && c < |g|
  {
    match g[a].Kind()
    case Struct | Union =>
      && SameText(sec, g[a], sec, g[c]) && |g[a].refs| == |g[c].refs|
      && forall k :: 0 <= k < |g[a].refs| ==> TextSame(sec, g, false, g[a].refs[k], g[c].refs[k])
    case Fwd => FwdKind(g[a]) == FwdKind(g[c]) ==> SameText(sec, g[a], sec, g[c]) && g[a].refs == g[c].refs
    case Enum => IsEnumFwd(g[a]) || IsEnumFwd(g[c]) || SameText(sec, g[a], sec, g[c])
    case _ => true
  }

  /** Input as compilers emit it, names read as strings. */
  ghost predicate TextClean(sec: seq<nat>, g: Graph, noFwd: bool, hash: BtfType -> int)
    requires WellFormed(g)
  {
    && (if noFwd then FwdsPlain(g) else TextNamesDecide(sec, g))
    && !DataTextClash(sec, g) && HashesLabels(hash)
    && forall i :: 0 < i < |g| && IsComposite(g[i].Kind()) ==> InTextUnit(sec, g, noFwd, i)
  }

  lemma UnitRespelled(sec: seq<nat>, g: Graph, sec1: seq<nat>, g1: Graph, noFwd: bool, i: nat)
    requires WellFormed(g) && WellFormed(g1) && Respelled(sec, g, sec1, g1) && InTextUnit(sec, g, noFwd, i)
    ensures InUnit(g1, noFwd, i)
  {
    var unit: set<nat> :| i in unit && IsTextUnit(sec, g, noFwd, unit);
    assert |g| == |g1| && forall j :: 0 <= j < |g| ==> g1[j].refs == g[j].refs && g1[j].Kind() == g[j].Kind();
    hide WellFormed, Respelled, TextSame, SameIn;
    forall j, a | j in unit && RefersTo(g1, j, a) ensures a in unit { assert RefersTo(g, j, a); }
    forall a, b | a in unit && b in unit && SameIn(g1, noFwd, a, b) ensures a == b { TextSameIs(sec, g, sec1, g1, noFwd, a, b); }
    assert IsUnit(g1, noFwd, unit);
  }

  lemma RecordRespelled(sec: seq<nat>, g: Graph, sec1: seq<nat>, g1: Graph, a: nat, c: nat)
    requires WellFormed(g1) && Respelled(sec, g, sec1, g1) && a < |g| && c < |g| && SameText(sec, g[a], sec, g[c])
    ensures Label(g1[a]) == Label(g1[c]) && (g[a].refs == g[c].refs ==> g1[a] == g1[c])
  {
    RespelledTells(sec, g, sec1, g1, true);
    hide WellFormed, NoEqualStrings, SectionOk, NamesStart;
    assert SameText(sec, g[a], sec1, g1[a]) && SameText(sec, g[c], sec1, g1[c]) && View(g1, true) == g1;
    hide SameText;
    TextOfLabels(sec, g[a], sec1, g1[a], g[c], g1[c]);
    assert g1[a] == Label(g1[a]).(refs := g1[a].refs) && g1[c] == Label(g1[c]).(refs := g1[c].refs);
  }

  lemma NameRespelled(sec: seq<nat>, g: Graph, sec1: seq<nat>, g1: Graph, a: nat, c: nat)
    requires WellFormed(g) && WellFormed(g1) && Respelled(sec, g, sec1, g1) && TextNamesDecide(sec, g) && SameName(g1, a, c)
    ensures OneUnderName(g1, a, c)
  {
    assert g[a].info == g1[a].info && g[c].info == g1[c].info && g1[a].refs == g[a].refs && g1[c].refs == g[c].refs;
    assert SameText(sec, g[a], sec1, g1[a]) && SameText(sec, g[c], sec1, g1[c]);
    assert a != 0 && (g1[a].nameOff == 0 || IsStart(sec1, g1[a].nameOff)) by { NameStarts(sec1, g1[a]); }
    EmptyName(sec1, g1[a].nameOff);
    assert SameTextName(sec, g, a, c) && OneUnderText(sec, g, a, c);
    assert RefsBelow(g[a], |g|) && RefsBelow(g[c], |g|);
    hide WellFormed, Respelled, TextNamesDecide, SameText, StrAt, TextSame, SameIn;
    if SameText(sec, g[a], sec, g[c]) { RecordRespelled(sec, g, sec1, g1, a, c); }
    if IsComposite(g[a].Kind()) {
      forall k | 0 <= k < |g[a].refs| ensures SameIn(g1, false, g1[a].refs[k], g1[c].refs[k]) {
        TextSameIs(sec, g, sec1, g1, false, g[a].refs[k], g[c].refs[k]);
      }
    }
  }

  lemma CleanRespelled(sec: seq<nat>, g: Graph, sec1: seq<nat>, g1: Graph, noFwd: bool, hash: BtfType -> int)
    requires WellFormed(g) && WellFormed(g1) && Respelled(sec, g, sec1, g1) && TextClean(sec, g, noFwd, hash)
    ensures Clean(g1, noFwd, hash)
  {
    hide WellFormed, InTextUnit, InUnit, HashesLabels, DataTextClash, DataClash, SameText, NoEqualStrings, SectionOk, NamesStart, TextNamesDecide, NamesDecide;
    if noFwd { SameFwds(g, g1); } else { NamesRespelled(sec, g, sec1, g1); }
    if DataClash(g1) { ClashText(sec, g, sec1, g1); }
    forall i | 0 < i < |g1| && IsComposite(g1[i].Kind()) ensures InUnit(g1, noFwd, i) { UnitRespelled(sec, g, sec1, g1, noFwd, i); }
  }

  lemma NamesRespelled(sec: seq<nat>, g: Graph, sec1: seq<nat>, g1: Graph)
    requires WellFormed(g) && WellFormed(g1) && Respelled(sec, g, sec1, g1) && TextNamesDecide(sec, g)
    ensures NamesDecide(g1)
  {
    hide WellFormed, Respelled, OneUnderName;
    RespelledMeant(sec, g, sec1, g1, false);
    forall a: nat, c: nat | SameName(g1, a, c) ensures OneUnderName(g1, a, c) { NameRespelled(sec, g, sec1, g1, a, c); }
  }

  /** Two types get one id exactly if they mean the same, names read as strings. */
  ghost predicate TextQuotient(sec: seq<nat>, g: Graph, noFwd: bool, final: seq<nat>)
    requires WellFormed(g) && |final| == |g|
  {
    forall i: nat, j: nat :: i < |g| && j < |g| && Decided(noFwd, g[i]) && Decided(noFwd, g[j]) ==>
      (final[i] == final[j] <==> TextSame(sec, g, noFwd, i, j))
  }

  lemma QuotientText(sec: seq<nat>, g: Graph, sec1: seq<nat>, g1: Graph, noFwd: bool, final: seq<nat>)
    requires WellFormed(g) && WellFormed(g1) && Respelled(sec, g, sec1, g1) && |final| == |g| && Quotient(g1, noFwd, final)
    ensures TextQuotient(sec, g, noFwd, final)
  {
    assert |g| == |g1| && forall j :: 0 <= j < |g| ==> g1[j].Kind() == g[j].Kind();
    hide WellFormed, Respelled, TextSame, SameIn;
    forall i: nat, j: nat | i < |g| && j < |g| && Decided(noFwd, g[i]) && Decided(noFwd, g[j])
      ensures final[i] == final[j] <==> TextSame(sec, g, noFwd, i, j)
    {
      assert Decided(noFwd, g1[i]) && Decided(noFwd, g1[j]);
      TextSameIs(sec, g, sec1, g1, noFwd, i, j);
    }
  }
}
