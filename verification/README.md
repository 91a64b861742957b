# Verified models of the AF_XDP switch and its libraries

A Dafny model of the parts of the repository that are hardest to get right, with proofs of what
they promise:

- **BTF deduplication** (`libbpf/src/btf.c`): six passes that rewrite a possibly cyclic type graph
  in place. Two types mean the same when their infinite unfoldings carry the same labels; with
  forward resolution, labels that say of a named struct, union or enum no more than kind and name.
  The passes keep that meaning for any hash function and any order of candidates (`BtfGraph`,
  `BtfForest`, `BtfEquiv`, `BtfStages`, `BtfDedup`, `BtfStrings`, `BtfCompact`). Conversely `BtfUnits`
  shows what has to be merged: on clean input, where every struct and union belongs to a compilation
  unit without duplicates, two of them get one id exactly if they mean the same. `BtfWhole` composes
  the string pass with the type passes; there labels are compared by the strings they denote.
- **AF_XDP sockets**: the rings of `libbpf/src/xsk.h` over 32-bit counters that wrap around
  (`Rings`), the user program `switchtsn/af_xdp_user.c` (`XskApp`) and the Go socket
  `go-approach/xdp.go` (`GoSocket`). The kernel is an arbitrary schedule of ring steps that acts
  between any two steps of the program, so every statement holds for every run.
- **The hash map** of libbpf against a multiset of entries (`HashMap`).
- **The BTF-to-C dumper** (`libbpf/src/btf_dump.c`): the search for the order of definitions as a
  function (`DumpSearch`) and in place (`DumpOrder`), and the declarator printer, read back by a parser for the grammar of section 6.7.6 of ISO/IEC 9899:2011
  (`DumpDeclarator`).
- **Packets**: the incremental Internet checksum (RFC 1071; Eqn. 3 in section 3 of RFC 1624) in
  ICMPv6 and ICMP echo replies and in the IPv4 router (`Checksum`, `EchoReply`), and VLAN tags
  (clause 9 of IEEE 802.1Q) pushed, popped and parsed (`Vlan`).
- **Line information** of jited programs (`ProgLinfo`) and **Jenkins' hash** (`Jhash`).

`Machine` holds machine words, error numbers and powers of two. Integers are unbounded; every
wrap-around of the C and Go code is written out. `dafny verify dfyconfig.toml` checks everything.

Points where the code, its comments or the expectations one may have of it differ:

- `hashmap.h` says that a lookup after APPEND returns the last inserted entry. Growing a table
  reverses the entries under every key, so it can return the first one
  (`HashMap.FirstAppendedFound`). It returns the last appended value exactly if the table has grown
  an even number of times since, or the oldest value is the same (`HashMap.HashMap.AppendThenFind`).
- The restock count of `af_xdp_user.c` is the number of known free ring slots, not the smaller of
  slots and free frames. When frames run out the remaining slots get INVALID_UMEM_FRAME, which is
  modelled as an address outside all frames (`XskApp.PoppedIs`, `XskApp.XskSocket.Restock`).
- The comments of the Go package allow received descriptors to be transmitted, and its example does
  that. The frame is then offered for reception again while the kernel still has it to send
  (`GoSocket.Socket.TransmitReceived`). Exactly when that happens is stated by `GetDescs`; it never
  does if only receive-side frames are filled and only the others transmitted (`Run`).
- `Complete` of the Go socket is documented to consume up to n descriptors; it consumes exactly n.
  That is right for every kernel if 0 <= n <= `NumCompleted()`, and if the kernel rests meanwhile it is
  wrong in every other case: a negative n spoils the count, and a larger n takes the consumer past
  the producer and frees stale frames (`GoSocket.Socket.Complete`, `CompleteTooMany`); a new socket
  then reports a full COMPLETION ring (`GoSocket.CompleteNothing`).
- `NumFilled` is documented as the number of descriptors on the FILL ring; it counts those in flight.
- Modifiers that are applied directly to an array are not printed, and one applied directly to a
  function runs into the preceding word; `RoundTripExactly` gives the exact condition under which
  the printed declaration denotes the type, `ModifiedFunctionJoins` the failing family.
- The search of `btf_dump_order_type` never returns from a modifier of itself
  (`DumpSearch.ModifierOfItself`). On graphs that C can express it returns from every type exactly if
  every cycle it could follow passes through a struct or union (`DumpSearch.EndsExactly`); on other
  graphs it may fail, and so return, before it meets such a cycle (`DumpSearch.EndsByFailing`). What
  deduplication accepts or puts out has no such cycle.
- Types that mean the same are not always merged: if a struct has members of two equal pointer types
  and its twin has them of one, the check pairs the one with the other first and refuses them
  (`BtfUnits.DuplicatesInUnit`). The comments of `btf.c` presuppose units without duplicates; then
  merging is exact (`BtfUnits.QuotientResult`).
- A typedef of a function type can be queued twice: while a struct among its parameters is visited
  that points back to it, and when its own visit ends (`DumpSearch.TypedefTwice`). Its definition is
  emitted once, at its first place.
- A struct, union or reference type that refers to a VAR or DATASEC makes deduplication fail with
  -EINVAL when the check meets another one of the same name; whether it does depends on the hash.
  Otherwise it succeeds exactly if no cycle consists of reference types only
  (`BtfWhole.Btf.Dedup`).
- Two forward declarations whose unused type fields differ can end with equal records, because the
  remapping rewrites that field (`BtfStages.FwdsCollapse`, and exactly when in `FwdsEqualExactly`); no
  other primitive or reference types can (`BtfStages.CollapsedUnique`).
- The incremental update gives checksum 0 for an ICMP echo request whose only content is its type;
  that reply does not verify, and it is the only case (`EchoReply.PatchedVerifies`).
- `dissect_jited_func` does not check the order of the last function's records
  (`ProgLinfo.LastFunctionUnchecked`, `GreatestExactly`).

## Model

| member | source | states |
|---|---|---|
| BtfGraph.BisimulationSound | libbpf/src/btf.c:2225-2360 | two types in any relation that preserves labels and is closed under references have the same infinite unfolding |
| BtfGraph.BisimilarTrans | libbpf/src/btf.c:2225-2360 | sameness of unfoldings is transitive across three graphs |
| BtfGraph.RedirectOne | libbpf/src/btf.c:2548-2654 | pointing one reference at a type with the same unfolding changes the unfolding of no type |
| BtfGraph.EqualRecordsBisimilar | libbpf/src/btf.c:1734-1983 | equal records over redirected references have the same unfolding |
| BtfForest.LinkKeepsForest | libbpf/src/btf.c:2388-2433 | mapping a root to a type that does not lead back to it leaves the map a forest |
| BtfForest.RootThrough | libbpf/src/btf.c:2388-2433 | redirecting roots never separates types: where a type leads is where its former root leads |
| BtfForest.RootIsSelfMapped | libbpf/src/btf.c:2099-2104 | once every type is mapped, every id resolves to a self-mapped type |
| BtfEquiv.SoundRoot | libbpf/src/btf.c:2099-2104 | if every link joins types with the same unfolding, in full or by name, so does resolution to the root |
| BtfEquiv.FwdMeets | libbpf/src/btf.c:2256-2271 | a forward declaration passes against exactly the structs of its name, or the unions if its kind flag is set, on either side, and only with forward resolution |
| BtfEquiv.ClosedIsBisimulation | libbpf/src/btf.c:2225-2360 | the pairs of a closed hypothetical map have the same unfolding, cycles included; with forward resolution the same unfolding by name, if forward declarations have names |
| BtfEquiv.WitnessBisimilar | libbpf/src/btf.c:2225-2360 | so does any pair that a closed extension of the map settles |
| BtfStages.EqualRecordExact | libbpf/src/btf.c:1734-1961 | the comparison of each primitive and reference kind holds exactly for equal records |
| BtfStages.CheckedFromEmpty | libbpf/src/btf.c:2494-2501 | a check started from the empty map answers 1 exactly when some closed hypothetical map settles the pair |
| BtfStages.LinkRoots | libbpf/src/btf.c:2416-2430 | linking two distinct roots keeps forest, kinds, names and, when they mean the same, soundness |
| BtfStages.MergedPairOk | libbpf/src/btf.c:2396-2432 | every merge of a checked pair joins distinct roots, touches only roots that may change, and keeps forest and soundness, with and without forward resolution |
| BtfStages.LinkMeans | libbpf/src/btf.c:1803-1812 | enums that may be linked mean the same by name |
| BtfStages.MergeResolves | libbpf/src/btf.c:2396-2432 | merging a forward declaration with a struct or union makes both lead to a struct or union |
| BtfStages.MergeStep | libbpf/src/btf.c:2388-2433 | a merge resolves its pair and leaves every pair resolved that was |
| BtfStages.EnumsApartSelf | libbpf/src/btf.c:2029-2050 | an enum without a compatible canonical one can become canonical |
| BtfStages.StageGrown | libbpf/src/btf.c:2388-2433 | merging keeps the candidate table complete, candidates canonical and canonical records distinct |
| BtfStages.CollapsedBisimilar | libbpf/src/btf.c:2682-2862 | every input type has the unfolding of the output type it is remapped to |
| BtfStages.CollapsedUnique | libbpf/src/btf.c:2682-2862 | no two primitive or reference types of the output have the same record; for forward declarations if their unused type fields are 0 |
| BtfStages.FwdsEqualExactly | libbpf/src/btf.c:2762-2862 | two forward declarations of the output are equal exactly if they say the same and their unused type fields lead to one canonical type |
| BtfStages.FwdsCollapse | libbpf/src/btf.c:2762-2862 | an input on which two forward declarations are kept and end equal |
| BtfStages.AllDoneRanked | libbpf/src/btf.c:2548-2654 | a reference pass that finishes shows that no cycle consists of reference types only |
| BtfStages.CollapsedAcyclic | libbpf/src/btf.c:2682-2862 | no cycle of the output consists of reference types only |
| BtfStages.DataEntered | libbpf/src/btf.c:2356-2357 | the check of a pair gives up only for two different variables or data sections of the same name |
| BtfStages.CompactStep | libbpf/src/btf.c:2697-2710 | one compaction step appends the next canonical record, over a slot already read, and numbers it |
| BtfStages.DedupResult | libbpf/src/btf.c:1223-1268 | what mapping, compaction and remapping together give: meaning kept in either mode, no duplicates, no cycle of references |
| BtfUnits.SettledInUnit | libbpf/src/btf.c:2225-2360 | in a unit without duplicates the check finds every type that means the same, with any sound map of canonical types |
| BtfUnits.PlainDecides | libbpf/src/btf.c:2225-2360 | without forward resolution types that mean the same pass the check of each pair of records |
| BtfUnits.NamesDecideAll | libbpf/src/btf.c:2225-2360 | with forward resolution they do if there is one struct, union and enum under a name |
| BtfUnits.SettledStep | libbpf/src/btf.c:2456-2522 | after one more struct or union, all verdicts still hold: canonical with every rival refuted, mapped to a canonical rival by a closed map whose forward declarations are resolved, or linked by an earlier check |
| BtfUnits.TwinsApart | libbpf/src/btf.c:2456-2522 | on any input, no two structs or unions with one signature and members that are equal up to equal primitive types stay canonical |
| BtfUnits.FirstsDiffer | libbpf/src/btf.c:2456-2522 | on clean input, canonical structs and unions mean different things |
| BtfUnits.StructsMerge | libbpf/src/btf.c:1241-1264 | on clean input, structs and unions that mean the same have one canonical type |
| BtfUnits.CanonicalDiffer | libbpf/src/btf.c:2548-2654 | without forward resolution all canonical types but data mean different things, by induction over the heights of reference types |
| BtfUnits.TypesMerge | libbpf/src/btf.c:1241-1264 | so all types that mean the same have one canonical type |
| BtfUnits.QuotientResult | libbpf/src/btf.c:1223-1268 | on clean input two types get one id if and only if they mean the same: structs and unions in either mode, without forward resolution all but data |
| BtfUnits.KeptResult | libbpf/src/btf.c:2682-2730 | the output is made of the records of some input types, in their order, with nothing but references rewritten, and each of them is remapped to its own record |
| BtfUnits.EnumsEnd | libbpf/src/btf.c:2029-2050 | no enum of the output could stand for another one with its signature, so no forward declaration is left beside its enum |
| BtfUnits.UnitResult | libbpf/src/btf.c:1223-1268 | what the verdicts add up to for the whole algorithm: the rows above, and every forward declaration that a successful check faced with a struct or union ends as one |
| BtfUnits.DuplicatesInUnit | libbpf/src/btf.c:2225-2360 | two structs that mean the same and are refused, whatever the maps hold |
| BtfDedup.BtfDedup.ResolveTypeId | libbpf/src/btf.c:2099-2104 | terminates on every forest and returns the root |
| BtfDedup.BtfDedup.ResolveFwdId | libbpf/src/btf.c:2110-2124 | returns the target of a resolved forward declaration and any other id unchanged |
| BtfDedup.BtfDedup.HypotMapAdd | libbpf/src/btf.c:1327-1342 | records one hypothesis and remembers its slot |
| BtfDedup.BtfDedup.ClearHypotMap | libbpf/src/btf.c:1344-1351 | empties every slot by visiting only the remembered ones |
| BtfDedup.BtfDedup.IsEquiv | libbpf/src/btf.c:2225-2360 | terminates on every graph; 1 exactly when a closed hypothetical map extends the given one and settles the pair; -EINVAL only for data of the same name |
| BtfDedup.BtfDedup.EquivRefs | libbpf/src/btf.c:2299-2355 | the same for all referenced types of a pair, in order |
| BtfDedup.BtfDedup.MergePair | libbpf/src/btf.c:2397-2432 | the link a pair of types gives rise to, if any |
| BtfDedup.BtfDedup.MergeHypotMap | libbpf/src/btf.c:2388-2433 | every forward declaration that was paired with a struct or union now leads to one; only roots of paired types are redirected, and only unmapped composites and forward declarations; the map stays a forest and, in either mode, sound |
| BtfDedup.BtfDedup.TryCandidate | libbpf/src/btf.c:2490-2502 | accepts a candidate exactly when some closed hypothetical map settles the pair, and then merges what that map says |
| BtfDedup.BtfDedup.FindEqual | libbpf/src/btf.c:2016-2066 | finds a candidate with an equal record whenever the table has one, for any hash and any order |
| BtfDedup.BtfDedup.DedupEnumResolving | libbpf/src/btf.c:2029-2050 | maps an enum to a compatible canonical one, and an enum forward declaration found there to the full enum; afterwards no two canonical enums with one signature are compatible |
| BtfDedup.BtfDedup.DedupPrimType | libbpf/src/btf.c:1991-2072 | maps a primitive type and keeps the invariant |
| BtfDedup.BtfDedup.DedupPrimTypes | libbpf/src/btf.c:2074-2084 | after the pass every primitive type is mapped |
| BtfDedup.BtfDedup.DedupStructType | libbpf/src/btf.c:2456-2510 | maps a struct or union to a canonical rival that a closed map settles, or makes it canonical after every rival was refuted; whatever else it links was paired by that map |
| BtfDedup.BtfDedup.DedupStructTypes | libbpf/src/btf.c:2512-2522 | every struct and union has a verdict that still holds at the end: canonical with all rivals refuted, or the same as its canonical type |
| BtfDedup.BtfDedup.DedupRefType | libbpf/src/btf.c:2548-2654 | resolves a reference type through types in progress; fails exactly on a cycle of reference types |
| BtfDedup.BtfDedup.RewriteRefs | libbpf/src/btf.c:2565-2630 | all references of a type are replaced by canonical ids, in the order of the source |
| BtfDedup.BtfDedup.DedupRefTypes | libbpf/src/btf.c:2656-2669 | succeeds exactly when every type cycle passes through a type that is not a reference type, and then maps every type |
| BtfDedup.BtfDedup.CompactTypes | libbpf/src/btf.c:2682-2730 | the output is the canonical records in order, numbered from 1, though written over the input |
| BtfDedup.BtfDedup.RemapTypeId | libbpf/src/btf.c:2738-2747 | the new id of the canonical type, -EINVAL exactly for a type without one |
| BtfDedup.BtfDedup.RemapTypes | libbpf/src/btf.c:2852-2862 | rewrites every reference and never fails |
| BtfDedup.BtfDedup.constructor | libbpf/src/btf.c:1385-1445 | the state before the first pass satisfies the invariant |
| BtfDedup.BtfDedup.Dedup | libbpf/src/btf.c:1241-1264 | on success, for any hash: every input type means what the output type it is remapped to means, in full or by name; the output is made of input records in order; no two primitive or reference types of it are equal (forward declarations if their type fields are 0), no two structs come from twins, no enum could stand for another; on clean input two types get one id exactly if they mean the same; resolved forward declarations end as structs or unions; it succeeds exactly if no cycle consists of reference types only, unless data of one name clash |
| BtfStrings.BuildIndex | libbpf/src/btf.c:1624-1644 | one entry per string of the section, in order, covering all its bytes |
| BtfStrings.FindPtr | libbpf/src/btf.c:1555-1562 | binary search finds an entry exactly when there is one |
| BtfStrings.MarkUsed | libbpf/src/btf.c:1564-1579 | fails exactly when some slot is not the start of a string; otherwise marks exactly the referenced ones |
| BtfStrings.Sort | libbpf/src/btf.c:1659-1660 | a permutation in order |
| BtfStrings.StrLeqIs | libbpf/src/btf.c:1537-1543 | the order of strings is that of strcmp: a prefix, or smaller at the first byte that differs |
| BtfStrings.EmitStrings | libbpf/src/btf.c:1662-1700 | one copy per group of equal strings that has a used member, at the offset written to the whole group |
| BtfStrings.RemapSlots | libbpf/src/btf.c:1581-1596 | every slot is rewritten to an offset that denotes the same string |
| BtfStrings.PackAt | libbpf/src/btf.c:1662-1700 | reading a packed section at a computed offset gives the string packed there |
| BtfStrings.PackStart | libbpf/src/btf.c:1662-1700 | every string start of a packed section is one of the packed strings |
| BtfStrings.StringsDone | libbpf/src/btf.c:1609-1722 | same strings, empty string first, no two equal, only referenced ones, never longer |
| BtfStrings.StringSection.DedupStrings | libbpf/src/btf.c:1609-1722 | succeeds exactly when all slots are string starts; then all of the above for the section and its slots, and the strings are in ascending order |
| BtfWhole.CollectNames | libbpf/src/btf.c:1450-1506 | visits the name offsets of all records, in order |
| BtfWhole.WriteNames | libbpf/src/btf.c:1450-1506 | gives every record its new name offsets and changes nothing else |
| BtfWhole.RenamedSameText | libbpf/src/btf.c:1609-1722 | if the new offsets denote the old strings, a record says what it said before |
| BtfWhole.Btf.DedupNames | libbpf/src/btf.c:1609-1722 | succeeds exactly when all name offsets are those of strings; then every record says what it said before, over a section without equal strings |
| BtfWhole.MeaningKept | libbpf/src/btf.c:1223-1268 | renaming and bisimilar output types together keep the text of every unfolding |
| BtfWhole.TextSameIs | libbpf/src/btf.c:1223-1268 | after the string pass types mean the same exactly if they did before with names read as strings, in either mode |
| BtfWhole.ViewKept | libbpf/src/btf.c:1223-1268 | so both passes together keep what every type means, in either mode |
| BtfWhole.CleanRespelled | libbpf/src/btf.c:1223-1268 | input that is clean with names read as strings is clean for the type passes |
| BtfWhole.QuotientText | libbpf/src/btf.c:1223-1268 | and merging by meaning there is merging by meaning of the text |
| BtfWhole.TextUnique | libbpf/src/btf.c:1223-1268 | since no two strings are equal, no two primitive or reference types of the output say the same about the same types |
| BtfWhole.Btf.Dedup | libbpf/src/btf.c:1223-1268 | every type means what it meant before, names read as strings, through both passes and in either mode; on clean input two types get one id exactly if they mean the same; strings and types are unique; line information denotes the same strings; and when it fails |
| BtfCompact.Memmove | libbpf/src/btf.c:2705-2705 | an overlapping move to lower addresses copies the bytes as they were |
| BtfCompact.EncodedSize | libbpf/src/btf.c:145-178 | for every well-formed record of a known kind, the size read off its header is the length of the record |
| BtfCompact.MoveStep | libbpf/src/btf.c:2697-2710 | moving a record down overwrites no byte that is still to be read |
| BtfCompact.CompactRecords | libbpf/src/btf.c:2697-2710 | the bytes are the records of the canonical types, in order, and the offsets index them |
| BtfCompact.CompactBytes | libbpf/src/btf.c:2682-2730 | the same for the whole section, with the strings moved intact behind the records |
| HashMap.HashBitsBelow | libbpf/src/hashmap.h:20-24 | the selected bucket exists for every hash and capacity |
| HashMap.HashBitsKnown | libbpf/src/hashmap.h:20-24 | two values of the multiplicative hash |
| HashMap.KeyOnlyInBucket | libbpf/src/hashmap.c:118-140 | entries with an equal key can only be in the key's chain |
| HashMap.AddKeepsUnique | libbpf/src/hashmap.c:142-192 | adding under a new key keeps keys unique, as Insert without APPEND uses |
| HashMap.ReplaceKeepsUnique | libbpf/src/hashmap.c:142-192 | so does replacing an entry by one with an equal key |
| HashMap.RemoveKeepsUnique | libbpf/src/hashmap.c:208-228 | and removing one |
| HashMap.KeyCount | libbpf/src/hashmap.h:162-168 | the key's chain holds each matching entry as often as the table |
| HashMap.Prepended | libbpf/src/hashmap.c:18-23 | a new head of a chain is the first entry under its key and changes no other key |
| HashMap.Exchanged | libbpf/src/hashmap.c:154-168 | replacing or unlinking the first entry found under a key changes the entries under that key only |
| HashMap.RehashedStep | libbpf/src/hashmap.c:105-108 | moving one chain reverses the entries under its keys and leaves the others |
| HashMap.HashMap.constructor | libbpf/src/hashmap.c:32-43 | the empty table |
| HashMap.HashMap.GrowsWhenDue | libbpf/src/hashmap.c:82-86 | despite its rounding the test says exactly that one more entry fills the table beyond three quarters; it is never that full |
| HashMap.HashMap.Grow | libbpf/src/hashmap.c:88-116 | same entries, in reverse order under every key; doubled capacity, load at most three quarters again; -ENOMEM changes nothing |
| HashMap.HashMap.Rehash | libbpf/src/hashmap.c:99-110 | every entry is moved to the bucket its hash now selects, and the entries under each key are reversed |
| HashMap.HashMap.FindEntry | libbpf/src/hashmap.c:118-140 | an entry is found exactly when the table has one with an equal key, and it is the first of its chain |
| HashMap.HashMap.Insert | libbpf/src/hashmap.c:142-192 | the new contents, their order under every key and the result under ADD, SET, UPDATE and APPEND; the table grows exactly if one more entry fills it beyond three quarters, and -ENOMEM comes exactly from an allocation that was needed; without APPEND keys stay unique |
| HashMap.HashMap.Delete | libbpf/src/hashmap.c:208-228 | removes the first entry under the key exactly if there is one, and no other; unique keys stay unique |
| HashMap.HashMap.Find | libbpf/src/hashmap.c:194-206 | the value of the first entry under the key exactly if there is one |
| HashMap.HashMap.KeyEntries | libbpf/src/hashmap.h:162-168 | visits each entry with an equal key exactly as often as it occurs, in the order of the chain |
| HashMap.HashMap.Run | libbpf/src/hashmap.c:142-228 | any operations in a row act like the same operations on a multiset, keep keys unique without APPEND, and turn the entries under unnamed keys round once per growth |
| HashMap.HashMap.AppendThenFind | libbpf/src/hashmap.h:74-79 | a lookup gives the last appended value exactly if the table has grown an even number of times since or the oldest value is the same |
| HashMap.FirstAppendedFound | libbpf/src/hashmap.h:74-79 | three values under one key and one more entry: the lookup gives the first value |
| Rings.AndMask | libbpf/src/xsk.h:48-79 | masking with the ring size minus one selects the slot of a counter |
| Rings.SlotOf | libbpf/src/xsk.h:48-79 | a counter that has wrapped around selects the same slot |
| Rings.WrapDiff | libbpf/src/xsk.h:85-115 | differences of wrapped counters are exact |
| Rings.WriteOutside | libbpf/src/xsk.h:48-79 | writing the slot of a counter disturbs no entry less than a ring away |
| Rings.ProdRing.NbFree | libbpf/src/xsk.h:85-102 | the free slots known so far if they suffice, the exact number otherwise |
| Rings.ProdRing.Reserve | libbpf/src/xsk.h:116-126 | all slots or none; none only if the ring has too few |
| Rings.ProdRing.Put | libbpf/src/xsk.h:48-71 | writes one reserved slot and no queued one |
| Rings.ProdRing.Submit | libbpf/src/xsk.h:128-136 | appends the reserved slots to the queue, in order |
| Rings.ConsRing.NbAvail | libbpf/src/xsk.h:104-114 | the entries known so far, or all there are if none is known, at most what is asked for; zero only if the queue is empty |
| Rings.ConsRing.Peek | libbpf/src/xsk.h:138-154 | takes that many of the oldest entries, at least one if there is any |
| Rings.ConsRing.Get | libbpf/src/xsk.h:56-79 | reads a peeked entry, whatever the kernel has produced since |
| Rings.ConsRing.Release | libbpf/src/xsk.h:156-163 | gives back the slots of the oldest peeked entries |
| XskApp.StackNotFull | switchtsn/af_xdp_user.c:157-162 | while the program holds a frame the free stack has room |
| XskApp.InitialConserved | switchtsn/af_xdp_user.c:202-205 | with all frames on the stack every frame is in exactly one place |
| XskApp.PutOnFill | switchtsn/af_xdp_user.c:365-367 | putting an address on the FILL ring moves the frame in hand there; INVALID_UMEM_FRAME moves none |
| XskApp.PoppedIs | switchtsn/af_xdp_user.c:146-155 | allocations give the free frames from the top of the stack, then INVALID_UMEM_FRAME for ever |
| XskApp.XskSocket.Kernel | switchtsn/README.org:45-55 | whatever the kernel does between two steps, every frame stays in exactly one place and what is reserved or peeked is left alone |
| XskApp.XskSocket.AllocUmemFrame | switchtsn/af_xdp_user.c:146-155 | pops the stack, or INVALID_UMEM_FRAME when it is empty |
| XskApp.XskSocket.FreeUmemFrame | switchtsn/af_xdp_user.c:157-162 | pushes the frame in hand; the assertion that the stack has room always holds |
| XskApp.XskSocket.FillAll | switchtsn/af_xdp_user.c:215-220 | fills all reserved slots with what as many allocations give, in order, and submits them while the kernel consumes |
| XskApp.XskSocket.Restock | switchtsn/af_xdp_user.c:351-370 | writes exactly as many slots as the ring says are free for the number of free frames: the free frames from the top of the stack, then INVALID_UMEM_FRAME; the reservation cannot fail, so the retry loop is never entered |
| XskApp.XskSocket.SendFrame | switchtsn/af_xdp_user.c:322-335 | puts the frame in hand on the TX ring, or leaves it in hand exactly when the ring is full |
| XskApp.XskSocket.ProcessPacket | switchtsn/af_xdp_user.c:275-339 | true exactly for an echo request whose reply was queued |
| XskApp.XskSocket.SendOrFree | switchtsn/af_xdp_user.c:377-378 | the packet in hand is sent exactly if it is an echo request and the TX ring is not full, and freed otherwise |
| XskApp.XskSocket.ReceiveOne | switchtsn/af_xdp_user.c:374-378 | answers a packet exactly if it is an echo request and the TX ring has room when it is looked at, and then with its own descriptor; otherwise its frame is free again |
| XskApp.XskSocket.ReceiveAll | switchtsn/af_xdp_user.c:372-381 | handles every peeked packet once, in the order of delivery; each is looked at later than the one before, and the TX ring has lost at most one slot per packet |
| XskApp.XskSocket.CollectCompleted | switchtsn/af_xdp_user.c:240-251 | frees each completed frame once and gives the slots back: all completions known so far, or all there are if none is known |
| XskApp.XskSocket.SubtractCompleted | switchtsn/af_xdp_user.c:252-253 | the saturating subtraction is exact |
| XskApp.XskSocket.CompleteTx | switchtsn/af_xdp_user.c:229-255 | takes completions back whenever there are any, and keeps the frames conserved |
| XskApp.XskSocket.Outstanding | switchtsn/af_xdp_user.c:229-255 | outstanding_tx is the number of packets sent and not taken back; what was sent is exactly the answers to the echo requests that found room, in the order of delivery |
| XskApp.AnswersAmong | switchtsn/af_xdp_user.c:372-381 | the answers are among the packets handled, in their order |
| XskApp.XskSocket.HandleReceivePackets | switchtsn/af_xdp_user.c:341-388 | handles as many packets as the ring lets it peek, at most 64 and at least one if any has arrived, and answers those that are echo requests and find room; then it has restocked and has taken completions back if there were any; every frame stays in exactly one place |
| XskApp.XskSocket.Run | switchtsn/af_xdp_user.c:390-408 | any number of rounds against any kernel: no frame is lost, duplicated or freed twice, and every round handles a packet as long as any has arrived |
| XskApp.Configure | switchtsn/af_xdp_user.c:169-227 | for any initial ring counters, the upper half of the frames ends on the FILL ring, in order; the reservation succeeds |
| XskApp.ConfigureAndRun | switchtsn/af_xdp_user.c:169-408 | from the configuration on, any number of rounds against any kernel: every frame in exactly one place, outstanding_tx exact, and the packets sent are exactly the answers to the echo requests that found room, in the order of delivery |
| GoSocket.Ring.NumFree | go-approach/xdp.go:652-681 | the exact number of free slots for any counters; the clamp never applies |
| GoSocket.Ring.NumUsed | go-approach/xdp.go:683-711 | the exact number of entries for any counters; the clamp never applies |
| GoSocket.Ring.Put | go-approach/xdp.go:408-413 | appends to the queue and overwrites nothing unread; the ring is a FIFO |
| GoSocket.Ring.Get | go-approach/xdp.go:432-436 | takes the oldest entry; the ring is a FIFO |
| GoSocket.SubmitExactly | go-approach/xdp.go:408-413 | submitting descriptors keeps a free list exact if and only if they are of different frames, all free |
| GoSocket.ReturnExactly | go-approach/xdp.go:432-436 | what comes back was marked used and is of different frames; marking it free keeps the list exact and makes it usable again |
| GoSocket.Socket.constructor | go-approach/xdp.go:383-392 | with empty rings and all frames free both lists are exact |
| GoSocket.Socket.Fill | go-approach/xdp.go:401-419 | for any descriptors: puts exactly as many as there are free slots on the ring, in order, marks their frames used and counts them; the free list stays exact if and only if they are of different free frames |
| GoSocket.Socket.Receive | go-approach/xdp.go:423-443 | returns the oldest received descriptors, as many as asked for and available, marks their frames free and counts them out; they are of different frames, can be filled again, and lie on the receive side if the sides are kept |
| GoSocket.Socket.Transmit | go-approach/xdp.go:449-466 | like Fill, for the TX ring |
| GoSocket.Socket.Complete | go-approach/xdp.go:635-647 | takes exactly n completions back, oldest first, and marks their frames free; ring, count and list stay exact for every kernel if 0 <= n <= NumCompleted(), and with a resting kernel only then |
| GoSocket.Socket.CompleteTooMany | go-approach/xdp.go:635-647 | for any larger n the ring then reports to be full and every stale frame read counts as free |
| GoSocket.CompleteNothing | go-approach/xdp.go:635-647 | asking a new socket for one completion makes NumCompleted() report a full ring |
| GoSocket.Socket.Ownership | go-approach/xdp.go:538-573 | a frame is on the kernel's side once per list that has it marked used, and never twice while the sides are kept |
| GoSocket.FindFree | go-approach/xdp.go:563-571 | the lowest free frames of the range, each once, none left out below the last; None exactly when the source indexes past the list |
| GoSocket.Socket.GetDescs | go-approach/xdp.go:538-573 | distinct free frames of one side's range; the kernel owns one exactly when the other list has it in use; panics exactly with fewer frames than FILL slots and too few of them free |
| GoSocket.Socket.FillSided | go-approach/xdp.go:397-419 | filling any different free receive-side frames, wherever they come from, puts exactly as many as fit on the ring and keeps the discipline |
| GoSocket.Socket.TransmitSided | go-approach/xdp.go:445-466 | so does transmitting any different free frames of the other side |
| GoSocket.Socket.ReceiveAndRefill | go-approach/xdp.go:397-443 | received descriptors, as many as asked for and available, can be filled again at once, and are |
| GoSocket.Socket.Do | go-approach/xdp.go:401-647 | one call of any kind: a forbidden one is left out, an allowed one moves exactly as many descriptors as it is given or asked for and the ring has room for or holds, and changes no other log |
| GoSocket.Socket.Run | go-approach/xdp.go:401-573 | any calls with any descriptors that are of different free frames of the right side, against any kernel: each does exactly that, free lists and counts stay exact, and no frame is on the kernel's side twice |
| GoSocket.OpenAndRun | go-approach/xdp.go:383-573 | the same from the opening of a socket on, for any ring sizes and counters |
| GoSocket.Socket.TransmitReceived | go-approach/xdp.go:83-99 | transmitting a receive-side frame makes GetDescs offer a frame the kernel has |
| DumpOrder.DefinedBeforeUse | libbpf/src/btf_dump.c:403-544 | whatever has a definition is queued strictly before what needs it at any depth: named structs, unions and typedefs that are embedded, also in an anonymous struct or union that is pointed to, and named enums and forward declarations anywhere; typedefs at least once, all others exactly once |
| DumpOrder.SettledUp | libbpf/src/btf_dump.c:403-544 | a type is settled when all it needs directly are, and it is queued if it has to be |
| DumpOrder.SettledBehind | libbpf/src/btf_dump.c:371-379 | what a type needs when it is pointed to it needs anyway |
| DumpOrder.PointerToAnonymous | libbpf/src/btf_dump.c:350-368 | a struct with a pointer to an anonymous struct that embeds a named one needs the named one |
| DumpOrder.Queued | libbpf/src/btf_dump.c:310-327 | queueing a type whose needs are settled keeps the order valid and each composite queued once |
| DumpOrder.FirstsAt | libbpf/src/btf_dump.c:310-327 | what is the x-th to come first in the queue stands after exactly the x ids that came before it |
| DumpOrder.EmittedBefore | libbpf/src/btf_dump.c:198-235 | so definitions emitted at their first place are emitted before whatever needs them |
| DumpSearch.RefAcyclicLinks | libbpf/src/btf_dump.c:403-544 | types without cycles of references, as deduplication accepts and puts out, have no cycle of links |
| DumpSearch.YieldsOnce | libbpf/src/btf_dump.c:403-544 | however deep calls may nest, a call has at most one outcome |
| DumpSearch.Returns | libbpf/src/btf_dump.c:403-544 | without a cycle of links every call returns, from any state |
| DumpSearch.TrapOrRank | libbpf/src/btf_dump.c:403-544 | either the links can be ranked, or some of them lead into each other for ever |
| DumpSearch.NeverInto | libbpf/src/btf_dump.c:403-544 | as long as nothing fails, a call that returns has not gone into such a trap |
| DumpSearch.EndsExactly | libbpf/src/btf_dump.c:403-544 | on graphs that C can express, the search returns from every type exactly if no cycle consists of links only |
| DumpSearch.ModifierOfItself | libbpf/src/btf_dump.c:511-514 | a modifier of itself: for any number of nested calls the search has not returned |
| DumpSearch.EndsByFailing | libbpf/src/btf_dump.c:424-431 | a graph with a cycle of links from every type of which the search returns, because it fails first |
| DumpSearch.VisitMarks | libbpf/src/btf_dump.c:403-544 | a pointer ends ORDERED whatever comes of its target, a type without references always, a struct, union or typedef when it answers with a strong link |
| DumpSearch.VisitDeclares | libbpf/src/btf_dump.c:477-490 | whatever its result, a call queues every enum and forward declaration that it makes ORDERED, if it has a name or nothing refers to it |
| DumpSearch.DeclaredThen | libbpf/src/btf_dump.c:477-490 | after a search that returned all those that are ORDERED are queued, the visited one among them |
| DumpSearch.VisitWithin | libbpf/src/btf_dump.c:403-544 | a call queues nothing but definitions of types that the visited one refers to at some depth |
| DumpSearch.TypedefTwice | libbpf/src/btf_dump.c:492-510 | a graph on which the search queues a typedef twice |
| DumpOrder.Orderer.OrderType | libbpf/src/btf_dump.c:403-544 | ends exactly when the search does, with its outcome; a strong link, or success without a pointer, means all that is needed is queued; on definable graphs it never fails |
| DumpOrder.Orderer.OrderPtr | libbpf/src/btf_dump.c:440-443 | the same for a pointer, which is ORDERED whatever the outcome; on success what an anonymous target needs is queued |
| DumpOrder.Orderer.OrderComposite | libbpf/src/btf_dump.c:448-476 | the same for a struct or union, entered at most once |
| DumpOrder.Orderer.OrderTypedef | libbpf/src/btf_dump.c:492-510 | the same for a typedef, queued only if its type is settled |
| DumpOrder.Orderer.OrderProto | libbpf/src/btf_dump.c:516-534 | the same for a prototype, strong if any of its types is |
| DumpOrder.Orderer.DumpType | libbpf/src/btf_dump.c:198-235 | whenever the search returns: the type itself is queued if it has a definition, nothing is queued that it does not refer to, and what was queued is emitted, in order and once; fails only for a missing type, an undefinable graph or after a failure |
| DumpOrder.Orderer.DumpTypes | libbpf/src/btf_dump.c:198-235 | any dumps in a row on a definable graph succeed; every definition asked for or needed, enums, typedefs and forward declarations included, is emitted exactly once and before whatever needs it, also through a pointer to an anonymous struct or union |
| DumpDeclarator.Printer.EmitMods | libbpf/src/btf_dump.c:1129-1153 | prints and pops exactly the modifiers on top of the stack |
| DumpDeclarator.Printer.EmitArray | libbpf/src/btf_dump.c:1238-1282 | prints an array declarator around the rest and pops the whole stack |
| DumpDeclarator.Printer.EmitProto | libbpf/src/btf_dump.c:1283-1323 | prints a function declarator around the rest and pops the whole stack |
| DumpDeclarator.Printer.EmitTypeChain | libbpf/src/btf_dump.c:1163-1335 | pops the whole stack and prints its pieces |
| DumpDeclarator.TokensAre | libbpf/src/btf_dump.c:1163-1335 | the printed tokens do not depend on the spacing decisions |
| DumpDeclarator.DeclRead | libbpf/src/btf_dump.c:1163-1335 | a printed declarator followed by the end or a parenthesis is read back as a whole |
| DumpDeclarator.DirectRead | libbpf/src/btf_dump.c:1238-1323 | a printed array or function declarator takes further suffixes |
| DumpDeclarator.RoundTrip | libbpf/src/btf_dump.c:1054-1335 | for any chain without modifiers on functions, reading gives back the name and the chain without the modifiers of arrays, and no two words run together |
| DumpDeclarator.RoundTripExactly | libbpf/src/btf_dump.c:1054-1335 | the very same chain comes back exactly when modifiers stand only on pointers and the base type |
| DumpDeclarator.ModifiedFunctionJoins | libbpf/src/btf_dump.c:1283-1295 | a modifier on a function runs into the preceding word |
| DumpDeclarator.PrintDeclaration | libbpf/src/btf_dump.c:1054-1127 | the printed text reads back as the declared type |
| Checksum.Csum16AddIs | switchtsn/af_xdp_user.c:257-263 | addition with end-around carry computes one's complement sums |
| Checksum.CsumReplace2Is | switchtsn/af_xdp_user.c:265-273 | the update changes the checksum by the opposite of the change of the word, modulo 65535 |
| Checksum.VerifiesIs | switchtsn/af_xdp_user.c:257-263 | a message verifies exactly when its word sum is a positive multiple of 65535 |
| Checksum.ByteChange | switchtsn/af_xdp_user.c:312-316 | what is invariant in host byte order is invariant in network byte order |
| Checksum.CsumFoldIs | packet03-redirecting/xdp_prog_kern_sol.c:33-39 | folding gives the complement of the one's complement sum of any 32-bit value |
| EchoReply.ReplyVerifies | switchtsn/af_xdp_user.c:298-316 | for every payload and code the ICMPv6 reply verifies over pseudo-header and message exactly when the request does |
| EchoReply.AnswerEcho | switchtsn/af_xdp_user.c:298-316 | exactly the echo requests are answered: addresses swapped, type and checksum patched, nothing else changed, and the reply verifies exactly when the request does |
| EchoReply.DiffFold | packet03-redirecting/xdp_prog_kern_sol.c:48-57 | diff and fold equal the 16-bit formula for every header and checksum, for any faithful bpf_csum_diff |
| EchoReply.PatchIcmp | packet03-redirecting/xdp_prog_kern_sol.c:118-143 | patches type and checksum as the 16-bit formula says |
| EchoReply.PatchedSum | packet03-redirecting/xdp_prog_kern_sol.c:118-143 | a patched message has the same sum modulo 65535 |
| EchoReply.PatchedVerifies | packet03-redirecting/xdp_prog_kern_sol.c:118-143 | the patched message of a verifying request verifies exactly when the new type or some other content is non-zero |
| EchoReply.DecreaseTtl | packet03-redirecting/xdp_prog_kern_sol.c:222-228 | one hop less, only TTL and checksum change, and the header verifies exactly when it did, for every header length |
| EchoReply.RouteIpv4 | packet03-redirecting/xdp_prog_kern_sol.c:260-302 | a TTL of at most one is not forwarded and left alone; otherwise as above, and no byte but the TTL and the two of the checksum changes |
| Vlan.UntagTagged | common/rewrite_helpers.h:22-108 | taking off a tag just put on restores the frame and gives its TCI |
| Vlan.TagUntagged | common/rewrite_helpers.h:22-108 | putting back a tag just taken off restores the frame exactly when it was an 802.1Q tag |
| Vlan.TagBytes | common/parsing_helpers.h:68-72 | a tag is told by the bytes 81 00 or 88 a8, and its TCI is read in network byte order |
| Vlan.XdpBuff.TagPop | common/rewrite_helpers.h:22-64 | takes off the outer tag in place and returns its TCI; fails, changing nothing, exactly when there is no complete tag |
| Vlan.XdpBuff.TagPush | common/rewrite_helpers.h:69-108 | adds a tag in place; fails, changing nothing, exactly without headroom |
| Vlan.PushThenPop | common/rewrite_helpers.h:22-108 | restores any frame and returns the pushed 16 bits |
| Vlan.PopThenPush | common/rewrite_helpers.h:22-108 | restores the frame exactly when the outer tag was 802.1Q |
| Vlan.ParseEthVlan | common/parsing_helpers.h:79-122 | skips as many complete tags in a row as there are, up to the maximum, collects their ids, and never reads past the end |
| Vlan.ParseTagged | common/parsing_helpers.h:79-122 | after a push, parsing gives the same inner protocol four bytes further on and the pushed id first |
| Vlan.ParsePushed | common/parsing_helpers.h:79-122 | parsing before and after a push in the same buffer |
| ProgLinfo.SameRuns | libbpf/src/bpf_prog_linfo.c:22-86 | there is at most one dissection |
| ProgLinfo.Stuck | libbpf/src/bpf_prog_linfo.c:22-86 | where the loop gives up there is no dissection |
| ProgLinfo.ExtentFits | libbpf/src/bpf_prog_linfo.c:55-77 | the test against the length of a function says that the address lies within it, except for the one extent that wraps around |
| ProgLinfo.LineInfo.Dissect | libbpf/src/bpf_prog_linfo.c:22-86 | succeeds exactly when there is a dissection, and then indexes it: non-empty runs that partition all records, begin at the functions' addresses and lie within the functions |
| ProgLinfo.LineInfo.FindAddrFunc | libbpf/src/bpf_prog_linfo.c:180-216 | fails exactly for a missing function, too large a skip or an address below the first record; otherwise finds the last record of the stretch not above the address |
| ProgLinfo.LineInfo.FoundGreatest | libbpf/src/bpf_prog_linfo.c:180-216 | for every function but the last, that is the only record with the greatest address not above the query |
| ProgLinfo.LastFunctionUnchecked | libbpf/src/bpf_prog_linfo.c:47-77 | a last function whose records are out of order, and a query for which a greater one is missed |
| ProgLinfo.GreatestExactly | libbpf/src/bpf_prog_linfo.c:180-216 | the record found is the greatest for every query exactly when the stretch increases |
| ProgLinfo.LineInfo.Find | libbpf/src/bpf_prog_linfo.c:218-246 | the same lookup by instruction offset over all records |
| Jhash.MixBijective | headers/jhash.h:33-41 | __jhash_mix has a two-sided inverse on the 96-bit state |
| Jhash.FinalBijective | headers/jhash.h:43-52 | __jhash_final has a two-sided inverse on the 96-bit state |
| Jhash.Jhash | headers/jhash.h:68-105 | the loop and its fall-through cases compute the block-wise hash for every length |
| Jhash.Jhash2 | headers/jhash.h:114-141 | the loop computes the word-wise hash; the length in bytes wraps around |
| Jhash.WordsHashLikeBytes | headers/jhash.h:68-141 | fewer than 2^30 words hash like their bytes on a little-endian machine |
| Jhash.FixedForms | headers/jhash.h:145-170 | the forms for one, two and three words are the general hash of those words |
| Jhash.KnownWords | headers/jhash.h:114-141 | the hash of four words, of two blocks |
| Jhash.KnownBytes | headers/jhash.h:68-105 | the hash of seven bytes |
| Jhash.KnownBlocks | headers/jhash.h:68-105 | the hash of fourteen bytes, of two blocks |

## Left out

- Array fields of `struct btf_dedup`: `types`, `map`, `hypot_map` and `hypot_list` are sequence fields that the methods reassign, so aliasing between them is not captured; compaction on bytes (`BtfCompact`) and string sections do work on arrays.
- Linked chains of the hash map: a chain is a sequence whose first element is the head; relinking of nodes is not captured. `hashmap__clear` and `hashmap__free` are destructors.
- Allocation failures, except in the hash map: they end the operations with an error.
- BtfDedup.BtfDedup.Dedup: with forward resolution the meaning is that of named structs, unions and enums by kind and name, since a forward declaration stands for any of them; forward declarations are then required to have names. Which of several structs of one name a forward declaration is resolved to depends on the hash.
- BtfUnits.QuotientResult: merging is stated on clean input only, that is for structs and unions in units without duplicates, with signatures that do not depend on references; on other input `TwinsApart` and the verdicts hold.
- BtfDedup.BtfDedup.IsEquiv: -EINVAL has a necessary condition only; whether such a pair is met depends on the hash and the order of candidates.
- BtfCompact.CompactRecords: records of unknown kind are excluded by the layout precondition, as parsing excludes them (libbpf/src/btf.c:180-202).
- BtfCompact.CompactBytes: the same; records end at or before the string section.
- BtfStrings.StringSection.DedupStrings: the slots are given as a sequence; `BtfWhole` collects those of the type records, those of the line information stay a sequence. `func_info` and `field_reloc` offsets are not among them in the source either.
- Numeric values of the type hashes: the hash is an arbitrary function of the record.
- `btf__resolve_size`, bit-field padding and the emission of definitions in the dumper: easy members beside the ordering and the declarators.
- DumpDeclarator.Printer.EmitTypeChain: parameter lists are opaque, so nested declarators inside them are not followed; the loop that pushes a chain of type ids is replaced by the chain itself; unexpected kinds are not part of a chain.
- DumpOrder.Orderer.OrderType: a search that never returns is excluded, since the method could not end either; `DumpSearch` says when that is.
- DumpOrder.Orderer.DumpType: which types are referenced is an arbitrary flag per type; what the emission of a definition prints.
- XskApp.XskSocket.ProcessPacket: which packets are echo requests is an arbitrary function of the point in time; their bytes are the subject of `EchoReply`. Statistics counters are not modelled.
- GoSocket.Socket.Transmit: the sendto call after the ring update, its retries and its panic.
- GoSocket.Socket.Fill: descriptors outside the frames, for which the source indexes out of range and panics, are excluded; so they are for `Transmit`.
- GoSocket.Socket.Complete: asking for more completions than there are is modelled for a kernel that rests during the call.
- Memory barriers, mmap, poll, sendto and all other system calls; socket setup and teardown.
- EchoReply.DecreaseTtl: a TTL of 0 or 1, which its only caller never passes.
- EchoReply.RouteIpv4: the route lookup and the rewriting of Ethernet addresses; IPv6 hop limits have no checksum.
- Jhash.Jhash: big-endian word loads.
- Other copies of the user program, the packet01 and packet02 lessons, BTF and ELF header parsing, netlink and loader code: repetitions of the above or plumbing.
