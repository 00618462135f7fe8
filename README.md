# fast-remapper mapping engine, modelled in Dafny

fast-remapper renames the classes, fields and methods of compiled JVM
classes from one naming scheme (obfuscated, intermediary, Mojang, Searge,
Yarn, MCP) to another. This project models the mapping engine behind it.
The engine comes in three generations, and each is modelled in its own
modules:

- **`dev.fastmc.remapper`**, the current generation:
  - `BackingMap`, the two-bucket table keyed by 64-bit fingerprints, and its `WrappedBackingMap` form;
  - the mapping entries, their fingerprints, equality and order;
  - the class/field/method tables, `getOrCreate`, `reversed` and `mapWith`, and `remapDesc`;
  - the internal cache format (`write`/`read`, with its round trip proved);
  - the Tiny and TSRG/TSRG2 parsers;
  - `AsmRemapper`/`MixinRemapper`;
  - the refmap generator: the `@Inject`/`@Redirect`/`@At`/`@Invoker`/`@Accessor` resolution and the merged refmap;
  - `MappingName` and `McVersion`.
- **`dev.fastmc.jartools`**:
  - the `SelfHashMap` open-addressing table (a class over an array: probing, insertion with rehash, backward-shift removal);
  - the `SelfHashMap`-backed mapping of `jartools.remap` and its 32-bit cache format, with its round trip proved;
  - the hex helpers;
  - the Tiny/TSRG2 parsers and the `Tsrg2MappingProvider`;
  - the subclass, mixin, cached and sequence mapping stages, which are modelled as imperative walks over class entries that are updated in place, and are proved against value-level derivations;
  - the older refmap stage;
  - the remappers and `MappingName`.
- **`dev.luna5ama.jartools`**:
  - the map-based mapping, with its member lists and `mergeMapping`;
  - its providers and remappers;
  - `SubclassInfo`, the fixed-point computation of class depths that orders the subclass stage.

Java's 32- and 64-bit integers are modelled as natural-number bit patterns,
with wrap-around written out (`Jvm`, `Bits`). `HashCommon.mix` and the
iteration order of hash tables enter as parameters. Methods that update
tables in place are proved against functions over their contents. The
lemmas relate those functions to one another: round trips, preserved
invariants, what a stage hands to which class, and what each lookup answers
afterwards.

## Model

| member | source | states |
|---|---|---|
| Asm.FindAnnotation | src/main/kotlin/dev/fastmc/jartools/util/AsmUtils.kt:84-86 | the first annotation with the descriptor is found exactly when one is there |
| Asm.FindAnyAnnotation | src/main/kotlin/dev/fastmc/jartools/util/AsmUtils.kt:88-91 | the first annotation whose descriptor is among those given is found exactly when one is there |
| BackingMaps.Index | src/main/kotlin/dev/fastmc/remapper/mapping/BackingMap.kt:191 | the slot index `mix(h).toInt() and (capacity - 1)` is below the capacity |
| BackingMaps.IndexIs | src/main/kotlin/dev/fastmc/remapper/mapping/BackingMap.kt:191 | for a capacity 2^k the mask is the remainder modulo 2^k |
| BackingMaps.Walk | src/main/kotlin/dev/fastmc/remapper/mapping/BackingMap.kt:259-279 | the probe that alternates buckets and shifts the hash answers with a slot holding an entry of the queried fingerprint, or with an empty slot, or gives up |
| BackingMaps.WalkFill | src/main/kotlin/dev/fastmc/remapper/mapping/BackingMap.kt:233-236 | filling an empty slot where a probe does not stop leaves that probe's answer unchanged |
| BackingMaps.WalkFilled | src/main/kotlin/dev/fastmc/remapper/mapping/BackingMap.kt:233-236 | the probe that stopped at the filled slot now finds the new entry there |
| BackingMaps.InsertKeepsInv | src/main/kotlin/dev/fastmc/remapper/mapping/BackingMap.kt:229-236 | placing an entry in the empty slot its probe stops at keeps the table invariant and adds exactly that entry to the contents |
| BackingMaps.InsertKeepsOthers | src/main/kotlin/dev/fastmc/remapper/mapping/BackingMap.kt:229-236 | every fingerprint found before the insertion is found at the same slot after it |
| BackingMaps.InsertKeepsStored | src/main/kotlin/dev/fastmc/remapper/mapping/BackingMap.kt:229-236 | after the insertion every stored entry is still found by its own probe |
| BackingMaps.InsertKeepsFound | src/main/kotlin/dev/fastmc/remapper/mapping/BackingMap.kt:229-236 | after the insertion the probe finds exactly the fingerprints of the new contents |
| BackingMaps.StoredMatches | src/main/kotlin/dev/fastmc/remapper/mapping/BackingMap.kt:259-279 | in a valid table the probe for a stored entry's fingerprint ends at that entry's slot |
| BackingMaps.FoundMatches | src/main/kotlin/dev/fastmc/remapper/mapping/BackingMap.kt:330-332 | in a valid table `get(h)` finds an entry exactly when h is a key of the contents, and finds the entry stored under it |
| BackingMaps.EmptyInv | src/main/kotlin/dev/fastmc/remapper/mapping/BackingMap.kt:101-108 | fresh empty buckets form a valid table with no contents |
| BackingMaps.InvHolds | src/main/kotlin/dev/fastmc/remapper/mapping/BackingMap.kt:100-108 | in a valid table every slot holds a content entry and no fingerprint is stored twice |
| BackingMaps.InterleaveCount | src/main/kotlin/dev/fastmc/remapper/mapping/BackingMap.kt:431-444 | walking slots 0..n visits as many entries as there are distinct fingerprints in them |
| BackingMaps.InterleaveEntries | src/main/kotlin/dev/fastmc/remapper/mapping/BackingMap.kt:431-444 | every entry `forEach` visits is an entry of the contents |
| BackingMaps.KeysAreContents | src/main/kotlin/dev/fastmc/remapper/mapping/BackingMap.kt:431-444 | the fingerprints in all slots are exactly the keys of the contents |
| BackingMaps.IterationIsContents | src/main/kotlin/dev/fastmc/remapper/mapping/BackingMap.kt:431-444 | `forEach` visits each stored entry exactly once: as many visits as entries, only entries, and every entry |
| BackingMaps.InterleavePrefix | src/main/kotlin/dev/fastmc/remapper/mapping/BackingMap.kt:431-444 | the walk visits bucket A's slot i, then bucket B's slot i, in increasing i, so a shorter walk is a prefix of a longer one |
| BackingMaps.SmearZero | src/main/kotlin/dev/fastmc/remapper/mapping/BackingMap.kt:313-320 | smearing zero gives zero, so `resizeShift(1)` is 0 |
| BackingMaps.CeilLog2Is | src/main/kotlin/dev/fastmc/remapper/mapping/BackingMap.kt:313-320 | the number of bits `resizeShift` aims at is the least m with n <= 2^m |
| BackingMaps.ResizeShiftIs | src/main/kotlin/dev/fastmc/remapper/mapping/BackingMap.kt:313-320 | `resizeShift(i)`, the ones count after smearing i - 1, is the least m with i <= 2^m |
| BackingMaps.SmearAll | src/main/kotlin/dev/fastmc/remapper/mapping/BackingMap.kt:314-320 | the five smearing steps fill every bit up to the top one of a non-negative Int |
| BackingMaps.FindCodeDecode | src/main/kotlin/dev/fastmc/remapper/mapping/BackingMap.kt:297 | the code `(bucket shl 31) or index` decodes back to bucket and index, and is never the -1 that means absent |
| BackingMapFindings.RehashHeaderAsWritten | src/main/kotlin/dev/fastmc/remapper/mapping/BackingMap.kt:119-122 | as written, `rehash(shift)` raises `bits` by one whatever the shift |
| BackingMapFindings.EnsureCapacityHeaderAsWritten | src/main/kotlin/dev/fastmc/remapper/mapping/BackingMap.kt:307-311 | as written, `ensureCapacity(n)` at or below the threshold leaves the header unchanged |
| BackingMapFindings.EnsureCapacityTwiceAsWritten | src/main/kotlin/dev/fastmc/remapper/mapping/BackingMap.kt:307-311 | as written, `ensureCapacity(9)` twice on a fresh table leaves 0 slots and threshold 0 |
| BackingMapFindings.ExampleTable | src/main/kotlin/dev/fastmc/remapper/mapping/BackingMap.kt:323-328 | `add(16)` then `add(32)` (identity mix) put 16 in A[0] and 32 in B[0], a valid table |
| BackingMapFindings.AddResultAsWritten | src/main/kotlin/dev/fastmc/remapper/mapping/BackingMap.kt:233-252 | as written, `internalAdd` returns true only when the first slot probed was empty |
| BackingMapFindings.AddResultCounterexample | src/main/kotlin/dev/fastmc/remapper/mapping/BackingMap.kt:244-252 | `add(32)` stores 32 one step into the probe, yet returns false |
| BackingMapFindings.AddStoresAsWritten | src/main/kotlin/dev/fastmc/remapper/mapping/BackingMap.kt:242-247 | as written, an entry is stored only when its probe stops at an empty slot; an exhausted probe calls `rehash(1)` and drops it |
| BackingMapFindings.AddDropsCounterexample | src/main/kotlin/dev/fastmc/remapper/mapping/BackingMap.kt:245-247 | in the example table `add(0)` exhausts its probe and 0 is neither stored nor present |
| BackingMapFindings.RemoveAsWritten | src/main/kotlin/dev/fastmc/remapper/mapping/BackingMap.kt:418-425 | as written, `remove` empties the slot the probe matched and leaves the size field unchanged |
| BackingMapFindings.RemoveCounterexample | src/main/kotlin/dev/fastmc/remapper/mapping/BackingMap.kt:423 | removing 16 from the example table leaves 32 stored but unreachable, and the size still 2 |
| BackingMapFindings.RetainSlotsAsWritten | src/main/kotlin/dev/fastmc/remapper/mapping/BackingMap.kt:385-408 | as written, `retainAll` empties exactly the rejected slots and rebuilds nothing |
| BackingMapFindings.RetainCounterexample | src/main/kotlin/dev/fastmc/remapper/mapping/BackingMap.kt:393 | retaining all but 16 loses 32 in the same way |
| WrappedBackingMaps.WrappedBackingMap.constructor | src/main/kotlin/dev/fastmc/remapper/mapping/BackingMap.kt:19 | a fresh wrapped map is empty |
| WrappedBackingMaps.WrappedBackingMap.Size | src/main/kotlin/dev/fastmc/remapper/mapping/BackingMap.kt:42-43 | `size` is the number of stored fingerprints |
| WrappedBackingMaps.WrappedBackingMap.IsEmpty | src/main/kotlin/dev/fastmc/remapper/mapping/BackingMap.kt:53-55 | `isEmpty` holds exactly when the size is 0 |
| WrappedBackingMaps.WrappedBackingMap.Get | src/main/kotlin/dev/fastmc/remapper/mapping/BackingMap.kt:33-35 | `get(h)` returns exactly the entry stored under h |
| WrappedBackingMaps.WrappedBackingMap.Contains | src/main/kotlin/dev/fastmc/remapper/mapping/BackingMap.kt:95-97 | `contains` holds exactly when the entry stored under the element's fingerprint is the element itself |
| WrappedBackingMaps.WrappedBackingMap.Add | src/main/kotlin/dev/fastmc/remapper/mapping/BackingMap.kt:49-51 | `add` replaces the entry under the fingerprint, and is true exactly when none was there |
| WrappedBackingMaps.WrappedBackingMap.Remove | src/main/kotlin/dev/fastmc/remapper/mapping/BackingMap.kt:82-84 | `remove` drops the fingerprint, and is true exactly when it was there |
| WrappedBackingMaps.WrappedBackingMap.Clear | src/main/kotlin/dev/fastmc/remapper/mapping/BackingMap.kt:45-47 | `clear` empties the map |
| WrappedBackingMaps.WrappedBackingMap.AddAll | src/main/kotlin/dev/fastmc/remapper/mapping/BackingMap.kt:21-27 | `addAll(elements)` puts each element in order, and is true exactly when some fingerprint was new |
| WrappedBackingMaps.WrappedBackingMap.AddAllFrom | src/main/kotlin/dev/fastmc/remapper/mapping/BackingMap.kt:37-40 | `addAll(other)` is `putAll`: the other map's entries replace |
| WrappedBackingMaps.WrappedBackingMap.ContainsAll | src/main/kotlin/dev/fastmc/remapper/mapping/BackingMap.kt:86-93 | `containsAll` holds exactly when every element is contained |
| WrappedBackingMaps.WrappedBackingMap.RemoveAll | src/main/kotlin/dev/fastmc/remapper/mapping/BackingMap.kt:74-80 | `removeAll` drops every element's fingerprint, and is true exactly when one of them was there |
| WrappedBackingMaps.WrappedBackingMap.RetainAll | src/main/kotlin/dev/fastmc/remapper/mapping/BackingMap.kt:61-72 | `retainAll` keeps exactly the entries the predicate accepts, and is true exactly when one was rejected |
| WrappedBackingMaps.PutAllKeys | src/main/kotlin/dev/fastmc/remapper/mapping/BackingMap.kt:21-27 | putting the elements keeps the other keys and adds each element's fingerprint, holding the last such element |
| WrappedBackingMaps.MergeVersusPutAll | src/main/kotlin/dev/fastmc/remapper/mapping/BackingMap.kt:340-355 | the two `addAll(other)`s differ only on shared fingerprints: the two-bucket table keeps its own entry, the wrapped map takes the other's |
| BackingMapTables.BackingMap.constructor | src/main/kotlin/dev/fastmc/remapper/mapping/BackingMap.kt:101-108 | a fresh table has 16 slots per bucket, 4 bits, threshold 8, size 0 and no contents, and is valid |
| BackingMapTables.BackingMap.Size | src/main/kotlin/dev/fastmc/remapper/mapping/BackingMap.kt:110 | `size` is the number of stored entries |
| BackingMapTables.BackingMap.IsEmpty | src/main/kotlin/dev/fastmc/remapper/mapping/BackingMap.kt:372-374 | `isEmpty` holds exactly when nothing is stored |
| BackingMapTables.BackingMap.Get | src/main/kotlin/dev/fastmc/remapper/mapping/BackingMap.kt:255-332 | `get(h)` finds an entry exactly when one with fingerprint h is stored, and returns that entry |
| BackingMapTables.BackingMap.Contains | src/main/kotlin/dev/fastmc/remapper/mapping/BackingMap.kt:334-338 | `contains` holds exactly when an entry with the element's fingerprint is stored |
| BackingMapTables.BackingMap.Find | src/main/kotlin/dev/fastmc/remapper/mapping/BackingMap.kt:281-305 | `internalFind` is -1 exactly for an absent fingerprint; otherwise its code names the bucket and slot holding the entry, where the probe matches |
| BackingMapTables.BackingMap.Iteration | src/main/kotlin/dev/fastmc/remapper/mapping/BackingMap.kt:431-444 | the iteration order visits every stored entry exactly once and nothing else |
| BackingMapTables.BackingMap.Place | src/main/kotlin/dev/fastmc/remapper/mapping/BackingMap.kt:233-236 | storing an entry in the empty slot its probe stopped at adds exactly that entry and keeps the table valid |
| BackingMapTables.BackingMap.RehashAdd | src/main/kotlin/dev/fastmc/remapper/mapping/BackingMap.kt:179-215 | `rehashAdd` adds a new fingerprint's entry and leaves a present one, keeping the table valid; an exhausted probe (`RehashException`) changes nothing |
| BackingMapTables.BackingMap.Rebuild | src/main/kotlin/dev/fastmc/remapper/mapping/BackingMap.kt:125-141 | rebuilding from the old arrays into fresh buckets yields exactly the old contents, unless a re-add runs out of probe steps |
| BackingMapTables.BackingMap.Reallocate | src/main/kotlin/dev/fastmc/remapper/mapping/BackingMap.kt:125-128 | the new buckets are fresh, empty and of the current capacity |
| BackingMapTables.BackingMap.ReinsertAll | src/main/kotlin/dev/fastmc/remapper/mapping/BackingMap.kt:130-141 | after re-adding every old slot the contents are a part of the old contents holding every entry placed so far |
| BackingMapTables.BackingMap.ReinsertPair | src/main/kotlin/dev/fastmc/remapper/mapping/BackingMap.kt:131-140 | one iteration re-adds slot i of bucket A, then of bucket B, and both fingerprints are then stored |
| BackingMapTables.BackingMap.Rehash | src/main/kotlin/dev/fastmc/remapper/mapping/BackingMap.kt:112-177 | `rehash(shift)`, corrected to grow by `shift` bits, keeps the contents and the size and grows by at least `shift` bits, doubling again on `RehashException` |
| BackingMapTables.BackingMap.Regrow | src/main/kotlin/dev/fastmc/remapper/mapping/BackingMap.kt:142-174 | the retry loop doubles until every entry is re-added, ending with the old contents, or stops at 30 bits |
| BackingMapTables.BackingMap.Resize | src/main/kotlin/dev/fastmc/remapper/mapping/BackingMap.kt:119-122 | the header fields describe a table of 2^n slots; buckets and contents are unchanged |
| BackingMapTables.BackingMap.InternalAdd | src/main/kotlin/dev/fastmc/remapper/mapping/BackingMap.kt:217-253 | `internalAdd`, corrected: the result is true exactly when the fingerprint was new, and the entry is then stored; a present fingerprint leaves the contents |
| BackingMapTables.BackingMap.Add | src/main/kotlin/dev/fastmc/remapper/mapping/BackingMap.kt:323-328 | `add` grows first at the threshold, then adds: true exactly for a new fingerprint, which is then stored |
| BackingMapTables.BackingMap.EnsureCapacity | src/main/kotlin/dev/fastmc/remapper/mapping/BackingMap.kt:307-311 | `ensureCapacity(n)` keeps the contents and leaves room for n entries; at or below the threshold it changes nothing |
| BackingMapTables.BackingMap.Remove | src/main/kotlin/dev/fastmc/remapper/mapping/BackingMap.kt:418-425 | `remove`, corrected: true exactly when the fingerprint was stored, and the contents then lose exactly that entry |
| BackingMapTables.BackingMap.Clear | src/main/kotlin/dev/fastmc/remapper/mapping/BackingMap.kt:366-370 | `clear` empties the contents and keeps the capacity |
| BackingMapTables.BackingMap.AddEach | src/main/kotlin/dev/fastmc/remapper/mapping/BackingMap.kt:357-364 | adding the elements in order gives the keep-first insertion of them, and the result says whether the contents changed |
| BackingMapTables.BackingMap.AddAll | src/main/kotlin/dev/fastmc/remapper/mapping/BackingMap.kt:357-364 | `addAll(elements)` inserts the elements in order, keeping present fingerprints, and reports whether the contents changed |
| BackingMapTables.BackingMap.AddAllFrom | src/main/kotlin/dev/fastmc/remapper/mapping/BackingMap.kt:340-355 | `addAll(other)` merges the other table in, this table's entries winning on equal fingerprints |
| BackingMapTables.BackingMap.ContainsAll | src/main/kotlin/dev/fastmc/remapper/mapping/BackingMap.kt:376-383 | `containsAll` holds exactly when every element's fingerprint is stored |
| BackingMapTables.BackingMap.RemoveAll | src/main/kotlin/dev/fastmc/remapper/mapping/BackingMap.kt:410-416 | `removeAll` takes out every element's fingerprint and reports whether any was there |
| BackingMapTables.BackingMap.RetainAll | src/main/kotlin/dev/fastmc/remapper/mapping/BackingMap.kt:385-408 | `retainAll`, corrected: the contents become those the predicate keeps, and the result says whether anything was rejected |
| BackingMapTables.BackingMap.DropRejected | src/main/kotlin/dev/fastmc/remapper/mapping/BackingMap.kt:387-406 | the slot loop empties exactly the slots whose entry is rejected and reports whether there was one |
| BackingMapTables.InsertAllKeys | src/main/kotlin/dev/fastmc/remapper/mapping/BackingMap.kt:357-364 | adding in order keeps every stored entry and adds, for each new fingerprint, an element with that fingerprint |
| BackingMapTables.InsertAllOf | src/main/kotlin/dev/fastmc/remapper/mapping/BackingMap.kt:340-355 | adding all entries of another table merges it in, stored entries winning |
| BackingMapTables.RetainSource | src/main/kotlin/dev/fastmc/remapper/mapping/BackingMap.kt:387-406 | after the slot loop the buckets hold exactly the retained entries, and it found a rejected slot exactly when some entry is rejected |
| BackingMapTables.ToTArray | src/main/kotlin/dev/fastmc/remapper/mapping/BackingMap.kt:483-505 | `toTArray` gives a fresh array of `size` places holding the iteration order, slot i of A before slot i of B |
| BackingMapTables.Fill | src/main/kotlin/dev/fastmc/remapper/mapping/BackingMap.kt:488-497 | the fill loop writes the entries of both buckets in iteration order |
| BackingMapTables.GrowthFits | src/main/kotlin/dev/fastmc/remapper/mapping/BackingMap.kt:307-320 | growing to `resizeShift(n)` bits leaves room for n entries; it can fail only past 2^30 |
| BackingMapTables.RemoveSource | src/main/kotlin/dev/fastmc/remapper/mapping/BackingMap.kt:418-424 | emptying the matched slot leaves buckets that rebuild into the contents without that fingerprint |
| BackingMapTables.PlacedAll | src/main/kotlin/dev/fastmc/remapper/mapping/BackingMap.kt:130-141 | once every old slot is re-added the rebuilt contents are all of the old contents |
| CacheFormat.Hex16 | src/main/kotlin/dev/fastmc/remapper/mapping/InternalMappingParser.kt:68 | a fingerprint is printed as sixteen hex digits |
| CacheFormat.CompareAntisymmetries | src/main/kotlin/dev/fastmc/remapper/mapping/Mapping.kt:138-234 | swapping the operands of `compareTo` negates the answer for fields, methods and classes |
| CacheFormat.PairsList | src/main/kotlin/dev/fastmc/remapper/mapping/BackingMap.kt:483-505 | however the walked (fingerprint, entry) pairs are rearranged, they list the table, each entry at its own fingerprint |
| CacheFormat.SortedArray | src/main/kotlin/dev/fastmc/remapper/mapping/InternalMappingParser.kt:100-102 | `sortedArray` lists every entry of the table once, each at its own fingerprint, and in `compareTo` order when that order is antisymmetric |
| CacheFormat.SortedKeys | src/main/kotlin/dev/fastmc/remapper/mapping/InternalMappingParser.kt:100-102 | sorting the walked pairs by their entries still lists the table by fingerprint |
| CacheFormat.WriteField | src/main/kotlin/dev/fastmc/remapper/mapping/InternalMappingParser.kt:72-80 | a field row is the tab, nameFrom, nameTo and sixteen hex digits of the fingerprint, tab-separated and ended by a newline |
| CacheFormat.WriteMethod | src/main/kotlin/dev/fastmc/remapper/mapping/InternalMappingParser.kt:84-94 | a method row is the tab, nameFrom, desc, nameTo and sixteen hex digits of the fingerprint, tab-separated and ended by a newline |
| CacheFormat.WriteFieldRows | src/main/kotlin/dev/fastmc/remapper/mapping/InternalMappingParser.kt:72-80 | the loop appends one field row per field, in the order given |
| CacheFormat.WriteFields | src/main/kotlin/dev/fastmc/remapper/mapping/InternalMappingParser.kt:71-81 | the fields of a class are printed sorted, each once |
| CacheFormat.WriteMethodRows | src/main/kotlin/dev/fastmc/remapper/mapping/InternalMappingParser.kt:84-94 | the loop appends one method row per method, in the order given |
| CacheFormat.WriteMethods | src/main/kotlin/dev/fastmc/remapper/mapping/InternalMappingParser.kt:83-95 | the methods of a class are printed sorted, each once |
| CacheFormat.WriteClass | src/main/kotlin/dev/fastmc/remapper/mapping/InternalMappingParser.kt:60-98 | a class is printed as its class row, then its fields sorted, then its methods sorted, listing all of its members |
| CacheFormat.Write | src/main/kotlin/dev/fastmc/remapper/mapping/InternalMappingParser.kt:53-58 | every class of the mapping is printed once, in `compareTo` order, each block listing the class stored under its fingerprint |
| CacheFormat.WriteClasses | src/main/kotlin/dev/fastmc/remapper/mapping/InternalMappingParser.kt:55-57 | one block per class, in the order given |
| CacheFormat.ParseClass | src/main/kotlin/dev/fastmc/remapper/mapping/InternalMappingParser.kt:26 | a class row builds a class with no members yet |
| CacheFormat.WithField | src/main/kotlin/dev/fastmc/remapper/mapping/InternalMappingParser.kt:39-45 | a field row changes only the latest class, and keeps it the latest class |
| CacheFormat.WithMethod | src/main/kotlin/dev/fastmc/remapper/mapping/InternalMappingParser.kt:30-37 | a method row changes only the latest class, and keeps it the latest class |
| CacheFormat.Step | src/main/kotlin/dev/fastmc/remapper/mapping/InternalMappingParser.kt:22-48 | one line keeps the latest class in the mapping |
| CacheFormat.ReadAll | src/main/kotlin/dev/fastmc/remapper/mapping/InternalMappingParser.kt:22-48 | reading lines keeps the latest class in the mapping |
| CacheFormat.ReadConcat | src/main/kotlin/dev/fastmc/remapper/mapping/InternalMappingParser.kt:22-48 | reading a + b is reading a and then, unless it threw, reading b from where a left off |
| CacheFormat.ReadFailsAt | src/main/kotlin/dev/fastmc/remapper/mapping/InternalMappingParser.kt:22-48 | the first line that throws ends the read with its exception |
| CacheFormat.Read | src/main/kotlin/dev/fastmc/remapper/mapping/InternalMappingParser.kt:19-51 | the line loop computes `read(lines)` |
| CacheRoundTrip.SplitClassRow | src/main/kotlin/dev/fastmc/remapper/mapping/InternalMappingParser.kt:24-69 | a printed class row splits back into nameFrom, nameTo and the fingerprint digits |
| CacheRoundTrip.SplitFieldRow | src/main/kotlin/dev/fastmc/remapper/mapping/InternalMappingParser.kt:24-79 | a printed field row splits back into an empty lead, nameFrom, nameTo and the fingerprint digits |
| CacheRoundTrip.SplitMethodRow | src/main/kotlin/dev/fastmc/remapper/mapping/InternalMappingParser.kt:24-93 | a printed method row splits back into five fields: an empty lead, nameFrom, desc, nameTo and the fingerprint digits |
| CacheRoundTrip.ReadClassRow | src/main/kotlin/dev/fastmc/remapper/mapping/InternalMappingParser.kt:25-27 | a printed class row opens its class, with no members yet, unless its fingerprint is already in the mapping |
| CacheRoundTrip.ReadFieldRow | src/main/kotlin/dev/fastmc/remapper/mapping/InternalMappingParser.kt:38-46 | a printed field row is read back as the same field of the latest class |
| CacheRoundTrip.ReadMethodRow | src/main/kotlin/dev/fastmc/remapper/mapping/InternalMappingParser.kt:29-37 | a printed method row is read back as the same method of the latest class |
| CacheRoundTrip.AddAll | src/main/kotlin/dev/fastmc/remapper/mapping/Mapping.kt:35-37 | adding entries keeps every entry already in the table |
| CacheRoundTrip.AddAllRebuilds | src/main/kotlin/dev/fastmc/remapper/mapping/Mapping.kt:35-37 | a listing of a table, added entry by entry to an empty table, rebuilds the table |
| CacheRoundTrip.ReadSnoc | src/main/kotlin/dev/fastmc/remapper/mapping/InternalMappingParser.kt:22-48 | reading one more row continues from where the earlier rows left the reader |
| CacheRoundTrip.ReadFieldRows | src/main/kotlin/dev/fastmc/remapper/mapping/InternalMappingParser.kt:38-80 | the printed field rows of a class are read back as those fields of the latest class |
| CacheRoundTrip.ReadMethodRows | src/main/kotlin/dev/fastmc/remapper/mapping/InternalMappingParser.kt:29-94 | the printed method rows of a class are read back as those methods of the latest class |
| CacheRoundTrip.RefillClass | src/main/kotlin/dev/fastmc/remapper/mapping/InternalMappingParser.kt:25-46 | filling a freshly opened class with listings of its member tables gives the class back |
| CacheRoundTrip.ReadBlock | src/main/kotlin/dev/fastmc/remapper/mapping/InternalMappingParser.kt:60-98 | a printed class block adds its class to what was read before, unless that fingerprint is taken |
| CacheRoundTrip.ReadBlocks | src/main/kotlin/dev/fastmc/remapper/mapping/InternalMappingParser.kt:53-58 | reading the printed blocks adds their classes one by one to an empty mapping |
| CacheRoundTrip.ReadRowsBack | src/main/kotlin/dev/fastmc/remapper/mapping/InternalMappingParser.kt:19-98 | reading the rows of a printout of a mapping gives the mapping back |
| Text.Lines | src/main/kotlin/dev/fastmc/remapper/mapping/InternalMappingParser.kt:14 | `useLines` yields lines none of which holds a line feed or a carriage return |
| CacheRoundTrip.LinesOfPrinted | src/main/kotlin/dev/fastmc/remapper/mapping/InternalMappingParser.kt:14-93 | reading a printout line by line, ending lines at `\n`, `\r` or `\r\n`, gives exactly its rows when no row holds a line terminator |
| CacheRoundTrip.SkipsEmptyLine | src/main/kotlin/dev/fastmc/remapper/mapping/InternalMappingParser.kt:23 | an empty line is skipped wherever it stands |
| CacheRoundTrip.MemberRowFirstFails | src/main/kotlin/dev/fastmc/remapper/mapping/InternalMappingParser.kt:30-39 | a member row before any class row throws on `lastClassEntry!!` |
| CacheRoundTrip.RoundTrip | src/main/kotlin/dev/fastmc/remapper/mapping/InternalMappingParser.kt:9-98 | `read(write(m))` is m: the printed text, read line by line as `useLines` does, gives the mapping back |
| CacheRoundTrip.WriteThenRead | src/main/kotlin/dev/fastmc/remapper/mapping/InternalMappingParser.kt:9-98 | writing a mapping to a fresh buffer and reading the buffer's `useLines` lines back gives the mapping |
| ClassEntries.Transfer | src/main/kotlin/dev/fastmc/jartools/mapping/MappingPipeline.kt:48-105 | the hand-over keeps every other entry object, puts any new entry under the fingerprint of the receiving name, never throws when copying members as they are, and, when the copies reproduce the members, shows `Receive` of the class's methods and kept fields |
| ClassEntries.HandMethods | src/main/kotlin/dev/fastmc/jartools/mapping/MappingPipeline.kt:49-54 | the method walk cannot fail on copyable methods and then receives every method |
| ClassEntries.Settle | src/main/kotlin/dev/fastmc/jartools/mapping/MappingPipeline.kt:55-62 | the field walk grows the table as the value-level field walk says, and receives every kept field after the methods |
| ClassEntries.GiveMethods | src/main/kotlin/dev/fastmc/jartools/mapping/MappingPipeline.kt:49-54 | the loop over the methods fails only at a method whose copy throws, and otherwise computes the value-level method walk |
| ClassEntries.GiveMethod | src/main/kotlin/dev/fastmc/jartools/mapping/MappingPipeline.kt:50-53 | one method step succeeds exactly when its copy does |
| ClassEntries.GiveFields | src/main/kotlin/dev/fastmc/jartools/mapping/MappingPipeline.kt:55-62 | the loop over the fields computes the value-level field walk, opening the receiving entry at most once |
| ClassEntries.PutMethod | src/main/kotlin/dev/fastmc/jartools/mapping/MappingPipeline.kt:50-53 | one method is added to the receiving entry, looked up or created on first use; rebuilding it throws on an empty name or descriptor |
| ClassEntries.PutField | src/main/kotlin/dev/fastmc/jartools/mapping/MappingPipeline.kt:57-60 | one kept field is added to the receiving entry, looked up or created on first use |
| ClassEntries.Open | src/main/kotlin/dev/fastmc/jartools/mapping/MappingPipeline.kt:50-52 | the lazy `set`: the receiving entry is looked up or created with `getOrCreate`, kept from then on, and stored under the fingerprint of its name |
| ClassHeaps.Entry.constructor | src/main/kotlin/dev/fastmc/remapper/mapping/Mapping.kt:281-288 | a new class entry has empty member tables and its fingerprint from nameFrom |
| ClassHeaps.Entry.AddField | src/main/kotlin/dev/fastmc/remapper/mapping/Mapping.kt:292-322 | `fieldMapping.add` keeps the first field under a fingerprint and leaves the methods alone |
| ClassHeaps.Entry.AddMethod | src/main/kotlin/dev/fastmc/remapper/mapping/Mapping.kt:292-322 | `methodMapping.add` keeps the first method under a fingerprint and leaves the fields alone |
| ClassHeaps.GetOrCreateEntry | src/main/kotlin/dev/fastmc/remapper/mapping/Mapping.kt:106-114 | `getOrCreate(name)` returns the stored entry, else adds a fresh empty entry mapping the name to itself under its fingerprint |
| ClassHeaps.AddMethodAt | src/main/kotlin/dev/fastmc/remapper/mapping/Mapping.kt:35-37 | adding a method to one entry changes only that entry's contents |
| ClassHeaps.AddFieldAt | src/main/kotlin/dev/fastmc/remapper/mapping/Mapping.kt:35-37 | adding a field to one entry changes only that entry's contents |
| ClassHeaps.AddAllShows | src/main/kotlin/dev/fastmc/remapper/mapping/BackingMap.kt:340-355 | `addAll(other)` of entry references shows the keep-first union of what the two tables show |
| Derivations.KeepUnion | src/main/kotlin/dev/fastmc/remapper/mapping/BackingMap.kt:340-355 | `addAll` holds the keys of both tables, keeps every entry of the first, and takes the second's entry only under a new key |
| Derivations.Receive | src/main/kotlin/dev/fastmc/jartools/mapping/MappingPipeline.kt:48-62 | receiving members never drops a class |
| Derivations.Fill | src/main/kotlin/dev/fastmc/jartools/mapping/MappingPipeline.kt:53-60 | filling a class only adds: its members stay, it gains a member under every key of the given ones, and a new key holds the given member |
| Derivations.ReceiveExtends | src/main/kotlin/dev/fastmc/jartools/mapping/MappingPipeline.kt:48-62 | receiving keeps every class and member, and with nothing to add changes nothing and creates no class (the lazy `set`) |
| Derivations.ReceiveCreates | src/main/kotlin/dev/fastmc/jartools/mapping/MappingPipeline.kt:50-52 | with something to add the receiving class exists afterwards, a new one mapping its name to itself, and holds every given member; no other class appears |
| Derivations.ReceiveOnly | src/main/kotlin/dev/fastmc/jartools/mapping/MappingPipeline.kt:48-62 | every member the receiving class did not hold before is one of the given members |
| Derivations.Part | src/main/kotlin/dev/fastmc/remapper/mapping/BackingMap.kt:507-525 | the part of a table a walk has visited is the entries under the visited keys |
| Derivations.PartAll | src/main/kotlin/dev/fastmc/remapper/mapping/BackingMap.kt:507-525 | a walk over every key visits the whole table |
| Derivations.ReceiveAddMethod | src/main/kotlin/dev/fastmc/jartools/mapping/MappingPipeline.kt:50-53 | one more received method is `getOrCreate(name)` followed by one keep-first `add` of that method |
| Derivations.ReceiveAddField | src/main/kotlin/dev/fastmc/jartools/mapping/MappingPipeline.kt:57-60 | one more received field is `getOrCreate(name)` followed by one keep-first `add` of that field |
| Derivations.AfterReceive | src/main/kotlin/dev/fastmc/remapper/mapping/Mapping.kt:106-114 | `getOrCreate(name)` after receiving finds the class as receiving filled it |
| Derivations.ReceiveKeyed | src/main/kotlin/dev/fastmc/jartools/mapping/MappingPipeline.kt:48-62 | receiving members stored under their own keys keeps every member under its own key |
| Derivations.ReceiveFingerprinted | src/main/kotlin/dev/fastmc/jartools/mapping/MappingPipeline.kt:48-62 | receiving members stored under their fingerprints keeps every member under its fingerprint |
| Derivations.Kept | src/main/kotlin/dev/fastmc/jartools/mapping/MappingPipeline.kt:56-99 | the fields a rule lets through are exactly those whose name it keeps |
| Derivations.Inherited | src/main/kotlin/dev/fastmc/jartools/mapping/MappingPipeline.kt:56 | a subclass inherits exactly the parent's fields whose name it does not declare |
| Derivations.Propagate | src/main/kotlin/dev/fastmc/jartools/mapping/MappingPipeline.kt:47-63 | one visit of the subclass stage never drops a class |
| Derivations.PropagateRule | src/main/kotlin/dev/fastmc/jartools/mapping/MappingPipeline.kt:47-63 | the subclass receives every method of its parent and every field whose name it does not declare, and no field whose name it declares; it is created only when the parent has something to hand down |
| Derivations.PropagateAll | src/main/kotlin/dev/fastmc/jartools/mapping/MappingPipeline.kt:47-63 | the visits of one parent's subclasses never drop a class |
| Derivations.SubclassPass | src/main/kotlin/dev/fastmc/jartools/mapping/MappingPipeline.kt:44-65 | the info walk never drops a class |
| Derivations.SubclassedExtends | src/main/kotlin/dev/fastmc/jartools/mapping/MappingPipeline.kt:41-65 | the subclass stage keeps every class and member of the previous mapping |
| Derivations.SubclassPassInvariants | src/main/kotlin/dev/fastmc/jartools/mapping/MappingPipeline.kt:44-65 | the subclass pass keeps every member under its own key, and under its fingerprint |
| Derivations.Shadowed | src/main/kotlin/dev/fastmc/jartools/mapping/MappingPipeline.kt:95-99 | a mixin receives exactly the target's fields it redeclares with `@Shadow` |
| Derivations.Adopt | src/main/kotlin/dev/fastmc/jartools/mapping/MappingPipeline.kt:86-106 | one target of a mixin never drops a class |
| Derivations.AdoptRule | src/main/kotlin/dev/fastmc/jartools/mapping/MappingPipeline.kt:86-106 | the mixin class receives every method of its target and exactly the target's fields it redeclares with `@Shadow`; it is created only when the target has something to hand over |
| Derivations.AdoptAll | src/main/kotlin/dev/fastmc/jartools/mapping/MappingPipeline.kt:84-108 | the targets of one mixin never drop a class |
| Derivations.MixinPass | src/main/kotlin/dev/fastmc/jartools/mapping/MappingPipeline.kt:80-135 | the mixin pass never drops a class |
| Derivations.MixedExtends | src/main/kotlin/dev/fastmc/jartools/mapping/MappingPipeline.kt:76-135 | the mixin stage keeps every class and member of the previous mapping, and every member under its own key |
| Derivations.UnmappedTargetsChangeNothing | src/main/kotlin/dev/fastmc/jartools/mapping/MappingPipeline.kt:86-111 | a target the previous mapping lacks is never a source: with no mapped target the mixin stage changes nothing |
| ExternalParsers.OpenClass | src/main/kotlin/dev/fastmc/remapper/mapping/ExternalMappingParser.kt:22-25 | a class row makes the class under nameFrom's fingerprint the latest one, creating it only when it is new |
| ExternalParsers.PutField | src/main/kotlin/dev/fastmc/remapper/mapping/ExternalMappingParser.kt:31-35 | a field row adds the field to the latest class and changes nothing else |
| ExternalParsers.PutMethod | src/main/kotlin/dev/fastmc/remapper/mapping/ExternalMappingParser.kt:41-47 | a method row succeeds exactly when name and descriptor are non-empty, and adds the method to the latest class |
| ExternalParsers.TinyStep | src/main/kotlin/dev/fastmc/remapper/mapping/ExternalMappingParser.kt:12-55 | a TINY line that is read marks the header as skipped |
| ExternalParsers.ParseTiny | src/main/kotlin/dev/fastmc/remapper/mapping/ExternalMappingParser.kt:7-58 | the line loop of `TINY.parse` computes the fold of the line step over the lines |
| ExternalParsers.TinySkipsHeader | src/main/kotlin/dev/fastmc/remapper/mapping/ExternalMappingParser.kt:13-16 | the first line is skipped whatever it holds |
| ExternalParsers.TinySkipsEmpty | src/main/kotlin/dev/fastmc/remapper/mapping/ExternalMappingParser.kt:18 | after the header an empty line changes nothing |
| ExternalParsers.TinyClassRow | src/main/kotlin/dev/fastmc/remapper/mapping/ExternalMappingParser.kt:20-25 | a class row opens the class in its second column, its target defaulting to its name, and reuses a class already there |
| ExternalParsers.MemberColumns | src/main/kotlin/dev/fastmc/remapper/mapping/ExternalMappingParser.kt:29-39 | the columns of a member row are split at tabs after its third character |
| ExternalParsers.TinyFieldRow | src/main/kotlin/dev/fastmc/remapper/mapping/ExternalMappingParser.kt:28-37 | a field row `\tf\t<desc>\t<from>\t<to>` adds Field(from, to or from) to the latest class |
| ExternalParsers.TinyMethodRow | src/main/kotlin/dev/fastmc/remapper/mapping/ExternalMappingParser.kt:38-49 | a method row is read by position: its first column becomes the method's nameFrom and its second the desc |
| ExternalParsers.TinyIgnoresOther | src/main/kotlin/dev/fastmc/remapper/mapping/ExternalMappingParser.kt:50-52 | a member line whose second character is neither 'f' nor 'm' is ignored |
| ExternalParsers.TinyMemberFirstFails | src/main/kotlin/dev/fastmc/remapper/mapping/ExternalMappingParser.kt:30-40 | a member row before any class row throws on `lastClassEntry!!` |
| ExternalParsers.Threshold | src/main/kotlin/dev/fastmc/remapper/mapping/ExternalMappingParser.kt:65 | a first line of four or more space-separated columns makes method rows four columns long, else three |
| ExternalParsers.TsrgStep | src/main/kotlin/dev/fastmc/remapper/mapping/ExternalMappingParser.kt:67-105 | a TSRG line that is read marks the header as skipped |
| ExternalParsers.TsrgStart | src/main/kotlin/dev/fastmc/remapper/mapping/ExternalMappingParser.kt:64 | the header is read as a row unless it starts with "tsrg2" |
| ExternalParsers.ParseTsrg | src/main/kotlin/dev/fastmc/remapper/mapping/ExternalMappingParser.kt:61-108 | the line loop of `TSRG.parse` computes the fold of the line step over the lines |
| ExternalParsers.TsrgHeader | src/main/kotlin/dev/fastmc/remapper/mapping/ExternalMappingParser.kt:64-71 | a "tsrg2" header is skipped, any other first line is read as a row |
| ExternalParsers.TsrgNamespaces | src/main/kotlin/dev/fastmc/remapper/mapping/ExternalMappingParser.kt:65 | a "tsrg2" header naming three namespaces makes method rows four columns long, one naming two three |
| ExternalParsers.TsrgMemberRow | src/main/kotlin/dev/fastmc/remapper/mapping/ExternalMappingParser.kt:82-103 | a member row is a method exactly when it has at least the threshold of columns, and a field otherwise |
| ExternalParsers.TsrgIgnoresNested | src/main/kotlin/dev/fastmc/remapper/mapping/ExternalMappingParser.kt:82 | a row led by two tabs changes nothing |
| ExternalParsers.TsrgMemberFirstFails | src/main/kotlin/dev/fastmc/remapper/mapping/ExternalMappingParser.kt:85-95 | a member row before any class row throws on `lastClassEntry!!` |
| ExternalParsers.ClassRowGrows | src/main/kotlin/dev/fastmc/remapper/mapping/ExternalMappingParser.kt:76-81 | the size assertion after a class row holds exactly when the class is new |
| ExternalParsers.MemberRowGrows | src/main/kotlin/dev/fastmc/remapper/mapping/ExternalMappingParser.kt:30-102 | the size assertions after member rows hold exactly when the member's fingerprint is new to its class |
| Hex.HexValue | src/main/kotlin/dev/fastmc/jartools/util/HexUtils.kt:49-57 | the value table gives a digit value below 16 for every character code |
| Hex.HexValueOfChar | src/main/kotlin/dev/fastmc/jartools/util/HexUtils.kt:3-57 | the value table reads every digit of `hexChars` as its own position |
| Hex.HexCharCode | src/main/kotlin/dev/fastmc/jartools/util/HexUtils.kt:3 | `hexChars` holds `0`-`9` then `A`-`F` |
| Hex.HexDigits | src/main/kotlin/dev/fastmc/jartools/util/HexUtils.kt:5-35 | the printer writes exactly n digits |
| Hex.HexDigitsAt | src/main/kotlin/dev/fastmc/jartools/util/HexUtils.kt:5-35 | digit i of n is nibble n-1-i of the value |
| Hex.HexRoundTrip | src/main/kotlin/dev/fastmc/jartools/util/HexUtils.kt:5-91 | reading n printed digits back gives the value modulo 16^n |
| Hex.IntDigit | src/main/kotlin/dev/fastmc/jartools/util/HexUtils.kt:6-13 | digit i of `appendHexInt` is `(value ushr (28 - 4i)) and 0xF` |
| Hex.LongDigit | src/main/kotlin/dev/fastmc/jartools/util/HexUtils.kt:18-33 | digit i of `appendHexLong` is `(value ushr (60 - 4i)).toInt() and 0xF` |
| Hex.AppendHexInt | src/main/kotlin/dev/fastmc/jartools/util/HexUtils.kt:5-15 | `appendHexInt` appends the eight hex digits of the value, most significant first |
| Hex.AppendHexLong | src/main/kotlin/dev/fastmc/jartools/util/HexUtils.kt:17-35 | `appendHexLong` appends the sixteen hex digits of the value, most significant first |
| Hex.IntToHexString | src/main/kotlin/dev/fastmc/jartools/util/HexUtils.kt:37-41 | `Int.toHexString` is the eight digits |
| Hex.LongToHexString | src/main/kotlin/dev/fastmc/jartools/util/HexUtils.kt:43-47 | `Long.toHexString` is the sixteen digits |
| Hex.ChainOr | src/main/kotlin/dev/fastmc/jartools/util/HexUtils.kt:61-68 | OR-ing a digit shifted below the digits already placed is adding it |
| Hex.IntChainStep | src/main/kotlin/dev/fastmc/jartools/util/HexUtils.kt:61-68 | one `value or (digit shl m)` step of the 32-bit reader adds the digit at its place |
| Hex.IntChainValue | src/main/kotlin/dev/fastmc/jartools/util/HexUtils.kt:59-70 | the first j steps of `toHexInt` hold the first j digits as a number, shifted up |
| Hex.LongChainStep | src/main/kotlin/dev/fastmc/jartools/util/HexUtils.kt:74-89 | one `value or (digit shl m)` step of the 64-bit reader adds the digit at its place |
| Hex.LongChainValue | src/main/kotlin/dev/fastmc/jartools/util/HexUtils.kt:72-91 | the first j steps of `toHexLong` hold the first j digits as a number, shifted up |
| Hex.ToHexIntValue | src/main/kotlin/dev/fastmc/jartools/util/HexUtils.kt:59-70 | `String.toHexInt` reads the eight characters at index as a hexadecimal number |
| Hex.ToHexLongValue | src/main/kotlin/dev/fastmc/jartools/util/HexUtils.kt:72-91 | `String.toHexLong` reads the sixteen characters at index as a hexadecimal number |
| Hex.IntHexRoundTrip | src/main/kotlin/dev/fastmc/jartools/util/HexUtils.kt:37-70 | `toHexString().toHexInt()` gives the value back |
| Hex.LongHexRoundTrip | src/main/kotlin/dev/fastmc/jartools/util/HexUtils.kt:43-91 | `toHexString().toHexLong()` gives the value back |
| Hex.LowerCaseDigits | src/main/kotlin/dev/fastmc/jartools/util/HexUtils.kt:55 | lower-case `a`-`f` read like upper-case ones |
| HexBytes.Unsigned | src/main/kotlin/dev/fastmc/jartools/util/HexUtils.kt:123-124 | a byte read as unsigned is below 256, and a non-negative byte is itself |
| HexBytes.IntSmearsAt | src/main/kotlin/dev/fastmc/jartools/util/HexUtils.kt:93-100 | as written, zero bytes then a byte -1 read as all ones rather than 255 |
| HexBytes.LongSmearsAt | src/main/kotlin/dev/fastmc/jartools/util/HexUtils.kt:102-113 | as written, zero bytes then a byte -1 read as all ones rather than 255 |
| HexBytes.BytesToHexIntSmears | src/main/kotlin/dev/fastmc/jartools/util/HexUtils.kt:93-100 | as written, the bytes 00 00 00 FF read as 0xFFFFFFFF, while their big-endian value is 255 |
| HexBytes.BytesToHexLongSmears | src/main/kotlin/dev/fastmc/jartools/util/HexUtils.kt:102-113 | as written, the bytes 00 .. 00 FF read as 0xFFFFFFFFFFFFFFFF, while their big-endian value is 255 |
| HexBytes.NonNegativeByte | src/main/kotlin/dev/fastmc/jartools/util/HexUtils.kt:95-111 | a byte without its sign bit reads the same sign-extended or masked |
| HexBytes.IntPackNonNegative | src/main/kotlin/dev/fastmc/jartools/util/HexUtils.kt:93-100 | without negative bytes the packing as written and the corrected one agree |
| HexBytes.LongPackNonNegative | src/main/kotlin/dev/fastmc/jartools/util/HexUtils.kt:102-113 | without negative bytes the packing as written and the corrected one agree |
| HexBytes.BytesToHexIntNonNegative | src/main/kotlin/dev/fastmc/jartools/util/HexUtils.kt:93-100 | as written, `ByteArray.toHexInt` is the big-endian value when no byte is negative |
| HexBytes.BytesToHexLongNonNegative | src/main/kotlin/dev/fastmc/jartools/util/HexUtils.kt:102-113 | as written, `ByteArray.toHexLong` is the big-endian value when no byte is negative |
| HexBytes.IntPackStep | src/main/kotlin/dev/fastmc/jartools/util/HexUtils.kt:95-98 | one corrected `value or (byte shl m)` step adds the unsigned byte at its place |
| HexBytes.LongPackStep | src/main/kotlin/dev/fastmc/jartools/util/HexUtils.kt:104-111 | one corrected `value or (byte shl m)` step adds the unsigned byte at its place |
| HexBytes.IntPackValue | src/main/kotlin/dev/fastmc/jartools/util/HexUtils.kt:93-100 | the first j corrected steps hold the first j bytes big-endian, shifted up |
| HexBytes.LongPackValue | src/main/kotlin/dev/fastmc/jartools/util/HexUtils.kt:102-113 | the first j corrected steps hold the first j bytes big-endian, shifted up |
| HexBytes.BytesToIntValue | src/main/kotlin/dev/fastmc/jartools/util/HexUtils.kt:93-100 | corrected, `toHexInt` is the four bytes at index, big-endian |
| HexBytes.BytesToLongValue | src/main/kotlin/dev/fastmc/jartools/util/HexUtils.kt:102-113 | corrected, `toHexLong` is the eight bytes at index, big-endian |
| HexBytes.ByteHex | src/main/kotlin/dev/fastmc/jartools/util/HexUtils.kt:119-127 | two digits per byte |
| HexBytes.ByteNibbles | src/main/kotlin/dev/fastmc/jartools/util/HexUtils.kt:123-124 | the two digits of a sign-extended byte are the two nibbles of its unsigned value |
| HexBytes.AppendByteHex | src/main/kotlin/dev/fastmc/jartools/util/HexUtils.kt:122-124 | the loop body appends the two hex digits of the unsigned byte |
| HexBytes.BytesToHexString | src/main/kotlin/dev/fastmc/jartools/util/HexUtils.kt:119-127 | a negative capacity throws, a byte outside the array throws, a non-positive length gives "", and otherwise two digits per byte of the run |
| HexBytes.AllBytesToHexString | src/main/kotlin/dev/fastmc/jartools/util/HexUtils.kt:115-117 | the whole array as two digits per byte; an array of 2^30 bytes or more makes the capacity overflow and throw |
| JartoolsParsers.TinyStep | src/main/kotlin/dev/fastmc/jartools/mapping/ExternalMappingParser.kt:12-38 | after any line of the older `TINY.parse` the header counts as skipped |
| JartoolsParsers.ParseTiny | src/main/kotlin/dev/fastmc/jartools/mapping/ExternalMappingParser.kt:7-41 | the loop over the lines computes the line-by-line `TINY.parse` |
| JartoolsParsers.Tsrg2Step | src/main/kotlin/dev/fastmc/jartools/mapping/ExternalMappingParser.kt:49-67 | after any line of the older `TSRG2.parse` the header counts as skipped |
| JartoolsParsers.ParseTsrg2 | src/main/kotlin/dev/fastmc/jartools/mapping/ExternalMappingParser.kt:44-70 | the loop over the lines computes the line-by-line `TSRG2.parse` |
| JartoolsParsers.Tsrg2MappingProvider.constructor | src/main/kotlin/dev/fastmc/jartools/mapping/MappingProvider.kt:164-167 | a provider over a `.tsrg` file starts with no parse kept |
| JartoolsParsers.Tsrg2MappingProvider.Get | src/main/kotlin/dev/fastmc/jartools/mapping/MappingProvider.kt:169-178 | `get` answers the parse of the file, keeping it once it succeeded, so a later call answers the same |
| JartoolsParsers.NewTsrg2MappingProvider | src/main/kotlin/dev/fastmc/jartools/mapping/MappingProvider.kt:165-167 | a file whose extension is not `tsrg` is refused with `Invalid file <path>`; any other gives a provider over that file |
| JartoolsParsers.TinyMethodColumns | src/main/kotlin/dev/fastmc/jartools/mapping/ExternalMappingParser.kt:29-32 | a Tiny v2 method row: the older parser takes the method name from the second column and the desc from the first, the current parser the other way round |
| JartoolsParsers.OldTinyMethodStep | src/main/kotlin/dev/fastmc/jartools/mapping/ExternalMappingParser.kt:29-32 | a method row adds `Method(split[1], split[0], split[2])` to the latest class |
| JartoolsParsers.TinyEmptyClassTarget | src/main/kotlin/dev/fastmc/jartools/mapping/ExternalMappingParser.kt:20-22 | a class row with an empty target name keeps it empty in the older parser, while the current parser falls back to nameFrom |
| JartoolsParsers.ClassSteps | src/main/kotlin/dev/fastmc/jartools/mapping/ExternalMappingParser.kt:20-22 | a class row opens `getOrCreate(split[0], split[1])` in the older parser, with an empty target replaced by nameFrom in the current one |
| JartoolsParsers.Tsrg2FourColumns | src/main/kotlin/dev/fastmc/jartools/mapping/ExternalMappingParser.kt:59-65 | a member row of four columns is read as a field by the older parser and as a method by the current one |
| OldMappings.MethodHash | src/main/kotlin/dev/fastmc/jartools/remap/Mapping.kt:239-243 | `Method.hash` is `31 * hash(nameFrom) + hash(desc)` in 32-bit arithmetic |
| OldMappings.NewField | src/main/kotlin/dev/fastmc/jartools/remap/Mapping.kt:175-189 | a field built without a hash keeps its names and reports `nameFrom.hashCode()` |
| OldMappings.NewMethod | src/main/kotlin/dev/fastmc/jartools/remap/Mapping.kt:203-225 | a method built without a hash keeps its name, desc and target and reports `Method.hash(nameFrom, desc)` |
| OldMappings.NewClass | src/main/kotlin/dev/fastmc/jartools/remap/Mapping.kt:277-299 | a class built with a hash has empty member tables and reports that hash |
| OldMappings.NewClassTwoArgAsWritten | src/main/kotlin/dev/fastmc/jartools/remap/Mapping.kt:272-298 | as written, the two-argument class constructor passes its not-yet-computed cache, 0, as the hash, so the class reports hash 0 |
| OldMappings.NewClassTwoArg | src/main/kotlin/dev/fastmc/jartools/remap/Mapping.kt:272-308 | corrected, the two-argument class reports `Class.hash(nameFrom)` |
| OldMappings.TwoArgClassHashZero | src/main/kotlin/dev/fastmc/jartools/remap/Mapping.kt:272-289 | the class "a" built with two arguments reports hash 0 while lookups for "a" probe from hash 97, so the table is no longer hashed by name; the corrected class keeps it hashed |
| OldMappings.AddClassKeeps | src/main/kotlin/dev/fastmc/jartools/remap/Mapping.kt:113-131 | adding an empty class hashed by its own name keeps a mapping keyed and hashed |
| OldMappings.EqualsAgreesWithHash | src/main/kotlin/dev/fastmc/jartools/remap/Mapping.kt:178-225 | entries equal by `equals` whose hash was computed have equal hashes, and nameTo plays no part in equality |
| OldMappings.MethodCompareOrder | src/main/kotlin/dev/fastmc/jartools/remap/Mapping.kt:145-232 | methods are ordered by (nameFrom, nameTo, desc), antisymmetrically, and compare equal only on equal triples |
| OldMappings.FieldCompareOrder | src/main/kotlin/dev/fastmc/jartools/remap/Mapping.kt:145-149 | two fields compare equal exactly when both names agree, and the order is antisymmetric |
| OldMappings.GetField | src/main/kotlin/dev/fastmc/jartools/remap/Mapping.kt:59-61 | `get(nameFrom)` finds a field exactly when one of that name is stored |
| OldMappings.GetMethod | src/main/kotlin/dev/fastmc/jartools/remap/Mapping.kt:71-78 | `get(nameFrom, desc)` finds a method exactly when one of that name and desc is stored |
| OldMappings.GetClass | src/main/kotlin/dev/fastmc/jartools/remap/Mapping.kt:96-98 | `get(nameFrom)` finds a class exactly when one of that name is stored |
| OldMappings.LookupsMatchName | src/main/kotlin/dev/fastmc/jartools/remap/Mapping.kt:59-98 | in a keyed mapping every lookup answers with an entry of the queried name, and desc |
| OldMappings.PutField | src/main/kotlin/dev/fastmc/jartools/remap/Mapping.kt:38-40 | adding a field replaces an equal one and leaves the methods and the class's names alone |
| OldMappings.PutMethod | src/main/kotlin/dev/fastmc/jartools/remap/Mapping.kt:38-40 | adding a method replaces an equal one and leaves the fields and the class's names alone |
| OldMappings.PutKeepsKeyed | src/main/kotlin/dev/fastmc/jartools/remap/Mapping.kt:38-40 | member adds keep a class keyed, leave every other member where it was, and are found again |
| OldMappings.GetOrCreate | src/main/kotlin/dev/fastmc/jartools/remap/Mapping.kt:113-131 | `getOrCreate` returns the class stored under the name, else adds a new empty class hashed by `Class.hash(nameFrom)` |
| OldMappings.GetOrCreateTwice | src/main/kotlin/dev/fastmc/jartools/remap/Mapping.kt:123-131 | repeating `getOrCreate` leaves the mapping as the first call left it, grown by at most one class, a new one carrying the requested nameTo |
| OldMappings.GetOrCreateKeeps | src/main/kotlin/dev/fastmc/jartools/remap/Mapping.kt:113-131 | `getOrCreate` keeps a mapping keyed and hashed |
| OldMappings.AddField | src/main/kotlin/dev/fastmc/jartools/remap/Mapping.kt:38-40 | a field add changes only the class stored under the name |
| OldMappings.AddMethod | src/main/kotlin/dev/fastmc/jartools/remap/Mapping.kt:38-40 | a method add changes only the class stored under the name |
| OldMappings.AddAll | src/main/kotlin/dev/fastmc/jartools/remap/Mapping.kt:46-49 | `addAll` of another class table holds both key sets, every class of the other replacing the one stored under its name |
| OldMappings.AddAllKeeps | src/main/kotlin/dev/fastmc/jartools/remap/Mapping.kt:46-49 | merging keyed, hashed mappings gives a keyed, hashed mapping, and merging the same table again changes nothing |
| OldMappingTables.FieldGet | src/main/kotlin/dev/fastmc/jartools/remap/Mapping.kt:59-61 | the field lookup on the hash table finds the stored field of that name |
| OldMappingTables.FieldGetNameTo | src/main/kotlin/dev/fastmc/jartools/remap/Mapping.kt:63-66 | `getNameTo` answers exactly when a field of that name is stored |
| OldMappingTables.MethodGet | src/main/kotlin/dev/fastmc/jartools/remap/Mapping.kt:71-78 | the method lookup on the hash table finds the stored method of that name and desc |
| OldMappingTables.MethodGetNameTo | src/main/kotlin/dev/fastmc/jartools/remap/Mapping.kt:80-82 | `getNameTo` answers exactly when a method of that name and desc is stored |
| OldMappingTables.ClassGet | src/main/kotlin/dev/fastmc/jartools/remap/Mapping.kt:96-98 | the class lookup on the hash table finds the stored class of that name |
| OldMappingTables.ClassGetNameTo | src/main/kotlin/dev/fastmc/jartools/remap/Mapping.kt:100-103 | `getNameTo` answers exactly when a class of that name is stored |
| OldMappingTables.GetOrCreateIn | src/main/kotlin/dev/fastmc/jartools/remap/Mapping.kt:123-131 | `getOrCreate` on the hash table computes the value-level `getOrCreate` and returns the stored class |
| OldMappingTables.AddFieldIn | src/main/kotlin/dev/fastmc/jartools/remap/Mapping.kt:38-40 | a field add on the hash table computes the value-level add |
| OldMappingTables.AddMethodIn | src/main/kotlin/dev/fastmc/jartools/remap/Mapping.kt:38-40 | a method add on the hash table computes the value-level add |
| OldMappingTables.AddAllIn | src/main/kotlin/dev/fastmc/jartools/remap/Mapping.kt:46-49 | `addAll` on the hash table computes the value-level merge |
| OldProviders.Filled | src/main/kotlin/dev/fastmc/jartools/remap/MappingProvider.kt:48-57 | opening the receiver and adding members to it adds exactly the receiver's name to the class table |
| OldProviders.Give | src/main/kotlin/dev/fastmc/jartools/remap/MappingProvider.kt:45-59 | the lazy receiver never drops a class |
| OldProviders.MethodsFor | src/main/kotlin/dev/fastmc/jartools/remap/MappingProvider.kt:46-97 | every method of the source is handed over, under its own key |
| OldProviders.FieldsFor | src/main/kotlin/dev/fastmc/jartools/remap/MappingProvider.kt:52-109 | a field is handed over exactly when the rule keeps it: not redeclared by the subclass, or redeclared with `@Shadow` by the mixin |
| OldProviders.Hand | src/main/kotlin/dev/fastmc/jartools/remap/MappingProvider.kt:44-110 | a hand-over never drops a class |
| OldProviders.HandRule | src/main/kotlin/dev/fastmc/jartools/remap/MappingProvider.kt:44-110 | the receiver is created, as `name -> name`, only when it gets a member; it then holds every method of the source and every field the rule keeps, each replacing what it held under that key, and keeps its other members and its names; no other class changes |
| OldProviders.HandKeeps | src/main/kotlin/dev/fastmc/jartools/remap/MappingProvider.kt:50-108 | handing over keeps every class under its name and every member under its key |
| OldProviders.HandHashed | src/main/kotlin/dev/fastmc/jartools/remap/MappingProvider.kt:50-108 | handing over keeps every entry hashed by its key: the subclass provider builds entries afresh, the mixin provider copies hashed ones |
| OldProviders.HandMembers | src/main/kotlin/dev/fastmc/jartools/remap/MappingProvider.kt:45-59 | the two member loops with the lazily opened receiver compute the hand-over and keep the mapping keyed |
| OldProviders.HandMethods | src/main/kotlin/dev/fastmc/jartools/remap/MappingProvider.kt:45-51 | the method loop opens the receiver exactly when there is a method and hands over every method |
| OldProviders.MethodStep | src/main/kotlin/dev/fastmc/jartools/remap/MappingProvider.kt:46-51 | one turn of the method loop hands over one more method of the walk |
| OldProviders.HandMethod | src/main/kotlin/dev/fastmc/jartools/remap/MappingProvider.kt:47-50 | one method add opens the receiver on the first member and adds the method |
| OldProviders.HandFields | src/main/kotlin/dev/fastmc/jartools/remap/MappingProvider.kt:52-58 | the field loop hands over the fields the rule keeps, opening the receiver if no method did |
| OldProviders.HandField | src/main/kotlin/dev/fastmc/jartools/remap/MappingProvider.kt:54-57 | one field add opens the receiver when nothing did yet and adds the field |
| OldProviders.FilledNothing | src/main/kotlin/dev/fastmc/jartools/remap/MappingProvider.kt:45-59 | with no member to hand over, opening the receiver is `getOrCreate(name)` |
| OldProviders.FilledAddMethod | src/main/kotlin/dev/fastmc/jartools/remap/MappingProvider.kt:50 | adding a method to the opened receiver is handing over one more method |
| OldProviders.FilledAddField | src/main/kotlin/dev/fastmc/jartools/remap/MappingProvider.kt:57 | adding a field to the opened receiver is handing over one more field |
| OldProviders.PropagateAll | src/main/kotlin/dev/fastmc/jartools/remap/MappingProvider.kt:44-60 | handing a class down to its subclasses never drops a class |
| OldProviders.SubclassPass | src/main/kotlin/dev/fastmc/jartools/remap/MappingProvider.kt:41-62 | the pass over the subclass infos never drops a class |
| OldProviders.Subclassed | src/main/kotlin/dev/fastmc/jartools/remap/MappingProvider.kt:38-64 | the subclass provider's result holds every class of the previous mapping |
| OldProviders.SubclassGet | src/main/kotlin/dev/fastmc/jartools/remap/MappingProvider.kt:30-66 | without a previous mapping the subclass provider throws with its message; otherwise it returns the subclass pass over a copy of it, keyed |
| OldProviders.HandDownAll | src/main/kotlin/dev/fastmc/jartools/remap/MappingProvider.kt:41-62 | the loop over the infos computes the subclass pass and keeps the mapping keyed |
| OldProviders.HandDown | src/main/kotlin/dev/fastmc/jartools/remap/MappingProvider.kt:42-60 | the loop over one class's subclasses computes its hand-downs and keeps the mapping keyed |
| OldProviders.AdoptAll | src/main/kotlin/dev/fastmc/jartools/remap/MappingProvider.kt:85-112 | adopting the `@Mixin` targets of one mixin never drops a class |
| OldProviders.MixinPass | src/main/kotlin/dev/fastmc/jartools/remap/MappingProvider.kt:80-123 | the pass over the mixin classes never drops a class |
| OldProviders.Mixed | src/main/kotlin/dev/fastmc/jartools/remap/MappingProvider.kt:76-125 | the mixin provider's result holds every class of the previous mapping |
| OldProviders.MixinGet | src/main/kotlin/dev/fastmc/jartools/remap/MappingProvider.kt:70-127 | without a previous mapping the mixin provider throws with its message; otherwise it returns the mixin pass over a copy of it, keyed |
| OldProviders.VisitMixins | src/main/kotlin/dev/fastmc/jartools/remap/MappingProvider.kt:80-123 | the loop over the mixin classes computes the mixin pass and keeps the mapping keyed |
| OldProviders.VisitMixin | src/main/kotlin/dev/fastmc/jartools/remap/MappingProvider.kt:81-122 | the visit of one mixin's `@Mixin` arrays adopts its targets in order and keeps the mapping keyed |
| OldProviders.TsrgStep | src/main/kotlin/dev/fastmc/jartools/remap/MappingProvider.kt:173-191 | after any line the header counts as skipped |
| OldProviders.TsrgFieldMember | src/main/kotlin/dev/fastmc/jartools/remap/MappingProvider.kt:185-190 | a member row of two or more columns other than three is a field of the latest class |
| OldProviders.TsrgTabLine | src/main/kotlin/dev/fastmc/jartools/remap/MappingProvider.kt:179-185 | a tab-led line is read as a member row split at spaces |
| OldProviders.ParseTsrg | src/main/kotlin/dev/fastmc/jartools/remap/MappingProvider.kt:169-194 | the loop over the lines computes the line-by-line parse |
| OldProviders.TsrgMappingProvider.constructor | src/main/kotlin/dev/fastmc/jartools/remap/MappingProvider.kt:164-167 | a provider over a `.tsrg` file starts with no parse kept |
| OldProviders.TsrgMappingProvider.Get | src/main/kotlin/dev/fastmc/jartools/remap/MappingProvider.kt:169-201 | `get` ignores the previous mapping and answers the parse of the file, keeping it once it succeeded |
| OldProviders.NewTsrgMappingProvider | src/main/kotlin/dev/fastmc/jartools/remap/MappingProvider.kt:165-167 | a file whose extension is not `tsrg` is refused with `Invalid file <path>`; any other gives a provider over that file |
| OldProviders.TsrgSkipsHeader | src/main/kotlin/dev/fastmc/jartools/remap/MappingProvider.kt:174-177 | the first line is skipped whatever it holds |
| OldProviders.TsrgClassRow | src/main/kotlin/dev/fastmc/jartools/remap/MappingProvider.kt:179-182 | a class row `a b` reuses the class `a` when present and otherwise creates `a -> a`; the target `b` is discarded and `a` becomes the latest class |
| OldProviders.TsrgMethodRow | src/main/kotlin/dev/fastmc/jartools/remap/MappingProvider.kt:185-187 | a tab-led row of three columns is a method of the latest class, replacing an equal one |
| OldProviders.TsrgFieldRow | src/main/kotlin/dev/fastmc/jartools/remap/MappingProvider.kt:188-189 | a tab-led row of two columns is a field of the latest class |
| OldProviders.TsrgFourColumnsField | src/main/kotlin/dev/fastmc/jartools/remap/MappingProvider.kt:186-189 | a tab-led row of four columns is a field too: only exactly three columns make a method |
| OldProviders.TsrgMemberFirstFails | src/main/kotlin/dev/fastmc/jartools/remap/MappingProvider.kt:172-189 | a member row before any class row throws on the null `lastClassEntry` |
| OldProviders.TsrgStepKeyed | src/main/kotlin/dev/fastmc/jartools/remap/MappingProvider.kt:179-190 | every line keeps classes under their names and members under their keys |
| OldProviders.TsrgKeyed | src/main/kotlin/dev/fastmc/jartools/remap/MappingProvider.kt:169-194 | a parse that succeeds is keyed |
| OldProviders.RunStage | src/main/kotlin/dev/fastmc/jartools/remap/MappingProvider.kt:148 | one stage answers its provider's result for the mapping it is handed, keyed |
| OldProviders.Chain | src/main/kotlin/dev/fastmc/jartools/remap/MappingProvider.kt:146-151 | a run of the stages that succeeds has one result per stage |
| OldProviders.ChainStops | src/main/kotlin/dev/fastmc/jartools/remap/MappingProvider.kt:146-156 | once a stage throws, the whole run throws that exception |
| OldProviders.SequenceMappingProvider.constructor | src/main/kotlin/dev/fastmc/jartools/remap/MappingProvider.kt:130-135 | a sequence starts with its stages and no result kept |
| OldProviders.SequenceMappingProvider.Get | src/main/kotlin/dev/fastmc/jartools/remap/MappingProvider.kt:137-161 | a kept result is answered again; otherwise the stages run in a chain and their results are merged in order, and a success is kept |
| OldProviders.RunChain | src/main/kotlin/dev/fastmc/jartools/remap/MappingProvider.kt:144-151 | the loop over the stages computes the chain |
| OldProviders.ChainStep | src/main/kotlin/dev/fastmc/jartools/remap/MappingProvider.kt:147-150 | one turn of the loop runs the next stage on the result before it |
| OldProviders.Merge | src/main/kotlin/dev/fastmc/jartools/remap/MappingProvider.kt:153-156 | the merge loop adds every stage's mapping in order |
| OldProviders.NewSequenceMappingProvider | src/main/kotlin/dev/fastmc/jartools/remap/MappingProvider.kt:131-133 | a sequence without providers is refused with `No providers provided` |
| OldProviders.MergeKeys | src/main/kotlin/dev/fastmc/jartools/remap/MappingProvider.kt:153-156 | the merge holds exactly the classes some stage's result holds |
| OldProviders.MergeLastWins | src/main/kotlin/dev/fastmc/jartools/remap/MappingProvider.kt:153-156 | a class that the results holding it share as one object (every stage after the first of them builds on the result before it) is merged in the state the last of them left it |
| OldProviders.DerivedSequence | src/main/kotlin/dev/fastmc/jartools/remap/MappingProvider.kt:137-161 | a sequence whose later stages are subclass or mixin providers returns its last stage's mapping |
| OldProviders.ChainGrows | src/main/kotlin/dev/fastmc/jartools/remap/MappingProvider.kt:38-78 | a subclass or mixin stage holds every class of the result before it |
| OldRefmaps.EntryOwner | src/main/kotlin/dev/fastmc/jartools/pipeline/GenerateRefmapStage.kt:154-166 | a method reference's entry starts with the target class's nameTo and `;` |
| OldRefmaps.MethodRefParts | src/main/kotlin/dev/fastmc/jartools/pipeline/GenerateRefmapStage.kt:148-151 | a reference `name(desc)` that matches the pattern has a non-empty name and descriptor |
| OldRefmaps.FirstPrefixed | src/main/kotlin/dev/fastmc/jartools/pipeline/GenerateRefmapStage.kt:159-161 | `find` answers exactly when some entry's name starts with the reference, and gives the first such entry |
| OldRefmaps.MethodRefStep | src/main/kotlin/dev/fastmc/jartools/pipeline/GenerateRefmapStage.kt:147-168 | a `name(desc)` reference is always recorded; a wildcard throws; a bare name is recorded exactly when an entry's name starts with it; the entry starts with the class's nameTo and only that key changes |
| OldRefmaps.CurrentStageAddsL | src/main/kotlin/dev/fastmc/jartools/pipeline/GenerateRefmapStage.kt:148-154 | a mapped `name(desc)` reference records `<classTo>;<nameTo><descTo>`, where the current stage records the same text after an `L` |
| OldRefmaps.UnmappedShowsNull | src/main/kotlin/dev/fastmc/jartools/pipeline/GenerateRefmapStage.kt:152-154 | a `name(desc)` reference the class does not map is recorded with `null` as its name |
| OldRefmaps.PrefixBeatsExactName | src/main/kotlin/dev/fastmc/jartools/pipeline/GenerateRefmapStage.kt:159-161 | a bare name `foo` takes an entry `foobar` met first, where the current stage takes the entry named exactly `foo` |
| OldRefmaps.MatchOwnerWithSemicolon | src/main/kotlin/dev/fastmc/jartools/pipeline/GenerateRefmapStage.kt:287 | `L(.+;)(.+)(\(.*\).+)` matches exactly the references the current full pattern matches, with the `;` kept in the owner group |
| OldRefmaps.AtTargetStep | src/main/kotlin/dev/fastmc/jartools/pipeline/GenerateRefmapStage.kt:185-198 | an `@At` target is recorded when it is a full method reference and passed over otherwise; it never throws, and only that key changes |
| OldRefmaps.SemicolonOwnerMissed | src/main/kotlin/dev/fastmc/jartools/pipeline/GenerateRefmapStage.kt:188-197 | the owner is looked up with its `;`; when that misses, the target is recorded as `<owner>;;null<descTo>` |
| OldRefmaps.AtTargetsNeverThrow | src/main/kotlin/dev/fastmc/jartools/pipeline/GenerateRefmapStage.kt:184-200 | the `@At` targets never throw and only add entries |
| OldRefmaps.AtAnnotations | src/main/kotlin/dev/fastmc/jartools/pipeline/GenerateRefmapStage.kt:172-175 | `visitArray("at")` filtered to `@At` yields only `@At` annotations |
| OldRefmaps.AtStep | src/main/kotlin/dev/fastmc/jartools/pipeline/GenerateRefmapStage.kt:176-202 | one `@At` never throws and only adds entries; with `remap = false` it adds none |
| OldRefmaps.AtsNeverThrow | src/main/kotlin/dev/fastmc/jartools/pipeline/GenerateRefmapStage.kt:172-204 | the `@At` annotations of a handler never throw |
| OldRefmaps.HandlerStep | src/main/kotlin/dev/fastmc/jartools/pipeline/GenerateRefmapStage.kt:128-206 | a method without an injector annotation changes nothing; with `remap = false` on its injector it cannot throw |
| OldRefmaps.Stripped | src/main/kotlin/dev/fastmc/jartools/pipeline/GenerateRefmapStage.kt:231-237 | the invoker name is what follows the first prefix the handler's name starts with, not lower-cased, and there is none when no prefix fits |
| OldRefmaps.DerivedLowersStripped | src/main/kotlin/dev/fastmc/jartools/pipeline/GenerateRefmapStage.kt:231-237 | the current stage's derived name is the earlier stage's with its first letter lowered |
| OldRefmaps.AsWrittenNameValue | src/main/kotlin/dev/fastmc/jartools/pipeline/GenerateRefmapStage.kt:223-229 | as written, the walk over `annotation.values` throws on an annotation without elements and otherwise reads its `value` |
| OldRefmaps.InvokerEntry | src/main/kotlin/dev/fastmc/jartools/pipeline/GenerateRefmapStage.kt:230-247 | an invoker records only under the handler's own name, or is passed over |
| OldRefmaps.InvokerStep | src/main/kotlin/dev/fastmc/jartools/pipeline/GenerateRefmapStage.kt:215-221 | corrected: a method without `@Invoker` changes nothing, and an `@Invoker` without elements reads as having no `value` instead of throwing |
| OldRefmaps.AccessorEntry | src/main/kotlin/dev/fastmc/jartools/pipeline/GenerateRefmapStage.kt:265-280 | an accessor records only under the annotated field's name, or is passed over |
| OldRefmaps.AccessorStep | src/main/kotlin/dev/fastmc/jartools/pipeline/GenerateRefmapStage.kt:250-256 | corrected: a field without `@Accessor` changes nothing, and an `@Accessor` without elements reads as having no `value` instead of throwing |
| OldRefmaps.ElementlessAnnotationThrows | src/main/kotlin/dev/fastmc/jartools/pipeline/GenerateRefmapStage.kt:223-258 | as written, an `@Invoker` or `@Accessor` without elements throws before its name is derived |
| OldRefmaps.ElementlessInvokerDerived | src/main/kotlin/dev/fastmc/jartools/pipeline/GenerateRefmapStage.kt:230-247 | read as having no `value`, an element-less `@Invoker` on `invoke<rest>` records the mapped method `<rest>` |
| OldRefmaps.ElementlessAccessorDerived | src/main/kotlin/dev/fastmc/jartools/pipeline/GenerateRefmapStage.kt:265-280 | read as having no `value`, an element-less `@Accessor` on `get<Rest>` records the mapped field `<rest>` |
| OldRefmaps.TargetStep | src/main/kotlin/dev/fastmc/jartools/pipeline/GenerateRefmapStage.kt:55-61 | a target class the mapping does not hold throws; a mixin with no members adds nothing |
| OldRefmaps.ClassName | src/main/kotlin/dev/fastmc/jartools/pipeline/GenerateRefmapStage.kt:51 | `Type.getClassName` writes each `/` of the internal name as `.` and keeps every other character |
| OldRefmaps.ClassNames | src/main/kotlin/dev/fastmc/jartools/pipeline/GenerateRefmapStage.kt:51 | the value types map one by one to their class names |
| OldRefmaps.AsWrittenTargetClasses | src/main/kotlin/dev/fastmc/jartools/pipeline/GenerateRefmapStage.kt:50-52 | the target list is the value types by dotted class name, then the `targets` strings |
| OldRefmaps.MixinRefmap | src/main/kotlin/dev/fastmc/jartools/pipeline/GenerateRefmapStage.kt:37-61 | `remap = false` gives an empty refmap; a target class the mapping does not hold throws |
| OldRefmaps.ClassStep | src/main/kotlin/dev/fastmc/jartools/pipeline/GenerateRefmapStage.kt:26-32 | corrected to look `value` targets up by internal name: a class without `@Mixin` changes nothing; a second mixin of the same name throws; otherwise exactly the mixin's name is added and the others stay |
| OldRefmaps.DottedValueTargetThrows | src/main/kotlin/dev/fastmc/jartools/pipeline/GenerateRefmapStage.kt:51-57 | a `value` class looked up under its dotted name that the mapping lacks throws |
| OldRefmaps.InternalNameTargetFound | src/main/kotlin/dev/fastmc/jartools/pipeline/GenerateRefmapStage.kt:56-61 | by internal name, a `@Mixin(B.class)` whose class is mapped is found |
| OldRefmaps.GenerateRefmaps | src/main/kotlin/dev/fastmc/jartools/pipeline/GenerateRefmapStage.kt:18-69 | the class loop of `run` computes the refmaps class by class, over the corrected class, invoker and accessor steps |
| OldRemappers.MapMethodName | src/main/kotlin/dev/fastmc/jartools/remap/Remapping.kt:6-8 | `mapMethodName` answers the method's nameTo when the owner class maps that name and descriptor, and the name it was given otherwise |
| OldRemappers.MapFieldName | src/main/kotlin/dev/fastmc/jartools/remap/Remapping.kt:10-12 | `mapFieldName` answers the field's nameTo when the owner class maps that name, and the name otherwise; the descriptor plays no part |
| OldRemappers.MapType | src/main/kotlin/dev/fastmc/jartools/remap/Remapping.kt:14-16 | `mapType` answers the class's nameTo when the table holds it, and the internal name otherwise |
| OldRemappers.HandedMembersMap | src/main/kotlin/dev/fastmc/jartools/remap/Remapping.kt:6-12 | after a hand-over, the receiver renames every method of the source, and every field the rule keeps, as the source does |
| OldRemappers.HandedOthersUnchanged | src/main/kotlin/dev/fastmc/jartools/remap/Remapping.kt:6-12 | after a hand-over, a member the source does not give answers at the receiver as before |
| OldRemappers.HandedOtherClassesUnchanged | src/main/kotlin/dev/fastmc/jartools/remap/Remapping.kt:6-16 | after a hand-over, every class other than the receiver answers every lookup as before |
| OldRemappers.MixinMapFieldName | src/main/kotlin/dev/fastmc/jartools/MixinRemapper.kt:13-28 | the mixin remapper answers the base answer or the name itself, and the base answer for an owner that is not a mixin |
| OldRemappers.ShadowFieldFollowsTarget | src/main/kotlin/dev/fastmc/jartools/MixinRemapper.kt:13-28 | a `@Shadow` field of a mixin, once the mixin stage handed it the target's field of that name, is renamed as the target's field |
| OldRemappers.OwnFieldKeepsName | src/main/kotlin/dev/fastmc/jartools/MixinRemapper.kt:18-24 | a field the mixin declares first without `@Shadow` keeps its name whatever the mapping says |
| OldCacheFormat.Hex8 | src/main/kotlin/dev/fastmc/jartools/remap/MappingSerialization.kt:103-113 | a hash is printed as eight hex digits |
| OldCacheFormat.CompareAntisymmetries | src/main/kotlin/dev/fastmc/jartools/remap/Mapping.kt:145-232 | swapping the operands of `compareTo` negates the answer for fields, methods and classes |
| OldCacheFormat.PairsList | src/main/kotlin/dev/fastmc/jartools/remap/MappingSerialization.kt:97-99 | however the walked (key, entry) pairs are rearranged, they list the table, each entry under its own key |
| OldCacheFormat.SortedArray | src/main/kotlin/dev/fastmc/jartools/remap/MappingSerialization.kt:97-99 | `sortedArray` lists every entry of the table once, under its own key, and in `compareTo` order when that order is antisymmetric |
| OldCacheFormat.SortedKeys | src/main/kotlin/dev/fastmc/jartools/remap/MappingSerialization.kt:97-99 | sorting the walked pairs by their entries still lists the table by key |
| OldCacheFormat.WriteField | src/main/kotlin/dev/fastmc/jartools/remap/MappingSerialization.kt:70-76 | one field row `\tnameFrom\tnameTo\t<hash>` is appended |
| OldCacheFormat.WriteMethod | src/main/kotlin/dev/fastmc/jartools/remap/MappingSerialization.kt:82-90 | one method row `\tnameFrom\tdesc\tnameTo\t<hash>` is appended |
| OldCacheFormat.WriteFieldRows | src/main/kotlin/dev/fastmc/jartools/remap/MappingSerialization.kt:69-77 | the rows of the given fields are appended in order |
| OldCacheFormat.WriteFields | src/main/kotlin/dev/fastmc/jartools/remap/MappingSerialization.kt:68-78 | the fields of a class are appended as rows, every field once, in `compareTo` order |
| OldCacheFormat.WriteMethodRows | src/main/kotlin/dev/fastmc/jartools/remap/MappingSerialization.kt:81-91 | the rows of the given methods are appended in order |
| OldCacheFormat.WriteMethods | src/main/kotlin/dev/fastmc/jartools/remap/MappingSerialization.kt:80-92 | the methods of a class are appended as rows, every method once, in `compareTo` order |
| OldCacheFormat.WriteClass | src/main/kotlin/dev/fastmc/jartools/remap/MappingSerialization.kt:57-95 | a class block is the class row, then every field sorted, then every method sorted |
| OldCacheFormat.PrintedBlock | src/main/kotlin/dev/fastmc/jartools/remap/MappingSerialization.kt:57-95 | the text appended for a class is the printout of its block of rows |
| OldCacheFormat.Write | src/main/kotlin/dev/fastmc/jartools/remap/MappingSerialization.kt:51-55 | `write` appends one block per class, every class once, in `compareTo` order |
| OldCacheFormat.WriteClasses | src/main/kotlin/dev/fastmc/jartools/remap/MappingSerialization.kt:52-54 | the blocks of the given classes are appended in order |
| OldCacheFormat.ParseClass | src/main/kotlin/dev/fastmc/jartools/remap/MappingSerialization.kt:22-24 | a class row reads as a class with no members exactly when it has three fields and at least eight hash digits |
| OldCacheFormat.WithField | src/main/kotlin/dev/fastmc/jartools/remap/MappingSerialization.kt:37-43 | a field row adds its field to the latest class, which stays the latest |
| OldCacheFormat.WithMethod | src/main/kotlin/dev/fastmc/jartools/remap/MappingSerialization.kt:28-35 | a method row adds its method to the latest class, which stays the latest |
| OldCacheFormat.Step | src/main/kotlin/dev/fastmc/jartools/remap/MappingSerialization.kt:20-46 | each line read keeps the latest class the one stored under its name; a class row repeating a name read before keeps the first class and sends the rows after it nowhere |
| OldCacheFormat.ReadAll | src/main/kotlin/dev/fastmc/jartools/remap/MappingSerialization.kt:20-46 | reading any run of lines keeps the latest class the one stored under its name |
| OldCacheFormat.ReadConcat | src/main/kotlin/dev/fastmc/jartools/remap/MappingSerialization.kt:20-46 | reading two runs of lines is reading the first, then the second from where it stopped, and the first error ends the read |
| OldCacheFormat.ReadFailsAt | src/main/kotlin/dev/fastmc/jartools/remap/MappingSerialization.kt:20-46 | a line that fails after the lines before it were read fails the whole read with its error |
| OldCacheFormat.Read | src/main/kotlin/dev/fastmc/jartools/remap/MappingSerialization.kt:17-49 | the loop over the lines computes the line-by-line reading |
| OldCacheRoundTrip.LowerSameNumber | src/main/kotlin/dev/fastmc/jartools/remap/MappingSerialization.kt:115-123 | lower-case hex digits have the same value as upper-case ones |
| OldCacheRoundTrip.HexCodecRoundTrip | src/main/kotlin/dev/fastmc/jartools/remap/MappingSerialization.kt:103-136 | `toHexInt(appendHex(v)) == v`, also when the digits are lower case |
| OldCacheRoundTrip.SplitClassRow | src/main/kotlin/dev/fastmc/jartools/remap/MappingSerialization.kt:22-66 | a class row splits at its tabs into nameFrom, nameTo and the hash digits |
| OldCacheRoundTrip.SplitFieldRow | src/main/kotlin/dev/fastmc/jartools/remap/MappingSerialization.kt:22-76 | a field row splits into an empty field, nameFrom, nameTo and the hash digits |
| OldCacheRoundTrip.SplitMethodRow | src/main/kotlin/dev/fastmc/jartools/remap/MappingSerialization.kt:22-90 | a method row splits into an empty field, nameFrom, desc, nameTo and the hash digits |
| OldCacheRoundTrip.ReadClassRow | src/main/kotlin/dev/fastmc/jartools/remap/MappingSerialization.kt:23-25 | a class row opens its class with no members; when a class of that name was read already, the table keeps the first class and the member rows that follow are dropped |
| OldCacheRoundTrip.ReadFieldRow | src/main/kotlin/dev/fastmc/jartools/remap/MappingSerialization.kt:36-43 | a field row as written reads back as adding that field to the latest class |
| OldCacheRoundTrip.ReadMethodRow | src/main/kotlin/dev/fastmc/jartools/remap/MappingSerialization.kt:27-35 | a method row as written reads back as adding that method to the latest class |
| OldCacheRoundTrip.PutAllRebuilds | src/main/kotlin/dev/fastmc/jartools/remap/Mapping.kt:38-40 | adding a listing of a keyed table entry by entry to an empty table rebuilds the table |
| OldCacheRoundTrip.KeepAllRebuilds | src/main/kotlin/dev/fastmc/jartools/util/SelfHashMap.kt:236-245 | adding a listing of a keyed table keeping the first of each key rebuilds the table |
| OldCacheRoundTrip.ReadFieldRows | src/main/kotlin/dev/fastmc/jartools/remap/MappingSerialization.kt:20-77 | the field rows of a class read back as adding those fields in order |
| OldCacheRoundTrip.ReadMethodRows | src/main/kotlin/dev/fastmc/jartools/remap/MappingSerialization.kt:20-91 | the method rows of a class read back as adding those methods in order |
| OldCacheRoundTrip.ReadBlock | src/main/kotlin/dev/fastmc/jartools/remap/MappingSerialization.kt:20-95 | a class block read back adds its class, members and all, unless a class of that name was read before |
| OldCacheRoundTrip.ReadBlocks | src/main/kotlin/dev/fastmc/jartools/remap/MappingSerialization.kt:20-55 | the blocks of a printout read back as their classes, the first of each name kept |
| OldCacheRoundTrip.ReadRowsBack | src/main/kotlin/dev/fastmc/jartools/remap/MappingSerialization.kt:17-55 | reading the rows of the printout of a keyed, printable mapping gives the mapping back |
| OldCacheRoundTrip.AllRowsOneLine | src/main/kotlin/dev/fastmc/jartools/remap/MappingSerialization.kt:61-91 | no printed row holds a line feed or a carriage return, so `useLines` sees one line per row |
| OldCacheRoundTrip.SkipsEmptyLine | src/main/kotlin/dev/fastmc/jartools/remap/MappingSerialization.kt:21 | an empty line is skipped wherever it stands |
| OldCacheRoundTrip.MemberRowFirstFails | src/main/kotlin/dev/fastmc/jartools/remap/MappingSerialization.kt:19-37 | a member row before any class row throws on the null `lastClassEntry` |
| OldCacheRoundTrip.ShortHashFails | src/main/kotlin/dev/fastmc/jartools/remap/MappingSerialization.kt:125-136 | a class row with fewer than eight hash digits throws |
| OldCacheRoundTrip.RoundTrip | src/main/kotlin/dev/fastmc/jartools/remap/MappingSerialization.kt:7-55 | `read(write(m))`: the text the writer prints, read line by line as `useLines` does, is `m` again |
| OldCacheRoundTrip.WriteThenRead | src/main/kotlin/dev/fastmc/jartools/remap/MappingSerialization.kt:7-55 | writing a keyed, printable mapping to a fresh buffer and reading its `useLines` lines gives the mapping back |
| LunaMappings.GetMethod | src/main/kotlin/dev/luna5ama/jartools/remap/Mapping.kt:89-91 | `getMethod(name, desc)` finds a method exactly when the name's table holds the descriptor, and answers that method |
| LunaMappings.GetField | src/main/kotlin/dev/luna5ama/jartools/remap/Mapping.kt:97-99 | `getField(name)` finds a field exactly when one of that name is stored, and answers it |
| LunaMappings.GetAfterPutMethod | src/main/kotlin/dev/luna5ama/jartools/remap/Mapping.kt:157-165 | after `addMethod` the new method is found under its name and descriptor, and every other lookup answers as before |
| LunaMappings.GetAfterAddAll | src/main/kotlin/dev/luna5ama/jartools/remap/Mapping.kt:167-179 | after `addAll` a member is found in the other class when it has it, and otherwise where it was |
| LunaMappings.FieldsOntoMerge | src/main/kotlin/dev/luna5ama/jartools/remap/Mapping.kt:152-168 | adding the fields of a list one by one is `putAll` of the table the list stands for |
| LunaMappings.MethodsOntoMerge | src/main/kotlin/dev/luna5ama/jartools/remap/Mapping.kt:157-176 | adding the methods of a list one by one is merging in, name by name, the table the list stands for |
| LunaMappings.PutMethodKeyed | src/main/kotlin/dev/luna5ama/jartools/remap/Mapping.kt:157-165 | `addMethod` keeps every method under its name and descriptor |
| LunaMappings.PutMethodMerge | src/main/kotlin/dev/luna5ama/jartools/remap/Mapping.kt:157-176 | adding a method after a merge is merging with the table it was added to |
| LunaMappings.ReplayConcat | src/main/kotlin/dev/luna5ama/jartools/remap/Mapping.kt:167-179 | appending the other class's lists keeps the lists in step with `addAll`'s tables |
| LunaMappings.ReplayKeyed | src/main/kotlin/dev/luna5ama/jartools/remap/Mapping.kt:147-150 | the tables a list stands for hold every entry under its own key |
| LunaMappings.MutableClassMapping.constructor | src/main/kotlin/dev/luna5ama/jartools/remap/Mapping.kt:135-150 | `MutableClassMapping(name)` is the empty class `name -> name` with empty lists |
| LunaMappings.MutableClassMapping.Copy | src/main/kotlin/dev/luna5ama/jartools/remap/Mapping.kt:141-150 | a class built over given tables lists their entries and holds them |
| LunaMappings.MutableClassMapping.AddField | src/main/kotlin/dev/luna5ama/jartools/remap/Mapping.kt:152-155 | `addField` stores the field under its name, replacing one there, and appends it to the field list; the methods stay |
| LunaMappings.MutableClassMapping.AddMethod | src/main/kotlin/dev/luna5ama/jartools/remap/Mapping.kt:157-165 | `addMethod` creates the name's descriptor table when missing, stores the method under its descriptor and appends it to the method list; the fields stay |
| LunaMappings.MutableClassMapping.AddAll | src/main/kotlin/dev/luna5ama/jartools/remap/Mapping.kt:167-179 | `addAll(other)`: fields by `putAll`, methods name by name, each list extended by the other's, the class's names kept; `other` may be the class itself |
| LunaMappings.MutableClassMapping.ToMutable | src/main/kotlin/dev/luna5ama/jartools/remap/Mapping.kt:105-116 | `toMutable()` gives a fresh class with the same names and entries |
| LunaMappings.ListFields | src/main/kotlin/dev/luna5ama/jartools/remap/Mapping.kt:123-147 | `fieldMappingInternal.values.toMutableList()` lists the field table |
| LunaMappings.ListMethods | src/main/kotlin/dev/luna5ama/jartools/remap/Mapping.kt:124-150 | flattening the descriptor tables lists the method table |
| LunaMappings.ListDescs | src/main/kotlin/dev/luna5ama/jartools/remap/Mapping.kt:126-149 | one name's descriptor table, listed, stands for that name's table |
| LunaMappings.MergeFresh | src/main/kotlin/dev/luna5ama/jartools/remap/Mapping.kt:171-172 | merging in the table of a name not yet present adds that name |
| LunaMappings.GetOrPutEmpty | src/main/kotlin/dev/luna5ama/jartools/remap/Mapping.kt:192-194 | `getOrPutEmpty(name)` leaves a mapping that holds the name unchanged, and otherwise adds `name -> name`, empty, keeping every other class |
| LunaMappings.MergedKeyed | src/main/kotlin/dev/luna5ama/jartools/remap/Mapping.kt:167-179 | `addAll` keeps a class keyed |
| LunaMappings.MergeMappingLookup | src/main/kotlin/dev/luna5ama/jartools/remap/Mapping.kt:185-190 | the merge holds the classes of both mappings, and in each a member of `b`'s class when it has one, else the member of `a`'s; the as-written and corrected merges agree on every member |
| LunaMappings.MergeMappingDropsName | src/main/kotlin/dev/luna5ama/jartools/remap/Mapping.kt:185-194 | as written, a class only `b` holds comes out mapped to its own name, whatever `b` maps it to |
| LunaMappings.MergeMappingLosesRename | src/main/kotlin/dev/luna5ama/jartools/remap/Mapping.kt:185-194 | merging `{a: a -> b}` into an empty mapping gives `a -> a` |
| LunaMappings.MergeKeepsNames | src/main/kotlin/dev/luna5ama/jartools/remap/Mapping.kt:185-194 | corrected, a merged class keeps the names of the class it was merged into, or of `b`'s class when it is new |
| LunaMappings.MergeIntoEmpty | src/main/kotlin/dev/luna5ama/jartools/remap/Mapping.kt:185-190 | corrected, merging into an empty mapping copies the mapping |
| LunaMappings.MergeMappingKeyed | src/main/kotlin/dev/luna5ama/jartools/remap/Mapping.kt:185-194 | both merges keep a mapping keyed |
| LunaMappings.MergeInto | src/main/kotlin/dev/luna5ama/jartools/remap/Mapping.kt:186-188 | the loop over `b` computes the corrected merge |
| LunaMappings.MergeOne | src/main/kotlin/dev/luna5ama/jartools/remap/Mapping.kt:187 | one turn of the loop merges one more class of `b` |
| LunaMappings.MergedCovers | src/main/kotlin/dev/luna5ama/jartools/remap/Mapping.kt:167-179 | `addAll` only adds: the class covers what it was |
| LunaMappings.MergeCovered | src/main/kotlin/dev/luna5ama/jartools/remap/Mapping.kt:185-190 | corrected, merging a mapping into one it covers gives the covering one back |
| LunaMappings.MergeNothing | src/main/kotlin/dev/luna5ama/jartools/remap/Mapping.kt:167-176 | merging an empty method table changes nothing |
| LunaProviders.Filled | src/main/kotlin/dev/luna5ama/jartools/remap/MappingProvider.kt:50-59 | opening the receiver with `getOrPutEmpty` and adding members to it adds exactly the receiver's name to the mapping |
| LunaProviders.Give | src/main/kotlin/dev/luna5ama/jartools/remap/MappingProvider.kt:47-61 | the lazy receiver never drops a class |
| LunaProviders.Hand | src/main/kotlin/dev/luna5ama/jartools/remap/MappingProvider.kt:46-114 | a hand-over never drops a class |
| LunaProviders.HandRule | src/main/kotlin/dev/luna5ama/jartools/remap/MappingProvider.kt:46-114 | the receiver is created, mapped to its own name, only when it gets a member; a method lookup on it then finds the source's method where the source has one and what it held before elsewhere, a field lookup the source's field where the rule keeps it; no other class changes and an existing receiver keeps its names |
| LunaProviders.HandKeeps | src/main/kotlin/dev/luna5ama/jartools/remap/MappingProvider.kt:52-112 | handing over keeps every class under its name and every member under its key |
| LunaProviders.HandCovers | src/main/kotlin/dev/luna5ama/jartools/remap/MappingProvider.kt:46-114 | handing over only adds or replaces members: the result covers the mapping it was handed |
| LunaProviders.FilledNothing | src/main/kotlin/dev/luna5ama/jartools/remap/MappingProvider.kt:47-61 | with no member to hand over, opening the receiver is `getOrPutEmpty(name)` |
| LunaProviders.FilledAddMethod | src/main/kotlin/dev/luna5ama/jartools/remap/MappingProvider.kt:52 | adding a method to the opened receiver is handing over one more method |
| LunaProviders.FilledAddField | src/main/kotlin/dev/luna5ama/jartools/remap/MappingProvider.kt:59 | adding a field to the opened receiver is handing over one more field |
| LunaProviders.HandMembers | src/main/kotlin/dev/luna5ama/jartools/remap/MappingProvider.kt:47-61 | the two loops over the source's member lists, with the lazily opened receiver, compute the hand-over |
| LunaProviders.HandMethods | src/main/kotlin/dev/luna5ama/jartools/remap/MappingProvider.kt:48-53 | the method loop opens the receiver exactly when the list stands for some method, and hands over every method |
| LunaProviders.MethodStep | src/main/kotlin/dev/luna5ama/jartools/remap/MappingProvider.kt:49-52 | one turn of the method loop hands over one more listed method |
| LunaProviders.HandFields | src/main/kotlin/dev/luna5ama/jartools/remap/MappingProvider.kt:54-61 | the field loop hands over the listed fields the rule keeps, opening the receiver if no method did |
| LunaProviders.FieldStep | src/main/kotlin/dev/luna5ama/jartools/remap/MappingProvider.kt:55-60 | one turn of the field loop hands over one more listed field when the rule keeps it |
| LunaProviders.ReplayMethodsEmpty | src/main/kotlin/dev/luna5ama/jartools/remap/Mapping.kt:157-165 | a method list stands for no methods exactly when it is empty |
| LunaProviders.PropagateAll | src/main/kotlin/dev/luna5ama/jartools/remap/MappingProvider.kt:46-62 | handing a class down to its subclasses never drops a class |
| LunaProviders.SubclassPass | src/main/kotlin/dev/luna5ama/jartools/remap/MappingProvider.kt:43-64 | the pass over the subclass infos never drops a class |
| LunaProviders.Subclassed | src/main/kotlin/dev/luna5ama/jartools/remap/MappingProvider.kt:38-66 | the subclass provider's result holds every class of the previous mapping |
| LunaProviders.SubclassGet | src/main/kotlin/dev/luna5ama/jartools/remap/MappingProvider.kt:30-68 | without a previous mapping the subclass provider throws with its message; otherwise it returns the subclass pass over a copy of it, keyed |
| LunaProviders.HandDownAll | src/main/kotlin/dev/luna5ama/jartools/remap/MappingProvider.kt:43-64 | the loop over the infos computes the subclass pass and keeps the mapping keyed |
| LunaProviders.HandDown | src/main/kotlin/dev/luna5ama/jartools/remap/MappingProvider.kt:44-62 | the loop over one class's subclasses computes its hand-downs and keeps the mapping keyed |
| LunaProviders.HandFrom | src/main/kotlin/dev/luna5ama/jartools/remap/MappingProvider.kt:46-61 | one hand-over from a class walked through its member lists computes the hand-over and keeps the mapping keyed |
| LunaProviders.AdoptAll | src/main/kotlin/dev/luna5ama/jartools/remap/MappingProvider.kt:89-116 | adopting the `@Mixin` targets of one mixin never drops a class |
| LunaProviders.MixinPass | src/main/kotlin/dev/luna5ama/jartools/remap/MappingProvider.kt:84-127 | the pass over the mixin classes never drops a class |
| LunaProviders.Mixed | src/main/kotlin/dev/luna5ama/jartools/remap/MappingProvider.kt:78-129 | the mixin provider's result holds every class of the previous mapping |
| LunaProviders.MixinGet | src/main/kotlin/dev/luna5ama/jartools/remap/MappingProvider.kt:72-131 | without a previous mapping the mixin provider throws with its message; otherwise it returns the mixin pass over a copy of it, keyed |
| LunaProviders.VisitMixins | src/main/kotlin/dev/luna5ama/jartools/remap/MappingProvider.kt:84-127 | the loop over the mixin classes computes the mixin pass and keeps the mapping keyed |
| LunaProviders.VisitMixin | src/main/kotlin/dev/luna5ama/jartools/remap/MappingProvider.kt:85-126 | the visit of one mixin's `@Mixin` arrays adopts its targets in order and keeps the mapping keyed |
| LunaProviders.SubclassPassCovers | src/main/kotlin/dev/luna5ama/jartools/remap/MappingProvider.kt:43-64 | the subclass pass covers the mapping it starts from |
| LunaProviders.MixinPassCovers | src/main/kotlin/dev/luna5ama/jartools/remap/MappingProvider.kt:84-127 | the mixin pass covers the mapping it starts from |
| LunaProviders.DerivedCovers | src/main/kotlin/dev/luna5ama/jartools/remap/MappingProvider.kt:38-82 | both derived providers keep every class of the previous mapping with its names and every member key |
| LunaProviders.TsrgStep | src/main/kotlin/dev/luna5ama/jartools/remap/MappingProvider.kt:177-196 | after any line the header counts as skipped |
| LunaProviders.TsrgFieldMember | src/main/kotlin/dev/luna5ama/jartools/remap/MappingProvider.kt:190-195 | a member row of two or more columns other than three is a field of the latest class |
| LunaProviders.TsrgTabLine | src/main/kotlin/dev/luna5ama/jartools/remap/MappingProvider.kt:183-190 | a tab-led line is read as a member row split at spaces |
| LunaProviders.ParseTsrg | src/main/kotlin/dev/luna5ama/jartools/remap/MappingProvider.kt:173-199 | the loop over the lines computes the line-by-line parse |
| LunaProviders.TsrgMappingProvider.constructor | src/main/kotlin/dev/luna5ama/jartools/remap/MappingProvider.kt:168-171 | a provider over a `.tsrg` file starts with no parse kept |
| LunaProviders.TsrgMappingProvider.Get | src/main/kotlin/dev/luna5ama/jartools/remap/MappingProvider.kt:173-206 | `get` ignores the previous mapping and answers the parse of the file, keeping it once it succeeded |
| LunaProviders.NewTsrgMappingProvider | src/main/kotlin/dev/luna5ama/jartools/remap/MappingProvider.kt:169-171 | a file whose extension is not `tsrg` is refused with `Invalid file <path>`; any other gives a provider over that file |
| LunaProviders.TsrgSkipsHeader | src/main/kotlin/dev/luna5ama/jartools/remap/MappingProvider.kt:178-181 | the first line is skipped whatever it holds |
| LunaProviders.TsrgClassRow | src/main/kotlin/dev/luna5ama/jartools/remap/MappingProvider.kt:183-187 | a class row `a b` puts a fresh, empty `a -> a` under `a`, replacing any class there with its members; the target `b` is discarded and `a` becomes the latest class |
| LunaProviders.TsrgMethodRow | src/main/kotlin/dev/luna5ama/jartools/remap/MappingProvider.kt:190-192 | a tab-led row of three columns is a method of the latest class, replacing the one of that name and descriptor |
| LunaProviders.TsrgFieldRow | src/main/kotlin/dev/luna5ama/jartools/remap/MappingProvider.kt:193-194 | a tab-led row of two columns is a field of the latest class |
| LunaProviders.TsrgFourColumnsField | src/main/kotlin/dev/luna5ama/jartools/remap/MappingProvider.kt:191-194 | a tab-led row of four columns is a field too: only exactly three columns make a method |
| LunaProviders.TsrgMemberFirstFails | src/main/kotlin/dev/luna5ama/jartools/remap/MappingProvider.kt:176-194 | a member row before any class row throws on the null `lastClassMapping` |
| LunaProviders.TsrgStepKeyed | src/main/kotlin/dev/luna5ama/jartools/remap/MappingProvider.kt:183-195 | every line keeps classes under their names and members under their keys |
| LunaProviders.TsrgKeyed | src/main/kotlin/dev/luna5ama/jartools/remap/MappingProvider.kt:173-199 | a parse that succeeds is keyed |
| LunaProviders.RunStage | src/main/kotlin/dev/luna5ama/jartools/remap/MappingProvider.kt:152 | one stage answers its provider's result for the mapping it is handed, keyed |
| LunaProviders.Chain | src/main/kotlin/dev/luna5ama/jartools/remap/MappingProvider.kt:150-155 | a run of the stages that succeeds has one result per stage |
| LunaProviders.ChainStops | src/main/kotlin/dev/luna5ama/jartools/remap/MappingProvider.kt:150-160 | once a stage throws, the whole run throws that exception |
| LunaProviders.SequenceMappingProvider.constructor | src/main/kotlin/dev/luna5ama/jartools/remap/MappingProvider.kt:134-139 | a sequence starts with its stages and no result kept |
| LunaProviders.SequenceMappingProvider.Get | src/main/kotlin/dev/luna5ama/jartools/remap/MappingProvider.kt:141-165 | a kept result is answered again; otherwise the stages run in a chain and their results are merged in order by the corrected merge, which keeps class names, and a success is kept |
| LunaProviders.RunChain | src/main/kotlin/dev/luna5ama/jartools/remap/MappingProvider.kt:148-155 | the loop over the stages computes the chain |
| LunaProviders.ChainStep | src/main/kotlin/dev/luna5ama/jartools/remap/MappingProvider.kt:151-154 | one turn of the loop runs the next stage on the result before it |
| LunaProviders.Merge | src/main/kotlin/dev/luna5ama/jartools/remap/MappingProvider.kt:157-160 | the merge loop merges every stage's mapping in order, with the corrected merge that keeps class names |
| LunaProviders.NewSequenceMappingProvider | src/main/kotlin/dev/luna5ama/jartools/remap/MappingProvider.kt:135-137 | a sequence without providers is refused with `No providers provided` |
| LunaProviders.MergeKeys | src/main/kotlin/dev/luna5ama/jartools/remap/MappingProvider.kt:157-160 | the merge holds exactly the classes some stage's result holds |
| LunaProviders.MergeFindsLast | src/main/kotlin/dev/luna5ama/jartools/remap/MappingProvider.kt:157-160 | a merged class finds a method in the last result whose class has it |
| LunaProviders.MergeNamesFirst | src/main/kotlin/dev/luna5ama/jartools/remap/MappingProvider.kt:157-160 | corrected, a merged class keeps the names of the first result that holds it |
| LunaProviders.MergeOfCovering | src/main/kotlin/dev/luna5ama/jartools/remap/MappingProvider.kt:157-160 | corrected merge: when each result covers the one before, the merge is the last result |
| LunaProviders.DerivedSequence | src/main/kotlin/dev/luna5ama/jartools/remap/MappingProvider.kt:141-165 | corrected merge: a sequence whose later stages are subclass or mixin providers returns its last stage's mapping |
| LunaProviders.ChainCovers | src/main/kotlin/dev/luna5ama/jartools/remap/MappingProvider.kt:38-82 | a subclass or mixin stage covers the result before it |
| LunaProviders.SequenceDropsRename | src/main/kotlin/dev/luna5ama/jartools/remap/MappingProvider.kt:157-160 | as written, a sequence of one subclass provider with no input classes, handed `k -> t`, returns `k -> k`; the corrected merge returns the mapping it was handed |
| LunaRemappers.MapMethodName | src/main/kotlin/dev/luna5ama/jartools/remap/Remapping.kt:8-10 | `mapMethodName` answers the method's nameTo when the owner class maps that name and descriptor, and the name it was given otherwise |
| LunaRemappers.MapFieldName | src/main/kotlin/dev/luna5ama/jartools/remap/Remapping.kt:12-14 | `mapFieldName` answers the field's nameTo when the owner class maps that name, and the name otherwise; the descriptor plays no part |
| LunaRemappers.MapType | src/main/kotlin/dev/luna5ama/jartools/remap/Remapping.kt:16-18 | `mapType` answers the class's nameTo when the mapping holds it, and the internal name otherwise |
| LunaRemappers.HandedMembersMap | src/main/kotlin/dev/luna5ama/jartools/remap/Remapping.kt:8-14 | after a hand-over, the receiver renames every method of the source, and every field the rule keeps, as the source does |
| LunaRemappers.HandedOthersUnchanged | src/main/kotlin/dev/luna5ama/jartools/remap/Remapping.kt:8-14 | after a hand-over, a member the source does not give answers at the receiver as before |
| LunaRemappers.HandedOtherClassesUnchanged | src/main/kotlin/dev/luna5ama/jartools/remap/Remapping.kt:8-18 | after a hand-over, every class other than the receiver answers every lookup as before |
| LunaRemappers.MergedMaps | src/main/kotlin/dev/luna5ama/jartools/remap/Remapping.kt:8-18 | after the corrected merge, a class maps to `a`'s name when `a` has it and to `b`'s otherwise, and every member `b` maps is renamed as `b` says |
| LunaRemappers.MergedAsWrittenDropsType | src/main/kotlin/dev/luna5ama/jartools/remap/Remapping.kt:16-18 | after the merge as written, a class only `b` holds is no longer renamed by `mapType` |
| LunaRemappers.MixinMapFieldName | src/main/kotlin/dev/luna5ama/jartools/MixinRemapper.kt:13-28 | the mixin remapper answers the base answer or the name itself, and the base answer for an owner that is not a mixin |
| LunaRemappers.ShadowFieldFollowsTarget | src/main/kotlin/dev/luna5ama/jartools/MixinRemapper.kt:13-28 | a `@Shadow` field of a mixin, once the mixin stage handed it the target's field of that name, is renamed as the target's field |
| LunaRemappers.OwnFieldKeepsName | src/main/kotlin/dev/luna5ama/jartools/MixinRemapper.kt:18-24 | a field the mixin declares first without `@Shadow` keeps its name whatever the mapping says |
| Mappings.FieldHash | src/main/kotlin/dev/fastmc/remapper/mapping/Mapping.kt:194-200 | 0 for the empty name; otherwise the low word is the Java string hash, and the high word is the prefix word less the borrow of the sign extension |
| Mappings.FieldHashWords | src/main/kotlin/dev/fastmc/remapper/mapping/Mapping.kt:199 | `(p.toLong() shl 32) + h.toLong()` has low word h and high word p, or p - 1 when h is negative |
| Mappings.ClassHashBits | src/main/kotlin/dev/fastmc/remapper/mapping/Mapping.kt:263-269 | the class fingerprint, corrected, is the prefix word in the high half ORed with the string hash in the low half |
| Mappings.ClassHashInjective | src/main/kotlin/dev/fastmc/remapper/mapping/Mapping.kt:263-269 | two class names share a fingerprint exactly when they share prefix word and string hash |
| Mappings.MethodHash | src/main/kotlin/dev/fastmc/remapper/mapping/Mapping.kt:241-250 | the method fingerprint is defined exactly when neither name nor descriptor is empty (both first characters are read) |
| Mappings.HashCode | src/main/kotlin/dev/fastmc/remapper/mapping/Mapping.kt:151-154 | `hashCode()` is the XOR of the two 32-bit words of the fingerprint |
| Mappings.HashCodeFold | src/main/kotlin/dev/fastmc/remapper/mapping/Mapping.kt:153 | `((h ushr 32) xor h).toInt()` is the XOR of the high and low words |
| Mappings.NewField | src/main/kotlin/dev/fastmc/remapper/mapping/Mapping.kt:173-187 | a new field holds its names and the fingerprint of nameFrom |
| Mappings.NewMethod | src/main/kotlin/dev/fastmc/remapper/mapping/Mapping.kt:205-227 | a new method exists exactly when name and descriptor are non-empty, and holds them with their fingerprint |
| Mappings.NewClass | src/main/kotlin/dev/fastmc/remapper/mapping/Mapping.kt:281-313 | a new class holds its names, the fingerprint of nameFrom and empty tables |
| Mappings.EqualsAgreesWithHash | src/main/kotlin/dev/fastmc/remapper/mapping/Mapping.kt:144-223 | entries equal by `equals` have the same fingerprint and the same `hashCode` |
| Mappings.EqualsIgnoresNameTo | src/main/kotlin/dev/fastmc/remapper/mapping/Mapping.kt:176-223 | nameTo plays no part in `equals` |
| Mappings.CompareBaseOrder | src/main/kotlin/dev/fastmc/remapper/mapping/Mapping.kt:138-142 | ordering entries by (nameFrom, nameTo) is antisymmetric and zero exactly on equal pairs |
| Mappings.MethodCompareOrder | src/main/kotlin/dev/fastmc/remapper/mapping/Mapping.kt:229-234 | methods are ordered by (nameFrom, nameTo, desc), antisymmetrically, zero only on equal triples |
| Mappings.CompareBaseTransitive | src/main/kotlin/dev/fastmc/remapper/mapping/Mapping.kt:138-142 | ordering entries by (nameFrom, nameTo) is transitive |
| Mappings.AddGrows | src/main/kotlin/dev/fastmc/remapper/mapping/Mapping.kt:35-37 | an add keeps an entry already under the fingerprint and otherwise inserts, growing the table by one |
| Mappings.GetField | src/main/kotlin/dev/fastmc/remapper/mapping/Mapping.kt:52-54 | a field lookup finds exactly the entry stored under the name's fingerprint |
| Mappings.GetMethod | src/main/kotlin/dev/fastmc/remapper/mapping/Mapping.kt:64-71 | a method lookup fails on an empty name or descriptor, and otherwise finds exactly the entry stored under the fingerprint |
| Mappings.GetClass | src/main/kotlin/dev/fastmc/remapper/mapping/Mapping.kt:89-91 | a class lookup finds exactly the entry stored under the name's fingerprint |
| Mappings.LookupsMatchFingerprint | src/main/kotlin/dev/fastmc/remapper/mapping/Mapping.kt:52-100 | every lookup answers only with an entry whose own fingerprint is the one queried |
| Mappings.GetOrCreate | src/main/kotlin/dev/fastmc/remapper/mapping/Mapping.kt:116-124 | `getOrCreate(nameFrom, nameTo)` returns the class under nameFrom's fingerprint, adding a new empty (nameFrom, nameTo) class only when none is there |
| Mappings.GetOrCreateTwice | src/main/kotlin/dev/fastmc/remapper/mapping/Mapping.kt:116-124 | a second `getOrCreate` returns the same entry and changes nothing, so the mapping grows by at most one and stays keyed |
| Mappings.AddField | src/main/kotlin/dev/fastmc/remapper/mapping/Mapping.kt:35-37 | adding a field changes only the field table of the entry it goes to |
| Mappings.AddMethod | src/main/kotlin/dev/fastmc/remapper/mapping/Mapping.kt:35-37 | adding a method changes only the method table of the entry it goes to |
| Mappings.AddFieldKeyed | src/main/kotlin/dev/fastmc/remapper/mapping/Mapping.kt:35-37 | member adds keep every entry under its own fingerprint |
| Mappings.AddMethodKeyed | src/main/kotlin/dev/fastmc/remapper/mapping/Mapping.kt:35-37 | member adds keep every entry under its own fingerprint |
| MappingFindings.ClassHashAsWritten | src/main/kotlin/dev/fastmc/remapper/mapping/Mapping.kt:263-269 | as written, for a negative string hash the OR with the sign-extended hash sets the whole high word, losing the prefix |
| MappingFindings.GetClassAsWritten | src/main/kotlin/dev/fastmc/remapper/mapping/Mapping.kt:89-91 | as written, a class lookup finds the entry under the as-written fingerprint |
| MappingFindings.ClassHashCollision | src/main/kotlin/dev/fastmc/remapper/mapping/Mapping.kt:263-269 | "abcdefg" and "abcdegH" share a negative string hash and differ in prefix word: as written their fingerprints are equal, as intended they differ |
| MappingFindings.LookupFindsOtherClass | src/main/kotlin/dev/fastmc/remapper/mapping/Mapping.kt:89-91 | as written, looking up "abcdegH" finds the class "abcdefg"; with the corrected fingerprint it finds nothing |
| MappingNames.Identifier | src/main/kotlin/dev/fastmc/remapper/mapping/MappingName.kt:6-10 | every name prints as an identifier of at least four characters |
| MappingNames.McpOfString | src/main/kotlin/dev/fastmc/remapper/mapping/MappingName.kt:81 | the string constructor of `Mcp` succeeds exactly when the version reads as an Int written in ASCII digits, and then holds that Int |
| MappingNames.EqualsIsIdentity | src/main/kotlin/dev/fastmc/remapper/mapping/MappingName.kt:12-26 | `equals` (with the Yarn and Mcp overrides) holds exactly for equal names, and equal names hash alike |
| MappingNames.McpOfStringIdentifier | src/main/kotlin/dev/fastmc/remapper/mapping/MappingName.kt:80-85 | an Mcp version printed by `toString` reads back through the string constructor |
| MappingNames.IdentifierLead | src/main/kotlin/dev/fastmc/remapper/mapping/MappingName.kt:32-84 | the identifier's leading characters tell the kinds apart |
| MappingNames.CompareByRank | src/main/kotlin/dev/fastmc/remapper/mapping/MappingName.kt:28-30 | names of different kinds are ordered by their identifiers, so by kind |
| MappingNames.CompareSameRank | src/main/kotlin/dev/fastmc/remapper/mapping/MappingName.kt:62-67 | two Yarn names compare by build number, two Mcp names by channel then version: zero exactly when equal, and antisymmetric |
| MappingNames.CompareToOrder | src/main/kotlin/dev/fastmc/remapper/mapping/MappingName.kt:28-113 | `compareTo` is antisymmetric, zero exactly on equal names, and transitive |
| MappingNames.Antisymmetric | src/main/kotlin/dev/fastmc/remapper/mapping/MappingName.kt:28-30 | `compareTo` is antisymmetric and zero exactly on equal names |
| MappingNames.RankMonotone | src/main/kotlin/dev/fastmc/remapper/mapping/MappingName.kt:28-30 | a name below another is of the same kind or of an earlier one |
| MappingNames.Transitive | src/main/kotlin/dev/fastmc/remapper/mapping/MappingName.kt:28-113 | `compareTo` is transitive across kinds |
| MappingNames.McpTransitive | src/main/kotlin/dev/fastmc/remapper/mapping/MappingName.kt:104-113 | the Mcp comparison (channel, then version) is transitive |
| OldMappingNames.YarnName.constructor | src/main/kotlin/dev/fastmc/jartools/mapping/MappingName.kt:20 | a Yarn name holds the build number it was given |
| OldMappingNames.McpName.constructor | src/main/kotlin/dev/fastmc/jartools/mapping/MappingName.kt:35 | an Mcp name holds the channel and version it was given |
| OldMappingNames.SameIdentifier | src/main/kotlin/dev/fastmc/jartools/mapping/MappingName.kt:3-38 | the older names print the same identifiers as the current ones |
| OldMappingNames.TwoYarns | src/main/kotlin/dev/fastmc/jartools/mapping/MappingName.kt:20-23 | two Yarn objects of the same build print alike yet are different objects, since this class has no `equals`; the current generation calls them equal |
| MappingTransforms.Collect | src/main/kotlin/dev/fastmc/remapper/mapping/Mapping.kt:329-340 | the add-every-converted-entry loop succeeds exactly when every entry converts, and the table it builds is the rebuilt table |
| MappingTransforms.RebuiltInjective | src/main/kotlin/dev/fastmc/remapper/mapping/Mapping.kt:329-340 | with distinct converted fingerprints every entry's conversion is in the rebuilt table |
| MappingTransforms.RebuiltSameKeys | src/main/kotlin/dev/fastmc/remapper/mapping/Mapping.kt:333-335 | a conversion that keeps each entry's fingerprint rebuilds the table entry for entry |
| MappingTransforms.RemapDescNonEmpty | src/main/kotlin/dev/fastmc/remapper/mapping/Mapping.kt:347-351 | a descriptor remaps to an empty one exactly when it is empty |
| MappingTransforms.ReversibleConverts | src/main/kotlin/dev/fastmc/remapper/mapping/Mapping.kt:337-339 | the methods of a class reverse exactly when every method has a non-empty target name and descriptor |
| MappingTransforms.ReverseClass | src/main/kotlin/dev/fastmc/remapper/mapping/Mapping.kt:330-339 | one class is reversed exactly when its methods can be, and the result swaps the names of the class and of each member |
| MappingTransforms.Reversed | src/main/kotlin/dev/fastmc/remapper/mapping/Mapping.kt:326-343 | `reversed` succeeds exactly when every method can be reversed, and then swaps every class, field and method name pair, remapping method descriptors |
| MappingTransforms.ReversedLookup | src/main/kotlin/dev/fastmc/remapper/mapping/Mapping.kt:326-343 | in the reversal every target class name finds a class whose target is a source name with that target fingerprint; with no shared target fingerprints it is the class's own name |
| MappingTransforms.ReversedFieldLookup | src/main/kotlin/dev/fastmc/remapper/mapping/Mapping.kt:333-335 | without shared target fingerprints a field's target name finds the field's source name in the reversed class |
| MappingTransforms.ReversedClassKeyed | src/main/kotlin/dev/fastmc/remapper/mapping/Mapping.kt:330-339 | a reversed class and its members sit under the fingerprints of their new names |
| MappingTransforms.ReversedKeyed | src/main/kotlin/dev/fastmc/remapper/mapping/Mapping.kt:326-343 | a reversal stores every class, field and method under its own fingerprint |
| MappingTransforms.ReversalSwapsNames | src/main/kotlin/dev/fastmc/remapper/mapping/Mapping.kt:330 | each reversed class swaps the names of the class it came from |
| MappingTransforms.ReverseTwice | src/main/kotlin/dev/fastmc/remapper/mapping/Mapping.kt:326-343 | reversing twice restores every class's names when each class sits under its own fingerprint and no two share a target fingerprint |
| MappingTransforms.MissingNameFails | src/main/kotlin/dev/fastmc/remapper/mapping/Mapping.kt:357-369 | when `other` lacks a name, `mapWith` throws rather than passing the name through |
| MappingTransforms.ComposeClass | src/main/kotlin/dev/fastmc/remapper/mapping/Mapping.kt:356-372 | one class composes exactly when `other` has every target it needs, and then keeps its nameFrom and takes `other`'s names |
| MappingTransforms.MapWith | src/main/kotlin/dev/fastmc/remapper/mapping/Mapping.kt:353-376 | `mapWith` succeeds exactly when `other` has every target name, and then composes every class, field and method |
| MappingTransforms.CompositionKeys | src/main/kotlin/dev/fastmc/remapper/mapping/Mapping.kt:353-376 | for a keyed mapping the composition has the same keys |
| MappingTransforms.MapWithLookup | src/main/kotlin/dev/fastmc/remapper/mapping/Mapping.kt:357 | a class lookup in the composition is the first mapping's answer looked up again in `other` |
| MappingTransforms.CompositionClass | src/main/kotlin/dev/fastmc/remapper/mapping/Mapping.kt:356-372 | each class is composed under its own key |
| MappingTransforms.ComposedFieldLookup | src/main/kotlin/dev/fastmc/remapper/mapping/Mapping.kt:360-362 | a field lookup in a composed field table is the old target looked up among `other`'s class names |
| MappingTransforms.MapWithFieldLookup | src/main/kotlin/dev/fastmc/remapper/mapping/Mapping.kt:360-362 | within a keyed class the composed class maps each field to `other`'s class name for its target |
| McVersions.PackedParts | src/main/kotlin/dev/fastmc/remapper/util/McVersion.kt:7-12 | `one`, `two` and `three` are the 16 + 8 + 8 bits of the packed word, and together give it back |
| McVersions.PackValue | src/main/kotlin/dev/fastmc/remapper/util/McVersion.kt:5 | the three-argument constructor packs in-range parts as major·65536 + minor·256 + patch |
| McVersions.MakeParts | src/main/kotlin/dev/fastmc/remapper/util/McVersion.kt:5-12 | the accessors give back the parts the constructor was given when each fits its field |
| McVersions.Digits256 | src/main/kotlin/dev/fastmc/remapper/util/McVersion.kt:5-12 | the packed form of in-range parts is unique |
| McVersions.CompareIsPackedOrder | src/main/kotlin/dev/fastmc/remapper/util/McVersion.kt:14-20 | comparing `one`, then `two`, then `three` is the numeric order of the packed words |
| McVersions.LexIsNumeric | src/main/kotlin/dev/fastmc/remapper/util/McVersion.kt:14-20 | the part-by-part comparison equals the comparison of the packed numbers |
| McVersions.OrderByHigh | src/main/kotlin/dev/fastmc/remapper/util/McVersion.kt:14-16 | versions whose first differing part differs are ordered by that part |
| McVersions.CompareToOrder | src/main/kotlin/dev/fastmc/remapper/util/McVersion.kt:14-20 | `compareTo` is antisymmetric, zero exactly on equal versions, and transitive |
| McVersions.UnknownIsLeast | src/main/kotlin/dev/fastmc/remapper/util/McVersion.kt:31 | `UNKNOWN` is 0.0, prints as "0.0", and no version compares below it |
| McVersions.ParseNeedsTwoParts | src/main/kotlin/dev/fastmc/remapper/util/McVersion.kt:33-36 | a string without '.' is rejected (`split[1]` is out of bounds) |
| McVersions.ParseIgnoresFourthPart | src/main/kotlin/dev/fastmc/remapper/util/McVersion.kt:34-37 | with more than three components only the first two are read and the patch is 0 |
| McVersions.ParseParts | src/main/kotlin/dev/fastmc/remapper/util/McVersion.kt:33-39 | two or three components that read as Ints in ASCII digits give the version of those numbers, the patch 0 when absent |
| McVersions.ReleaseParse | src/main/kotlin/dev/fastmc/remapper/util/McVersion.kt:33-39 | parsing the printed numbers of an in-range version gives that version |
| McVersions.ReleaseRoundTrip | src/main/kotlin/dev/fastmc/remapper/util/McVersion.kt:22-39 | parse then print gives back a release string, and print then parse gives back the version |
| McVersions.ParsePrintTwo | src/main/kotlin/dev/fastmc/remapper/util/McVersion.kt:22-39 | "a.b" with canonical in-range numbers parses and prints back unchanged |
| McVersions.ParsePrintThree | src/main/kotlin/dev/fastmc/remapper/util/McVersion.kt:22-39 | "a.b.c" with canonical in-range numbers and c ≠ 0 parses and prints back unchanged |
| McVersions.PrintRelease | src/main/kotlin/dev/fastmc/remapper/util/McVersion.kt:22-28 | every release string parses, and the version prints as the same string |
| MemberWalks.CopyMethod | src/main/kotlin/dev/fastmc/jartools/mapping/MappingPipeline.kt:53-92 | the mixin stage adds the method itself; the subclass stage rebuilds it, which succeeds exactly when its name and descriptor are non-empty |
| MemberWalks.CopyField | src/main/kotlin/dev/fastmc/jartools/mapping/MappingPipeline.kt:60-104 | a copied field keeps its names; the subclass stage rebuilds its fingerprint from its name |
| MemberWalks.WalkMethodsStep | src/main/kotlin/dev/fastmc/jartools/mapping/MappingPipeline.kt:49-54 | one more step of the method walk adds the copy of the next method |
| MemberWalks.WalkMethodsThrown | src/main/kotlin/dev/fastmc/jartools/mapping/MappingPipeline.kt:49-54 | once a copy has thrown, the method walk stays thrown |
| MemberWalks.WalkFieldsStep | src/main/kotlin/dev/fastmc/jartools/mapping/MappingPipeline.kt:55-62 | one more step of the field walk adds the copy of the next field when the rule keeps it, and nothing otherwise |
| MemberWalks.WalkMethodsReceive | src/main/kotlin/dev/fastmc/jartools/mapping/MappingPipeline.kt:49-54 | when every method copies to itself, the first i steps of the method walk cannot throw and receive exactly the methods visited so far |
| MemberWalks.WalkMethodsDone | src/main/kotlin/dev/fastmc/jartools/mapping/MappingPipeline.kt:49-54 | the whole method walk receives every method of the class |
| MemberWalks.WalkFieldsReceive | src/main/kotlin/dev/fastmc/jartools/mapping/MappingPipeline.kt:55-62 | the first j steps of the field walk receive exactly the visited fields the rule keeps |
| MemberWalks.WalkFieldsDone | src/main/kotlin/dev/fastmc/jartools/mapping/MappingPipeline.kt:55-62 | the whole field walk receives every field the rule keeps |
| MixinRule.FindField | src/main/kotlin/dev/fastmc/remapper/mapping/Remapping.kt:37 | `find` answers exactly when a field has the name and descriptor, and gives the first such field |
| MixinRule.AssociateLastKeys | src/main/kotlin/dev/fastmc/remapper/mapping/Remapping.kt:31 | `associateBy` holds exactly the keys of the kept elements, each with a kept element of that key |
| MixinRule.AssociateLastWins | src/main/kotlin/dev/fastmc/remapper/mapping/Remapping.kt:31 | an element no later kept element shares its key with is the one kept |
| MixinRule.MixinClasses | src/main/kotlin/dev/fastmc/remapper/mapping/Remapping.kt:28-31 | the mixin classes are exactly the `@Mixin` classes by name |
| MixinRule.MixinClassesLastWins | src/main/kotlin/dev/fastmc/remapper/mapping/Remapping.kt:31 | a later `@Mixin` class of a name is the one kept |
| MixinRule.NotMixinUsesBase | src/main/kotlin/dev/fastmc/remapper/mapping/Remapping.kt:34 | outside a mixin class the base answer stands |
| MixinRule.DeclaredFieldKeepsName | src/main/kotlin/dev/fastmc/remapper/mapping/Remapping.kt:37-42 | the first field the mixin declares with that name and descriptor, without `@Shadow`, keeps its name |
| MixinRule.ShadowFieldUsesBase | src/main/kotlin/dev/fastmc/remapper/mapping/Remapping.kt:37-45 | a `@Shadow` field is renamed as the base remapper says |
| MixinRule.UndeclaredFieldUsesBase | src/main/kotlin/dev/fastmc/remapper/mapping/Remapping.kt:43-45 | a field the mixin does not declare with that name and descriptor is renamed as the base remapper says |
| MixinRule.NameOrBase | src/main/kotlin/dev/fastmc/remapper/mapping/Remapping.kt:33-47 | the answer is always the field's own name or the base answer |
| Patterns.Largest | src/main/kotlin/dev/fastmc/remapper/pipeline/GenerateRefmapStage.kt:487-490 | the greedy search finds the largest cut with the property, or shows none has it |
| Patterns.Smallest | src/main/kotlin/dev/fastmc/remapper/pipeline/GenerateRefmapStage.kt:480 | the lazy search finds the smallest cut with the property, or shows none has it |
| Patterns.MatchMethodRef | src/main/kotlin/dev/fastmc/remapper/pipeline/GenerateRefmapStage.kt:487 | `methodRefRegex` matches exactly when some cut gives a name and a descriptor, and takes the name as long as a match allows |
| Patterns.RemoveStar | src/main/kotlin/dev/fastmc/remapper/pipeline/GenerateRefmapStage.kt:250-261 | `removeSuffix("*")` drops one trailing `*` and nothing else |
| Patterns.FullMethodCuts | src/main/kotlin/dev/fastmc/remapper/pipeline/GenerateRefmapStage.kt:489 | the cuts exist exactly when `fullMethodRefRegex` matches, and they give a match |
| Patterns.FullMethodCutsGreedy | src/main/kotlin/dev/fastmc/remapper/pipeline/GenerateRefmapStage.kt:489 | the owner group is as long as a match allows, then the name group |
| Patterns.MatchFullMethodRef | src/main/kotlin/dev/fastmc/remapper/pipeline/GenerateRefmapStage.kt:489 | `fullMethodRefRegex` matches exactly when some cut gives owner, name and descriptor, and answers with those groups |
| Patterns.FullFieldCuts | src/main/kotlin/dev/fastmc/remapper/pipeline/GenerateRefmapStage.kt:490 | the cuts exist exactly when `fullFieldRefRegex` matches, and they give a match |
| Patterns.FullFieldCutsGreedy | src/main/kotlin/dev/fastmc/remapper/pipeline/GenerateRefmapStage.kt:490 | the owner group is as long as a match allows, then the name group |
| Patterns.MatchFullFieldRef | src/main/kotlin/dev/fastmc/remapper/pipeline/GenerateRefmapStage.kt:490 | `fullFieldRefRegex` matches exactly when some cut gives owner, name and field type, and answers with those groups |
| Patterns.MatchParams | src/main/kotlin/dev/fastmc/remapper/pipeline/GenerateRefmapStage.kt:468-481 | `paramerterTypeDescRegex` matches exactly when there are parameters and a return type, and takes the parameters up to the last `)` that leaves a return type |
| Patterns.MatchReturn | src/main/kotlin/dev/fastmc/remapper/pipeline/GenerateRefmapStage.kt:469-482 | `returnTypeDescRegex` matches exactly a `()` descriptor with a return type, and gives that type |
| Patterns.MatchCallbackParams | src/main/kotlin/dev/fastmc/remapper/pipeline/GenerateRefmapStage.kt:483-484 | `descParamExtractRegex` matches exactly when a `CallbackInfo` parameter can end the match, and gives the parameters before the last such one |
| Patterns.MatchReturnable | src/main/kotlin/dev/fastmc/remapper/pipeline/GenerateRefmapStage.kt:485-486 | `descReturnExtractRegex` matches exactly when a `CallbackInfoReturnable<...>` can end the match, and gives the longest type argument of the last such one |
| Patterns.TypeParamsEnd | src/main/kotlin/dev/fastmc/remapper/pipeline/GenerateRefmapStage.kt:479 | a `<.+>` match at the head ends at the last `>` it can reach |
| Patterns.StripTypeParams | src/main/kotlin/dev/fastmc/remapper/pipeline/GenerateRefmapStage.kt:479 | removing every `<.+>` match never lengthens the text |
| Patterns.StripNoAngle | src/main/kotlin/dev/fastmc/remapper/pipeline/GenerateRefmapStage.kt:479 | text without `<` is left as it is |
| Patterns.StripFrom | src/main/kotlin/dev/fastmc/remapper/pipeline/GenerateRefmapStage.kt:479 | characters before the first `<` pass through |
| Patterns.StripOneList | src/main/kotlin/dev/fastmc/remapper/pipeline/GenerateRefmapStage.kt:479 | `Lname<args>;` with no `>` inside the arguments becomes `Lname;` |
| Patterns.JavaLangEnd | src/main/kotlin/dev/fastmc/remapper/pipeline/GenerateRefmapStage.kt:480 | a lazy `Ljava/lang/(.+?);` match at the head ends at the first `;` it can reach |
| Patterns.BoxedToPrimitive | src/main/kotlin/dev/fastmc/remapper/pipeline/GenerateRefmapStage.kt:389-403 | a boxed `java/lang` type becomes its one-letter primitive |
| Patterns.OtherJavaLangKept | src/main/kotlin/dev/fastmc/remapper/pipeline/GenerateRefmapStage.kt:400 | any other `java/lang` class is kept, `;` included |
| Patterns.PlainChar | src/main/kotlin/dev/fastmc/remapper/pipeline/GenerateRefmapStage.kt:389-403 | a character that does not start `Ljava/lang/` passes through |
| Patterns.NoJavaLangUnchanged | src/main/kotlin/dev/fastmc/remapper/pipeline/GenerateRefmapStage.kt:389-403 | a descriptor without `Ljava/lang/` is unchanged |
| Pipelines.InputClassesRule | src/main/kotlin/dev/fastmc/jartools/mapping/MappingPipeline.kt:31-37 | the input table holds every class name given, each with a class of that name, and a later class of one name wins, so an external class replaces a jar class |
| Pipelines.GatherInputClasses | src/main/kotlin/dev/fastmc/jartools/mapping/MappingPipeline.kt:31-37 | the two `forEach` loops build the input table |
| Pipelines.ValuesIn | src/main/kotlin/dev/fastmc/jartools/mapping/MappingPipeline.kt:38 | `inputClasses.values` lists the table's classes in the iteration order given |
| Pipelines.HandDown | src/main/kotlin/dev/fastmc/jartools/mapping/MappingPipeline.kt:47-63 | the entries of the result are distinct objects that extend the table they came from, and, for a mapping whose members sit under their fingerprints, the walk over the subclasses succeeds and shows the value-level hand-down |
| Pipelines.HandDownTo | src/main/kotlin/dev/fastmc/jartools/mapping/MappingPipeline.kt:48-62 | one subclass receives the class's methods, recomputed, and the fields it does not declare, as the value-level step says |
| Pipelines.SubclassWalk | src/main/kotlin/dev/fastmc/jartools/mapping/MappingPipeline.kt:44-65 | the subclass infos of the input, then the walk over them: the table is extended and shows the value-level subclass pass |
| Pipelines.WalkInfos | src/main/kotlin/dev/fastmc/jartools/mapping/MappingPipeline.kt:44-65 | the loop over the sorted infos keeps the entries it started from, adds only fresh ones, and ends showing the value-level subclass pass |
| Pipelines.VisitInfo | src/main/kotlin/dev/fastmc/jartools/mapping/MappingPipeline.kt:45-64 | a class the result maps hands down to its subclasses; any other class changes nothing |
| Pipelines.SubclassesInRange | src/main/kotlin/dev/fastmc/jartools/mapping/MappingPipeline.kt:47 | the subclasses an info lists are classes of the input |
| Pipelines.SubclassPassSnoc | src/main/kotlin/dev/fastmc/jartools/mapping/MappingPipeline.kt:44-65 | one more info of the pass hands down from its class when that class is mapped, and changes nothing otherwise |
| Pipelines.PropagateAllSnoc | src/main/kotlin/dev/fastmc/jartools/mapping/MappingPipeline.kt:47-63 | one more subclass receives the methods of the class and the fields it does not declare |
| Pipelines.NoMixinNoTargets | src/main/kotlin/dev/fastmc/jartools/mapping/MappingPipeline.kt:82 | a class without `@Mixin` has no targets in either stage |
| Pipelines.StringTargetOnlyInPipeline | src/main/kotlin/dev/fastmc/jartools/mapping/MappingPipeline.kt:109-133 | a string target is visited by the pipeline stage and skipped by the provider stage, which keeps only `Type` values |
| Pipelines.MixinWalk | src/main/kotlin/dev/fastmc/jartools/mapping/MappingPipeline.kt:80-135 | the mixin walk extends the table, never throws, and shows the value-level mixin pass over the table it started from |
| Pipelines.ShownKeys | src/main/kotlin/dev/fastmc/jartools/mapping/MappingPipeline.kt:41-42 | a table of entries and the mapping it shows have the same keys |
| Pipelines.VisitMixin | src/main/kotlin/dev/fastmc/jartools/mapping/MappingPipeline.kt:81-134 | one class hands over the members of each of its targets in order |
| Pipelines.AdoptTargets | src/main/kotlin/dev/fastmc/jartools/mapping/MappingPipeline.kt:84-107 | the targets of one mixin class hand it their members, in order |
| Pipelines.AdoptTarget | src/main/kotlin/dev/fastmc/jartools/mapping/MappingPipeline.kt:86-106 | a target the previous mapping holds hands the mixin class its methods and the fields the mixin declares with `@Shadow`; an unmapped target changes nothing |
| Pipelines.AdoptAllSnoc | src/main/kotlin/dev/fastmc/jartools/mapping/MappingPipeline.kt:86-106 | one more target of the value-level walk adopts its members when the previous mapping holds it, and changes nothing otherwise |
| Pipelines.SubclassPipelineGet | src/main/kotlin/dev/fastmc/jartools/mapping/MappingPipeline.kt:27-69 | without a previous mapping the stage throws its requirement; otherwise it extends a copy of that mapping and shows the subclass pass over the input classes |
| Pipelines.SubClassProviderGet | src/main/kotlin/dev/fastmc/jartools/mapping/MappingProvider.kt:29-67 | the same stage over the given class nodes, with its own requirement message |
| Pipelines.MixinPipelineGet | src/main/kotlin/dev/fastmc/jartools/mapping/MappingPipeline.kt:73-139 | without a previous mapping the stage throws its requirement; otherwise it succeeds and shows the mixin pass over the class entries with the targets of their first `@Mixin` |
| Pipelines.MixinProviderGet | src/main/kotlin/dev/fastmc/jartools/mapping/MappingProvider.kt:69-128 | the same pass over the mixin classes, with the type targets of every `@Mixin` |
| PipelineSequences.View | src/main/kotlin/dev/fastmc/jartools/mapping/MappingPipeline.kt:41-42 | the mapping a table of entries holds now is the mapping it shows |
| PipelineSequences.RunStage | src/main/kotlin/dev/fastmc/jartools/mapping/MappingPipeline.kt:171-176 | any stage: a given table is returned as it is, a stage without a previous mapping throws its requirement, and one with a previous mapping it applies to succeeds |
| PipelineSequences.UnionAll | src/main/kotlin/dev/fastmc/jartools/mapping/MappingPipeline.kt:178-181 | the merge holds exactly the fingerprints held by some result |
| PipelineSequences.UnionOfChain | src/main/kotlin/dev/fastmc/jartools/mapping/MappingPipeline.kt:178-181 | when each result holds the entries of the one before, the merge is the last result |
| PipelineSequences.Sequence.Get | src/main/kotlin/dev/fastmc/jartools/mapping/MappingPipeline.kt:165-186 | a cached mapping is returned as it is; otherwise every stage runs from the result before it, the merge of the results is returned and cached, and a failure caches nothing |
| PipelineSequences.RunAll | src/main/kotlin/dev/fastmc/jartools/mapping/MappingPipeline.kt:171-176 | each stage runs from the result before it, and a first stage without a previous mapping throws its requirement |
| PipelineSequences.Advance | src/main/kotlin/dev/fastmc/jartools/mapping/MappingPipeline.kt:172-174 | the next stage runs from the last result, or from the previous mapping when it is the first |
| PipelineSequences.Merge | src/main/kotlin/dev/fastmc/jartools/mapping/MappingPipeline.kt:178-181 | `result.addAll` over the results in order computes the merge |
| PipelineSequences.NewSequence | src/main/kotlin/dev/fastmc/jartools/mapping/MappingPipeline.kt:159-161 | a sequence without stages is refused with "No providers provided"; otherwise it holds the stages and no cache |
| PipelineSequences.Cached.Get | src/main/kotlin/dev/fastmc/jartools/mapping/MappingPipeline.kt:146-155 | the cached mapping when there is one; otherwise the stage's result, which is then cached; a failure caches nothing |
| Refmaps.OnlyCandidate | src/main/kotlin/dev/fastmc/remapper/pipeline/GenerateRefmapStage.kt:348-354 | the fallback answers exactly when one entry has the name and a descriptor ending with the return type, and then gives that entry |
| Refmaps.Pass | src/main/kotlin/dev/fastmc/remapper/pipeline/GenerateRefmapStage.kt:345-355 | one lookup pass throws only on an empty name or descriptor; the exact entry wins; on a miss, a `()` descriptor takes the single matching candidate and its descriptor, and nothing else answers |
| Refmaps.Resolve | src/main/kotlin/dev/fastmc/remapper/pipeline/GenerateRefmapStage.kt:339-371 | `<init>` and `<clinit>` resolve to themselves; otherwise the first pass decides when it answers, and the pass over the primitive descriptor when it does not |
| Refmaps.MapMethodRef | src/main/kotlin/dev/fastmc/remapper/pipeline/GenerateRefmapStage.kt:330-377 | `mapMethodRef` succeeds exactly when a pass resolves the reference, and then records `L<classTo>;<nameTo><remapped desc>` under it |
| Refmaps.InitMapsToItself | src/main/kotlin/dev/fastmc/remapper/pipeline/GenerateRefmapStage.kt:342-387 | `<init>` and `<clinit>` map to themselves whatever the method table holds |
| Refmaps.ExactEntryWins | src/main/kotlin/dev/fastmc/remapper/pipeline/GenerateRefmapStage.kt:345 | an exact (name, desc) entry wins over every fallback |
| Refmaps.UniqueCandidateUsed | src/main/kotlin/dev/fastmc/remapper/pipeline/GenerateRefmapStage.kt:346-354 | a `()` reference that misses takes the one entry with that name and return type, and its descriptor |
| Refmaps.AmbiguousFallsThrough | src/main/kotlin/dev/fastmc/remapper/pipeline/GenerateRefmapStage.kt:351-371 | two or more candidates, or none, are no answer: the primitive pass decides |
| Refmaps.UnresolvedThrows | src/main/kotlin/dev/fastmc/remapper/pipeline/GenerateRefmapStage.kt:372-374 | a reference neither pass resolves throws |
| Refmaps.ReturnFromSignature | src/main/kotlin/dev/fastmc/remapper/pipeline/GenerateRefmapStage.kt:324-326 | the return type is `CallbackInfoReturnable<T>`'s T with its type arguments removed, else `V` |
| Refmaps.FindDesc | src/main/kotlin/dev/fastmc/remapper/pipeline/GenerateRefmapStage.kt:322-328 | `findDesc` answers exactly when the descriptor holds a `CallbackInfo` parameter, and rebuilds the descriptor from the parameters before the last one |
| Refmaps.FindDescOfVoidHandler | src/main/kotlin/dev/fastmc/remapper/pipeline/GenerateRefmapStage.kt:322-328 | a void `@Inject` handler `(<params>CallbackInfo;)V` without a signature targets `(<params>)V` |
| Refmaps.FirstNamed | src/main/kotlin/dev/fastmc/remapper/pipeline/GenerateRefmapStage.kt:262-264 | `find` answers exactly when an entry has the name, and gives the first such entry in iteration order |
| Refmaps.MethodRefStep | src/main/kotlin/dev/fastmc/remapper/pipeline/GenerateRefmapStage.kt:219-277 | `<init>` refs and `name(desc)` refs go to `mapMethodRef`; a wildcard outside `@Inject` throws; an `@Inject` ref without a findable descriptor throws; a bare name succeeds only when an entry has it; no key is lost |
| Refmaps.DotsToSlashes | src/main/kotlin/dev/fastmc/remapper/pipeline/GenerateRefmapStage.kt:310 | every '.' becomes '/', and nothing else changes |
| Refmaps.AtTargetStep | src/main/kotlin/dev/fastmc/remapper/pipeline/GenerateRefmapStage.kt:284-315 | a full method reference succeeds exactly when its owner and method are mapped, and records `L<ownerTo>;<nameTo><descTo>`; a full field reference likewise with `:`; a class name is recorded only when mapped |
| Refmaps.DottedClassTarget | src/main/kotlin/dev/fastmc/remapper/pipeline/GenerateRefmapStage.kt:309-314 | a plain class name in dotted form is recorded under its slashed mapping, and nothing else changes |
| Refmaps.ReadHandler | src/main/kotlin/dev/fastmc/remapper/pipeline/GenerateRefmapStage.kt:201-216 | the handler's method references are its `method` array, and remapping stays on without a `remap` element |
| Refmaps.HandlerStep | src/main/kotlin/dev/fastmc/remapper/pipeline/GenerateRefmapStage.kt:191-199 | a method without an injector annotation is passed over |
| Refmaps.LowerFirst | src/main/kotlin/dev/fastmc/remapper/pipeline/GenerateRefmapStage.kt:435-466 | `replaceFirstChar(Char::lowercaseChar)` lowers a first character in `A`-`Z` and keeps the rest |
| Refmaps.InvokerValue | src/main/kotlin/dev/fastmc/remapper/pipeline/GenerateRefmapStage.kt:413-422 | without a `value` element an invoker has no given name |
| Refmaps.AccessorStep | src/main/kotlin/dev/fastmc/remapper/pipeline/GenerateRefmapStage.kt:411-475 | a method with neither `@Invoker` nor `@Accessor` changes nothing, and no key is lost |
| Refmaps.DerivedNames | src/main/kotlin/dev/fastmc/remapper/pipeline/GenerateRefmapStage.kt:423-467 | `getFoo` and `setFoo` name the field `foo`; `invokeBar` and `callBar` the method `bar` |
| Refmaps.AccessorDescs | src/main/kotlin/dev/fastmc/remapper/pipeline/GenerateRefmapStage.kt:468-482 | a setter `(T)V` accesses a field of type T; a getter `()T` one of type T |
| Refmaps.TargetStep | src/main/kotlin/dev/fastmc/remapper/pipeline/GenerateRefmapStage.kt:66-72 | a target class without a mapping entry throws |
| Refmaps.ClassStep | src/main/kotlin/dev/fastmc/remapper/pipeline/GenerateRefmapStage.kt:36-59 | a class without `@Mixin` changes nothing; a second mixin of the same name throws; a mixin adds its own name and keeps every refmap already built |
| Refmaps.DuplicateMixinThrows | src/main/kotlin/dev/fastmc/remapper/pipeline/GenerateRefmapStage.kt:41-43 | two mixins of one name make the stage throw, wherever they stand |
| Refmaps.MixinNameKept | src/main/kotlin/dev/fastmc/remapper/pipeline/GenerateRefmapStage.kt:36-76 | once a mixin has been walked its name stays among the keys, unless the walk has thrown |
| Refmaps.MapTarget | src/main/kotlin/dev/fastmc/remapper/pipeline/GenerateRefmapStage.kt:70-71 | `mapMethods` then `mapAccessors` for one target class compute the target step |
| Refmaps.GenerateRefmaps | src/main/kotlin/dev/fastmc/remapper/pipeline/GenerateRefmapStage.kt:36-77 | the class loop of `run` computes every mixin's refmap, its target classes one after another |
| RefmapOutput.KeyCompareAntisymmetric | src/main/kotlin/dev/fastmc/remapper/pipeline/GenerateRefmapStage.kt:81-82 | comparing entries by key is antisymmetric |
| RefmapOutput.PermutedLists | src/main/kotlin/dev/fastmc/remapper/pipeline/GenerateRefmapStage.kt:81 | a rearrangement of a map's entries still lists the map |
| RefmapOutput.EntriesOf | src/main/kotlin/dev/fastmc/remapper/pipeline/GenerateRefmapStage.kt:81 | `entries.toList()` lists every entry of the map once |
| RefmapOutput.SortedEntries | src/main/kotlin/dev/fastmc/remapper/pipeline/GenerateRefmapStage.kt:81 | `toList().sortedBy { it.first }` lists every entry once, sorted by key |
| RefmapOutput.NonEmpty | src/main/kotlin/dev/fastmc/remapper/pipeline/GenerateRefmapStage.kt:80 | the filter keeps exactly the mixins whose refmap is not empty, each with its refmap |
| RefmapOutput.Assemble | src/main/kotlin/dev/fastmc/remapper/pipeline/GenerateRefmapStage.kt:79-97 | `mappings` holds every mixin with a non-empty refmap once, sorted by name, each with its refmap sorted by key, and `data` holds the same object under the mapping name |
| RefmapOutput.AssembledFacts | src/main/kotlin/dev/fastmc/remapper/pipeline/GenerateRefmapStage.kt:79-93 | the rendered classes are sorted by name, one per non-empty refmap, each listing that refmap sorted by key |
| Descriptors.NextSemi | src/main/kotlin/dev/fastmc/remapper/mapping/Mapping.kt:345 | the end of a match is the first ';' at or after the start, or the end of the string |
| Descriptors.RemapDescIdentity | src/main/kotlin/dev/fastmc/remapper/mapping/Mapping.kt:347-351 | a mapping that renames nothing leaves every descriptor as it is |
| Descriptors.RemapDescEmpty | src/main/kotlin/dev/fastmc/remapper/mapping/Mapping.kt:347-351 | the empty mapping leaves every descriptor as it is |
| Descriptors.RemapDescPrimitive | src/main/kotlin/dev/fastmc/remapper/mapping/Mapping.kt:345-351 | a descriptor without 'L' is unchanged whatever the mapping |
| Descriptors.RemapObjectType | src/main/kotlin/dev/fastmc/remapper/mapping/Mapping.kt:345-351 | an object type `L<name>;` becomes `L<nameTo>;`, or stays when the class is unmapped |
| Descriptors.ScanMatch | src/main/kotlin/dev/fastmc/remapper/mapping/Mapping.kt:345-350 | after an 'L' the text up to the next ';' is replaced by its lookup |
| Descriptors.ScanCopy | src/main/kotlin/dev/fastmc/remapper/mapping/Mapping.kt:345-350 | a character outside any match is copied |
| Descriptors.RemapDescConcat | src/main/kotlin/dev/fastmc/remapper/mapping/Mapping.kt:345-351 | descriptors remap piece by piece when the first piece closes its references |
| Descriptors.ClosedPieces | src/main/kotlin/dev/fastmc/remapper/mapping/Mapping.kt:345 | object types and strings without 'L' close their references, and closed pieces compose |
| Remappers.MapMethodName | src/main/kotlin/dev/fastmc/remapper/mapping/Remapping.kt:10-12 | an unmapped owner keeps the name; a mapped owner throws exactly on an empty name or descriptor; a new name is some method's nameTo in the owner's class |
| Remappers.MapFieldName | src/main/kotlin/dev/fastmc/remapper/mapping/Remapping.kt:14-16 | an unmapped owner keeps the name; a new name is some field's nameTo in the owner's class |
| Remappers.MapType | src/main/kotlin/dev/fastmc/remapper/mapping/Remapping.kt:18-21 | null maps to null, and an unmapped class to itself |
| Remappers.UnmappedOwnerKeepsNames | src/main/kotlin/dev/fastmc/remapper/mapping/Remapping.kt:10-34 | with no class under the owner's fingerprint every member keeps its name |
| Remappers.MethodFoundAfterAdd | src/main/kotlin/dev/fastmc/remapper/mapping/Remapping.kt:11 | a method added to the owner's class is found again by the lookup |
| Remappers.MethodMissingKeepsName | src/main/kotlin/dev/fastmc/remapper/mapping/Remapping.kt:11 | a method of the owner's class under another fingerprint keeps its name |
| Remappers.FieldFoundAfterAdd | src/main/kotlin/dev/fastmc/remapper/mapping/Remapping.kt:15 | a field added to the owner's class is found again under any descriptor |
| Remappers.TypeFoundAfterCreate | src/main/kotlin/dev/fastmc/remapper/mapping/Remapping.kt:20 | a class created with a target name maps its type to that name |
| Remappers.MixinMapFieldName | src/main/kotlin/dev/fastmc/remapper/mapping/Remapping.kt:24-47 | the answer is always the field's own name or the plain field lookup |
| Remappers.NonMixinOwnerUsesLookup | src/main/kotlin/dev/fastmc/remapper/mapping/Remapping.kt:34 | with no `@Mixin` class of the owner's name the plain field lookup answers |
| Remappers.MixinDeclaredField | src/main/kotlin/dev/fastmc/remapper/mapping/Remapping.kt:36-46 | a field the mixin class declares first without `@Shadow` keeps its name; with `@Shadow` it is looked up like the target's field |
| JartoolsRemappers.MapType | src/main/kotlin/dev/fastmc/jartools/mapping/Remapping.kt:18-20 | the non-null `mapType` maps an unmapped class to itself and a mapped one to its nameTo |
| JartoolsRemappers.MapTypeAgrees | src/main/kotlin/dev/fastmc/jartools/Remapping.kt:17-19 | the non-null `mapType` of the `dev.fastmc.jartools` copy agrees with the current generation's nullable one on every name |
| SelfHashMaps.MaskIsMod | src/main/kotlin/dev/fastmc/jartools/util/SelfHashMap.kt:109 | `x and (n - 1)` for n = 2^k is x modulo n |
| SelfHashMaps.MaskNext | src/main/kotlin/dev/fastmc/jartools/util/SelfHashMap.kt:224 | `(pos + 1) and mask` is the next slot of the ring |
| SelfHashMaps.DistFacts | src/main/kotlin/dev/fastmc/jartools/util/SelfHashMap.kt:223-226 | steps along the ring: none from a slot to itself, and distances add and complement |
| SelfHashMaps.OccupiedUpdate | src/main/kotlin/dev/fastmc/jartools/util/SelfHashMap.kt:230-243 | writing one slot changes the occupied count by what leaves and what arrives |
| SelfHashMaps.FindFree | src/main/kotlin/dev/fastmc/jartools/util/SelfHashMap.kt:222 | with fewer entries than slots, a slot is free: the walks end |
| SelfHashMaps.ProbeStep | src/main/kotlin/dev/fastmc/jartools/util/SelfHashMap.kt:223-226 | past an occupied slot the walk rejects, with a free slot not yet passed, the walk moves one step closer to it |
| SelfHashMaps.ProbeMiss | src/main/kotlin/dev/fastmc/jartools/util/SelfHashMap.kt:224 | a walk that ends at a free slot has passed every entry whose walk starts where it started, accepting none |
| SelfHashMaps.WalkMiss | src/main/kotlin/dev/fastmc/jartools/util/SelfHashMap.kt:321-331 | a walk for hash h that ends at a free slot has met every entry with hash h and accepted none |
| SelfHashMaps.KeyMiss | src/main/kotlin/dev/fastmc/jartools/util/SelfHashMap.kt:218-226 | a walk for a key that ends at a free slot shows the key is not stored |
| SelfHashMaps.ProbeHit | src/main/kotlin/dev/fastmc/jartools/util/SelfHashMap.kt:221-225 | a walk that stops at an occupied slot stops at a stored entry, at the slot the table records for it |
| SelfHashMaps.PlaceKeeps | src/main/kotlin/dev/fastmc/jartools/util/SelfHashMap.kt:229-230 | placing an entry in the free slot where its walk stopped keeps the table invariant, with the entry added |
| SelfHashMaps.ReplaceKeeps | src/main/kotlin/dev/fastmc/jartools/util/SelfHashMap.kt:242-243 | overwriting an entry with an equal one keeps the table invariant |
| SelfHashMaps.OpenKeeps | src/main/kotlin/dev/fastmc/jartools/util/SelfHashMap.kt:179-182 | emptying the slot of a stored entry leaves the invariant with that slot as the one hole walks may cross, and the entry removed |
| SelfHashMaps.MoveTest | src/main/kotlin/dev/fastmc/jartools/util/SelfHashMap.kt:280-281 | the test of `shiftKeys` holds exactly when the entry's walk crosses the hole |
| SelfHashMaps.ScanSkip | src/main/kotlin/dev/fastmc/jartools/util/SelfHashMap.kt:281-282 | an entry whose walk does not cross the hole is passed over |
| SelfHashMaps.ScanEnd | src/main/kotlin/dev/fastmc/jartools/util/SelfHashMap.kt:276-278 | when the scan reaches a free slot, emptying the hole restores the invariant without a hole |
| SelfHashMaps.ScanMove | src/main/kotlin/dev/fastmc/jartools/util/SelfHashMap.kt:284 | an entry that crosses the hole moves into it and its old slot becomes the hole; the invariant moves with it |
| SelfHashMaps.PlacedStep | src/main/kotlin/dev/fastmc/jartools/util/SelfHashMap.kt:1082-1086 | the downward scan of `rehash` meets each stored entry once |
| SelfHashMaps.PlacedAll | src/main/kotlin/dev/fastmc/jartools/util/SelfHashMap.kt:1080-1087 | once the scan has counted every entry, all are placed |
| SelfHashMaps.SlotsMapAll | src/main/kotlin/dev/fastmc/jartools/util/SelfHashMap.kt:201-204 | a scan of every slot meets exactly the stored entries |
| SelfHashMaps.AddAllKeys | src/main/kotlin/dev/fastmc/jartools/util/SelfHashMap.kt:192-194 | after adding a sequence, a key is present exactly when it was before or an added entry has it |
| SelfHashMaps.AddAllLast | src/main/kotlin/dev/fastmc/jartools/util/SelfHashMap.kt:192-194 | the entry kept for a key is the last added entry with that key |
| SelfHashMaps.AddAllOthers | src/main/kotlin/dev/fastmc/jartools/util/SelfHashMap.kt:192-194 | a key no added entry has keeps its old entry |
| SelfHashMaps.NextPow2Log | src/main/kotlin/dev/fastmc/jartools/util/SelfHashMap.kt:174 | `nextPowerOfTwo(x)` is the least power of two at least x |
| SelfHashMaps.ArraySizeLog | src/main/kotlin/dev/fastmc/jartools/util/SelfHashMap.kt:107-167 | `arraySize(expected, f)` gives a table of at least two slots with room for `expected` entries and a free slot |
| SelfHashMaps.MaxFill | src/main/kotlin/dev/fastmc/jartools/util/SelfHashMap.kt:110 | `maxFill(n, f)` is always short of n, so a free slot remains |
| SelfHashMaps.TryCapacityLog | src/main/kotlin/dev/fastmc/jartools/util/SelfHashMap.kt:172-175 | the size `tryCapacity` asks for is a power of two between 2 and 2^30 |
| SelfHashMapTables.Walk | src/main/kotlin/dev/fastmc/jartools/util/SelfHashMap.kt:218-226 | the walk ends at the first free slot or the first accepted entry, having passed only rejected entries |
| SelfHashMapTables.SelfHashMap.constructor | src/main/kotlin/dev/fastmc/jartools/util/SelfHashMap.kt:103-112 | a new table is empty and has `arraySize(expected, f)` slots, more than `expected` |
| SelfHashMapTables.SelfHashMap.ContentsKeyed | src/main/kotlin/dev/fastmc/jartools/util/SelfHashMap.kt:35-99 | every stored entry sits under its own key |
| SelfHashMapTables.SelfHashMap.Size | src/main/kotlin/dev/fastmc/jartools/util/SelfHashMap.kt:517-520 | `size` is the number of stored entries |
| SelfHashMapTables.SelfHashMap.IsEmpty | src/main/kotlin/dev/fastmc/jartools/util/SelfHashMap.kt:522-524 | `isEmpty` holds exactly when nothing is stored |
| SelfHashMapTables.SelfHashMap.Find | src/main/kotlin/dev/fastmc/jartools/util/SelfHashMap.kt:214-227 | `find` answers the entry's slot exactly when an equal entry is stored, and otherwise -(p + 1) for the free slot p where the walk ended |
| SelfHashMapTables.SelfHashMap.Get | src/main/kotlin/dev/fastmc/jartools/util/SelfHashMap.kt:302-315 | `get` returns the stored entry equal to the key, or null |
| SelfHashMapTables.SelfHashMap.GetWith | src/main/kotlin/dev/fastmc/jartools/util/SelfHashMap.kt:317-332 | `get(hash, compareFunc)` returns a stored entry the function accepts, and null only when no stored entry of that hash is accepted |
| SelfHashMapTables.SelfHashMap.ContainsKey | src/main/kotlin/dev/fastmc/jartools/util/SelfHashMap.kt:334-347 | `containsKey` holds exactly when an equal entry is stored |
| SelfHashMapTables.SelfHashMap.Rehash | src/main/kotlin/dev/fastmc/jartools/util/SelfHashMap.kt:1075-1092 | `rehash(newN)` moves every entry into a fresh array of newN slots; the entries do not change |
| SelfHashMapTables.SelfHashMap.NextDown | src/main/kotlin/dev/fastmc/jartools/util/SelfHashMap.kt:1082 | `while (key[--i] == null);` stops at the next occupied slot below i |
| SelfHashMapTables.SelfHashMap.Insert | src/main/kotlin/dev/fastmc/jartools/util/SelfHashMap.kt:229-234 | `insert` stores the entry and grows the table once the size reaches `maxFill` |
| SelfHashMapTables.SelfHashMap.Add | src/main/kotlin/dev/fastmc/jartools/util/SelfHashMap.kt:236-245 | `add` stores the entry, replacing and returning an equal one already present, else returning null |
| SelfHashMapTables.SelfHashMap.Put | src/main/kotlin/dev/fastmc/jartools/util/SelfHashMap.kt:247-258 | `put` is `add` when key and value are one object, and otherwise fails its check with the table unchanged |
| SelfHashMapTables.SelfHashMap.PutIfAbsent | src/main/kotlin/dev/fastmc/jartools/util/SelfHashMap.kt:379-386 | `putIfAbsent` returns an equal entry already present and changes nothing, else stores the entry and returns null |
| SelfHashMapTables.SelfHashMap.ShiftKeys | src/main/kotlin/dev/fastmc/jartools/util/SelfHashMap.kt:267-286 | `shiftKeys` closes the gap at the emptied slot and restores the table invariant |
| SelfHashMapTables.SelfHashMap.RemoveEntry | src/main/kotlin/dev/fastmc/jartools/util/SelfHashMap.kt:179-186 | `removeEntry` returns the entry at the slot and removes it, and the table stays valid when it halves |
| SelfHashMapTables.SelfHashMap.Remove | src/main/kotlin/dev/fastmc/jartools/util/SelfHashMap.kt:288-300 | `remove` removes and returns the stored entry equal to the key, or returns null and changes nothing |
| SelfHashMapTables.SelfHashMap.Clear | src/main/kotlin/dev/fastmc/jartools/util/SelfHashMap.kt:511-515 | `clear` empties the table and keeps its size |
| SelfHashMapTables.SelfHashMap.EnsureCapacity | src/main/kotlin/dev/fastmc/jartools/util/SelfHashMap.kt:166-169 | `ensureCapacity` keeps the entries and leaves at least `arraySize(capacity, f)` slots |
| SelfHashMapTables.SelfHashMap.TryCapacity | src/main/kotlin/dev/fastmc/jartools/util/SelfHashMap.kt:171-177 | `tryCapacity` keeps the entries and leaves at least the capped size |
| SelfHashMapTables.SelfHashMap.Presize | src/main/kotlin/dev/fastmc/jartools/util/SelfHashMap.kt:189-199 | the sizing step before `putAll` keeps the entries |
| SelfHashMapTables.SelfHashMap.PutAll | src/main/kotlin/dev/fastmc/jartools/util/SelfHashMap.kt:188-195 | `putAll(collection)` adds each entry in order, a later equal entry replacing an earlier one |
| SelfHashMapTables.SelfHashMap.PutAllFrom | src/main/kotlin/dev/fastmc/jartools/util/SelfHashMap.kt:197-205 | `putAll(SelfHashMap)` adds every entry of the other table, replacing equal ones already here |
| SelfHashMapTables.SelfHashMap.AddSlots | src/main/kotlin/dev/fastmc/jartools/util/SelfHashMap.kt:201-204 | the loop adds the entry of every occupied slot of the other array |
| SelfHashMapTables.PlaceNew | src/main/kotlin/dev/fastmc/jartools/util/SelfHashMap.kt:1083-1086 | one step of `rehash` stores the entry at the first free slot of its walk in the new array |
| SelfHashMapTables.ShiftSlots | src/main/kotlin/dev/fastmc/jartools/util/SelfHashMap.kt:273-285 | the loops of `shiftKeys` move back every later entry whose walk would cross the hole, then empty the last hole |
| SelfHashMapTables.Scan | src/main/kotlin/dev/fastmc/jartools/util/SelfHashMap.kt:275-283 | the inner loop passes over entries whose walk does not cross the hole, and stops at a free slot or at an entry that must move |
| SelfHashMapTables.HalfSize | src/main/kotlin/dev/fastmc/jartools/util/SelfHashMap.kt:184 | a table of more than 16 slots halves to a power of two of at least 2 |
| SubclassInfos.Named | src/main/kotlin/dev/luna5ama/jartools/util/SubclassInfo.kt:15 | `associateBy` keeps the last node of each name, and answers nothing for a name no node has |
| SubclassInfos.Register | src/main/kotlin/dev/luna5ama/jartools/util/SubclassInfo.kt:23-31 | `subclasses.add` on each parent's list keeps the number of lists |
| SubclassInfos.RegisterHas | src/main/kotlin/dev/luna5ama/jartools/util/SubclassInfo.kt:18-35 | a node is in a parent's list exactly when it was already there or is the child and the parent is one of its parents |
| SubclassInfos.InterfaceParentsHas | src/main/kotlin/dev/luna5ama/jartools/util/SubclassInfo.kt:28-33 | the interface parents are exactly the nodes some listed interface names |
| SubclassInfos.SubclassEdge | src/main/kotlin/dev/luna5ama/jartools/util/SubclassInfo.kt:18-35 | node x is in the list of node p exactly when p is the last node of its name and x extends it, `java/lang/Object` aside, or lists it among its interfaces |
| SubclassInfos.AddToParents | src/main/kotlin/dev/luna5ama/jartools/util/SubclassInfo.kt:19-34 | the first `forEach` body adds the node to its super class's list, then to each interface's |
| SubclassInfos.AddToInterface | src/main/kotlin/dev/luna5ama/jartools/util/SubclassInfo.kt:29-32 | one interface step adds the child to that interface's list when it names a node |
| SubclassInfos.AddChild | src/main/kotlin/dev/luna5ama/jartools/util/SubclassInfo.kt:23-31 | `subclasses[p].add(child)` appends the child to p's list and changes nothing else |
| SubclassInfos.BuildEdges | src/main/kotlin/dev/luna5ama/jartools/util/SubclassInfo.kt:18-35 | the first loop builds every node's subclass list, in input order |
| SubclassInfos.Start | src/main/kotlin/dev/luna5ama/jartools/util/SubclassInfo.kt:6-44 | a node with no super class other than `java/lang/Object` and no interfaces starts at depth 0, any other at `Int.MIN_VALUE` |
| SubclassInfos.Inc | src/main/kotlin/dev/luna5ama/jartools/util/SubclassInfo.kt:52 | `depth + 1` wraps from `Int.MAX_VALUE` to `Int.MIN_VALUE` |
| SubclassInfos.Relax | src/main/kotlin/dev/luna5ama/jartools/util/SubclassInfo.kt:51-56 | one step only raises a depth |
| SubclassInfos.Pass | src/main/kotlin/dev/luna5ama/jartools/util/SubclassInfo.kt:49-58 | one run of the loop body only raises depths |
| SubclassInfos.PotentialDrops | src/main/kotlin/dev/luna5ama/jartools/util/SubclassInfo.kt:47-59 | a pass that raises a depth lowers the remaining room, so the loop ends |
| SubclassInfos.Fix | src/main/kotlin/dev/luna5ama/jartools/util/SubclassInfo.kt:46-59 | the loop keeps one depth per node |
| SubclassInfos.RelaxChildren | src/main/kotlin/dev/luna5ama/jartools/util/SubclassInfo.kt:50-57 | the steps on p's subclasses, in place, compute the value-level steps, and report exactly whether a depth rose |
| SubclassInfos.RunPass | src/main/kotlin/dev/luna5ama/jartools/util/SubclassInfo.kt:48-58 | one run of the loop body, in place, computes the value-level pass, and `updated` says exactly whether a depth rose |
| SubclassInfos.ComputeDepths | src/main/kotlin/dev/luna5ama/jartools/util/SubclassInfo.kt:46-59 | the `while (updated)` loop computes the depths the passes settle on |
| SubclassInfos.StillClosed | src/main/kotlin/dev/luna5ama/jartools/util/SubclassInfo.kt:47 | a pass that changes nothing ends the loop on depths no step would raise |
| SubclassInfos.FixClosed | src/main/kotlin/dev/luna5ama/jartools/util/SubclassInfo.kt:46-59 | the depths only grow, and the loop stops on depths no further step would raise |
| SubclassInfos.FixLeast | src/main/kotlin/dev/luna5ama/jartools/util/SubclassInfo.kt:46-59 | the loop never overshoots a closed choice of depths above the start that stays below `Int.MAX_VALUE` |
| SubclassInfos.FixKeepsUntargeted | src/main/kotlin/dev/luna5ama/jartools/util/SubclassInfo.kt:46-59 | a node in no list keeps the depth it starts with |
| SubclassInfos.ByDepthAntisymmetric | src/main/kotlin/dev/luna5ama/jartools/util/SubclassInfo.kt:61-63 | comparing infos by depth is antisymmetric |
| SubclassInfos.GetSubclassInfo | src/main/kotlin/dev/luna5ama/jartools/util/SubclassInfo.kt:14-64 | the lists, then the depth loop, then the stable sort by depth compute the infos |
| SubclassInfos.InfosSorted | src/main/kotlin/dev/luna5ama/jartools/util/SubclassInfo.kt:61-63 | the infos are the nodes' infos rearranged, in ascending depth |
| SubclassInfos.DepthFacts | src/main/kotlin/dev/luna5ama/jartools/util/SubclassInfo.kt:36-59 | each final depth is at least its start, a subclass is deeper than its parent unless the parent sits at `Int.MAX_VALUE` |
| SubclassInfos.RootAtZero | src/main/kotlin/dev/luna5ama/jartools/util/SubclassInfo.kt:36-44 | a root that is in no list stays at depth 0 |

## Left out

- Network downloads, zip reading, the on-disk mapping cache and its per-file locks are not modelled. A provider that reads a file or waits on another task is a given stage (the `Given` variant of `PipelineSequences.Stage`) holding its mapping. `MD5Hash.kt` is not part of this model.
- Coroutines, `async`, `Mutex` and `Channel` are not modelled. Stages run one after another, and a cache is a field set after the first run. When several parallel tasks fail, which failure is reported first is not modelled.
- Bytecode reading and writing (ASM `ClassReader`/`ClassWriter`/visitors) are not modelled. A class is a record of its name, super name, interfaces, fields with annotations, and methods with annotations (`Asm`). The asmkt `visit`/`visitArray` helpers are taken to act at once on matching values.
- Gson output of the refmap JSON and the patching of the mixin configuration are not modelled. The refmap is a map from mixin class to a sorted map from reference to mapped reference.
- The regular expressions are written out as matchers for their fixed patterns (`Patterns`), because Kotlin's regex engine is outside the model.
- `HashCommon.mix`, `arraySize` and `maxFill` are fastutil internals, so the tables take `mix` as a parameter. The `SelfHashMap` load factor and `ceil` sizing are kept only as a capacity n that is a power of two with maxFill < n.
- Java's `String.hashCode` is modelled over UTF-16 code units taken as `char % 0x10000`, so a character outside the Basic Multilingual Plane counts as one unit, its low 16 bits, and not as a surrogate pair.
- MappingNames.McpOfString: `String.toInt()` is modelled over ASCII digits (`Text.ParseInt`). On the JVM `Integer.parseInt` also accepts the other Unicode decimal digits of the Basic Multilingual Plane, such as the Arabic-Indic `٣`, which the model rejects. So "exactly when the version reads as an Int" holds only for versions written in ASCII.
- McVersions.ParseParts: reads its components with the same ASCII-only `Text.ParseInt`, with the same gap; `McVersions.ReleaseParse` and `McVersions.ReleaseRoundTrip` are unaffected, since printed numbers are ASCII.
- Refmaps.LowerFirst: `Char.lowercaseChar` is modelled on `A`-`Z` only (`Text.LowerChar`). Kotlin lowers every Unicode upper-case letter, so for `getÄpfel` the source derives the field `äpfel` and the model `Äpfel`. `Refmaps.DerivedNames`, `Refmaps.AccessorStep`, `OldRefmaps.AccessorEntry` and `OldRefmaps.DerivedLowersStripped` derive names through it and share the gap.
- The iteration order of `forEachFast`, `values` and `entries` over hash tables is a parameter: any order that lists each entry once. Results that depend on it are stated for the order given.
- `SelfHashMap` extras are not modelled: `containsValue`, `getOrDefault`, `compute*`, `merge`, `replace`, the `Map` view classes and their iterators, `trim`, `clone` and `hashCode`. The operations the mappings use are modelled: find, get, get by hash and comparator, add, put, putIfAbsent, remove, clear, rehash, ensureCapacity and putAll.
- `dev.fastmc.jartools.mapping`'s own `Mapping.kt` is not part of this model. Its remappers, stages and parsers are modelled over the current generation's fingerprint tables (`Mappings`), whose `backingMap.forEachFast` they iterate.
- Remappers.MapMethodName, Remappers.MapFieldName and Remappers.MixinMapFieldName also stand for the `AsmRemapper` of `dev.fastmc.jartools` (its `Remapping.kt`, lines 9-15) and for the `AsmRemapper`/`MixinRemapper` of `dev.fastmc.jartools.mapping` (its `Remapping.kt`, lines 10-46). Those are the same code over the same table model, so the rows above cite the current generation's lines only. Only `mapType`, which there takes and returns a non-null name, has members of its own (`JartoolsRemappers`).
- PipelineSequences.Sequence.Get and PipelineSequences.NewSequence also stand for `SequenceMappingProvider` in `dev.fastmc.jartools.mapping`'s `MappingProvider.kt` (lines 130-162), which is the same code as `SequenceMappingPipeline`.
- `dev.fastmc.jartools.util.SubclassInfo` is not part of this model. The `dev.luna5ama.jartools.util.SubclassInfo` it descends from stands in for it (`SubclassInfos`).
- The hex helpers in `dev.fastmc.remapper.util` are not part of this model. The current cache format uses the `dev.fastmc.jartools.util.HexUtils` codec in their place (`Hex`). The `visitValue` helpers there are not part of this model either.
- `GenerateRefmapStage.remapMixinTarget` of `dev.fastmc.jartools.pipeline` (its lines 71-113) rewrites the target `ClassNode` and is not modelled. Its `run` computes the refmaps (`OldRefmaps.GenerateRefmaps`) but never writes them out, so no output is modelled for it.
- ExternalParsers.TinyMethodRow: the current generation's Tiny method row reads (name, desc, nameTo) from columns 1-3, while `dev.fastmc.jartools` reads the name from column 2 and the desc from column 1 (`JartoolsParsers`). Both are modelled as written. No format reference is available to decide which one is intended, so this is not claimed as a finding.
- MappingTransforms.MapWith follows the code: a field or method whose nameTo the other mapping lacks is an error (Kotlin's `!!`), not a pass-through. Member names are looked up with the other mapping's class-level `getNameTo`, as the code does.
- The TSRG parser of `dev.fastmc.jartools.remap` discards the class target name (nameTo = nameFrom), as the code does (`OldProviders.Tsrg`).
- OldCacheFormat.Step: a class row that repeats a name already read keeps the first class of that name, and the member rows after it are dropped (`Orphan`). In the source classes compare by identity, so `mapping.add` stores the second class as a further entry of the table and those rows go to it; a lookup by name then answers one of the two, depending on the table's layout.
- OldCacheFormat.Read: inherits the gap of `OldCacheFormat.Step` for a repeated class row. It also stores each row's hash as its digits give it (`split[2].toHexInt()`), and the model's lookups find an entry by name whatever hash it stores. Lookups therefore agree with the source only for mappings whose stored hashes are the ones their names give (`OldMappings.Hashed`), which is what the writer prints. For a row whose digits disagree with its name's hash, `SelfHashMap` places the entry by the stored hash but probes from the name's hash, so the source may miss an entry the model finds.
- OldMappings.GetField: looks a field up by its name alone. `SelfHashMap.get` probes from the hash of the name and confirms with the comparator, so the two agree when every entry's stored hash is its name's hash (`OldMappings.Hashed`). `OldMappingTables` hashes every entry by its name, so its tables hold only such entries, and it proves their lookups equal to these.
- OldMappings.GetMethod: looks a method up by name and descriptor alone, with the same condition as `OldMappings.GetField`.
- OldMappings.GetClass: looks a class up by its name alone, with the same condition as `OldMappings.GetField`.
- OldCacheRoundTrip.ReadClassRow: states the reading of a repeated class row as `OldCacheFormat.Step` models it, with the same gap. The round trip (`OldCacheRoundTrip.RoundTrip`) is not affected, since the printout of a table keyed by name repeats no class name.
- OldCacheRoundTrip.ReadBlock: a block whose class name was read before is dropped, where the source stores its class as a further entry.
- OldCacheRoundTrip.ReadBlocks: only the first class of each name is kept, where the source stores each repeated class as a further entry.
- OldMappings.AddAll: `MappingEntry.Class` has no `equals`, so `SelfHashMap.putAll` compares classes by identity. A distinct class object whose name the table already holds is stored as a second entry, and a lookup by name answers whichever of the two its probe meets first. That is the earlier one until a rehash, which re-places entries from the top slot down, may swap them. The model holds one class per name and lets the other table's class replace it. The two agree when the tables hold the same class objects, as a subclass or mixin stage's result and the mapping it was handed do.
- OldMappingTables.AddAllIn: computes `OldMappings.AddAll`, with the same gap.
- OldProviders.MergeAll: the merge of the stages' results inherits the gap of `OldMappings.AddAll`. When two results hold distinct class objects of one name, such as two `TsrgMappingProvider`s whose files both list a class, the source keeps both and a lookup answers one of them by table layout, while the model answers the later one.
- OldProviders.Merge: computes `OldProviders.MergeAll`, with the same gap.
- OldProviders.SequenceMappingProvider.Get: returns `OldProviders.MergeAll` of the results, with the same gap. `OldProviders.MergeLastWins` is stated only for a class the results share as one object, and `OldProviders.DerivedSequence` only for sequences whose later stages build on the result before them.
- The current generation is modelled on its corrected code. `Mappings` and the modules built on its tables (`ClassHeaps`, `ClassEntries`, `MappingTransforms`, `CacheFormat`, `CacheRoundTrip`, `ExternalParsers`, `JartoolsParsers`, `Refmaps`, `Descriptors`, `Remappers`, `JartoolsRemappers`, `Pipelines`, `PipelineSequences`) use the corrected class fingerprint (`Mappings.ClassHash`, prefix word and string hash kept apart). Every table there is a map from fingerprint to entry. That is the corrected `BackingMap`: it never drops an entry, never breaks a probe chain and keeps its size right. For two class names whose fingerprints as written collide, for an add whose probe runs out, and after a `remove` or `retainAll`, these members compute what the corrected code does. `MappingFindings` and `BackingMapFindings` model the code as written for those cases.
- The `dev.fastmc.jartools` refmap stage and the `dev.luna5ama.jartools` sequence provider are modelled on their corrected code too. The lines below name each member this affects; `OldRefmaps.AsWrittenNameValue`, `OldRefmaps.AsWrittenTargetClasses` and `LunaProviders.MergeAllAsWritten` model the code as written, and the Findings rows show where the two differ.
- OldRefmaps.InvokerStep: reads an `@Invoker` without elements as having no `value` (`Refmaps.InvokerValue`). As written, `annotation.values.size` is read while ASM leaves `values` null, so the stage throws (GenerateRefmapStage.kt:224); `OldRefmaps.ElementlessAnnotationThrows` states that.
- OldRefmaps.AccessorStep: reads an `@Accessor` without elements as having no `value`. As written the stage throws there in the same way (GenerateRefmapStage.kt:259).
- OldRefmaps.ClassStep: looks the `value` target classes up under their internal names (`Refmaps.TargetClasses`). As written they are looked up under `Type::getClassName`'s dotted names, so a target class in a package throws "Cannot find mapping" (GenerateRefmapStage.kt:51-57); `OldRefmaps.DottedValueTargetThrows` states that.
- OldRefmaps.GenerateRefmaps: computes the refmaps of the corrected `OldRefmaps.ClassStep`, `OldRefmaps.InvokerStep` and `OldRefmaps.AccessorStep`, so it has their gaps.
- LunaProviders.SequenceMappingProvider.Get: merges the results with the corrected `LunaProviders.MergeAll`, which keeps a class's names. As written, `mergeMapping` (Mapping.kt:185-190) gives a class new to the merge its own name as nameTo; `LunaProviders.SequenceDropsRename` shows a sequence that loses a rename that way.
- LunaProviders.Merge: computes the corrected `LunaProviders.MergeAll`, with the same gap.
- LunaProviders.MergeOfCovering: proved of the corrected merge only. As written, a class that the first result renames comes out mapped to its own name.
- LunaProviders.DerivedSequence: proved of the corrected merge only. As written, a subclass sequence handed `k -> t` returns `k -> k` (`LunaProviders.SequenceDropsRename`).
- ExternalParsers.ClassRowGrows and ExternalParsers.MemberRowGrows: the JVM `assert`s in the parsers are off by default, so they are not failures. These lemmas state when the asserted facts hold.
- Pipelines.SubclassPipelineGet and Pipelines.SubClassProviderGet state the value-level result only for a previous mapping whose entries sit under their own fingerprints (`Fingerprinted`). `Pipelines.MixinPipelineGet` and `Pipelines.MixinProviderGet` state it only for a mapping keyed by class name (`Keyed`). For other mappings they state the frame and the sharing only.
- PipelineSequences.Sequence.Get, PipelineSequences.Cached.Get: on failure they state that the cache is unchanged, but not the state of the tables a stage had already updated.
- OldProviders and LunaProviders: the entry objects a hand-over shares between the previous mapping and the result are modelled as values. A later in-place change to one is therefore not seen through the other.
- LunaMappings: the member lists are modelled as the sequence of entries appended. Only the maps are used by lookups, so the lists are proved about separately. Luna entries' `hashCode`/`equals` are the data equality of the value types.
- The `MappingName.kt` and `MappingType.kt` enumerations carry no behaviour beyond the identifiers, equality and order modelled in `MappingNames` and `OldMappingNames`.

## Findings

| source | as written | input that shows it | evidently intended | confidence | as-written member | corrected member |
|---|---|---|---|---|---|---|
| src/main/kotlin/dev/fastmc/remapper/mapping/BackingMap.kt:119-122 | `rehash(shift)` raises `bits` by one whatever the shift, so `ensureCapacity` computes its next shift from a wrong `bits` | `ensureCapacity(9)` twice on a fresh table leaves 0 slots and threshold 0 | `bits` grows by `shift` | not executed | BackingMapFindings.EnsureCapacityTwiceAsWritten | BackingMapTables.BackingMap.Rehash |
| src/main/kotlin/dev/fastmc/remapper/mapping/BackingMap.kt:233-252 | `internalAdd` reports true only when the first slot probed was empty | with identity `mix`, `add(16)` then `add(32)`: 32 is stored one step into the probe, yet `add` returns false | true whenever the entry is newly stored | not executed | BackingMapFindings.AddResultCounterexample | BackingMapTables.BackingMap.InternalAdd |
| src/main/kotlin/dev/fastmc/remapper/mapping/BackingMap.kt:242-247 | a probe that runs out calls `rehash(1)` and drops the entry | in the table holding 16 and 32, `add(0)` exhausts its probe and 0 is not stored | grow the table and retry until the entry is placed | not executed | BackingMapFindings.AddDropsCounterexample | BackingMapTables.BackingMap.InternalAdd |
| src/main/kotlin/dev/fastmc/remapper/mapping/BackingMap.kt:418-425 | `remove` empties the matched slot, breaking the probe chains through it, and leaves `size` unchanged | removing 16 from the table holding 16 and 32 leaves 32 unreachable and the size at 2 | every other entry stays reachable and the size drops by one | not executed | BackingMapFindings.RemoveCounterexample | BackingMapTables.BackingMap.Remove |
| src/main/kotlin/dev/fastmc/remapper/mapping/BackingMap.kt:385-408 | `retainAll` empties the rejected slots and rebuilds nothing | retaining all but 16 in the same table loses 32 | the kept entries stay reachable | not executed | BackingMapFindings.RetainCounterexample | BackingMapTables.BackingMap.RetainAll |
| src/main/kotlin/dev/fastmc/remapper/mapping/Mapping.kt:263-269 | the class fingerprint ORs the sign-extended `String.hashCode` into the prefix word, so a negative hash erases the prefix | "abcdefg" and "abcdegH" share a negative hash and get the same fingerprint | prefix in the high word, hash in the low word | not executed | MappingFindings.ClassHashCollision | Mappings.ClassHashInjective |
| src/main/kotlin/dev/fastmc/jartools/util/HexUtils.kt:93-100 | `ByteArray.toHexInt` ORs sign-extended bytes; latent, since no code in the sources calls it (the cache reader uses its own `String.toHexInt`) | the bytes 00 00 00 FF read as 0xFFFFFFFF | the big-endian value, 255 | not executed | HexBytes.BytesToHexIntSmears | HexBytes.BytesToIntValue |
| src/main/kotlin/dev/fastmc/jartools/pipeline/GenerateRefmapStage.kt:50-57 | `value` targets are looked up under the dotted `Type.getClassName` while the mapping is keyed by internal names | `@Mixin(a.B.class)` whose class the mapping holds as `a/B` throws | look the class up by its internal name | not executed | OldRefmaps.DottedValueTargetThrows | OldRefmaps.InternalNameTargetFound |
| src/main/kotlin/dev/fastmc/jartools/pipeline/GenerateRefmapStage.kt:223-258 | an `@Invoker` or `@Accessor` without elements throws on the absent `values` list | `@Invoker` with no elements on `invokeFoo` | derive the name from the method or field name | not executed | OldRefmaps.ElementlessAnnotationThrows | OldRefmaps.ElementlessInvokerDerived |
| src/main/kotlin/dev/fastmc/jartools/remap/Mapping.kt:289-298 | the two-argument `MutableClassImpl` passes its not-yet-computed hash cache, 0, to the hashed constructor; latent, since every caller in the sources passes the hash | the class "a" reports hash 0, while lookups for "a" probe from 97 | report `Class.hash(nameFrom)` | not executed | OldMappings.TwoArgClassHashZero | OldMappings.NewClassTwoArg |
| src/main/kotlin/dev/luna5ama/jartools/remap/Mapping.kt:185-194 | `mergeMapping` creates a missing class with nameTo = its key and never copies `b`'s class name | merging `{a: a -> b}` into an empty mapping gives `a -> a`, and a sequence of providers drops the rename the same way | copy `b`'s class nameTo for a class new to `a` | not executed | LunaMappings.MergeMappingLosesRename | LunaMappings.MergeKeepsNames |
