# A verified model of the mod merger

The program merges mods of one game.  Every mod changes a few documents; the merger records what each changes against the
game's own document, replays the records on one base, stores the result, and decides which mods contradict each other.  It also
brings its own heap, puts the mods' code modules into a folder it shares with others, and rebuilds archives.  This project models
these parts and proves what they are meant to keep.

**Documents** (`Documents`).  A BYML document is a tree of scalars, arrays, maps by name and maps by 32 or 64 bit hash; changelogs
are documents with two more kinds of node, a mark for a removed key and a list of array changes.

**Changelogs and merging.**
`Changelogs` defines what a document changes with respect to another, by position, by key or by value for arrays;
`ChangelogBuilder` is the code that makes it in place, proved to make exactly that.
`Pending` defines merging and settling on trees that carry what is still to be done at each node.
`Views`, `TrackingSteps`, `Settlement`, `Heights` and `Tracking` (module `PathTracking`) are the code that keeps it by path from
the root, replays it keys first and then arrays deepest first, and the proof that this equals the one pass over the tree.
`RoundTrip` and `RoundTripLaws` prove that a document's changelog merged onto vanilla gives the document back, `ValueArrays` says
exactly when that holds for arrays compared by value, `PositionArrays` for arrays compared by position.  `KeyedSplice`,
`KeyedOrder` and `KeyedReturn` say in what order the rows of an array compared by key come back, `ValueOrder` the entries of one
compared by value.  `NameTables` is about the lookups of key names: the default one for making changelogs and the two for save data
rows agree with merging on rows compared by key.
`Splice`, `KeyedRows`, `KeyFields`, `KeyedInserts` and `KeyedOutcome` are about the rows several changelogs add to one array,
`MergedRows` and `AddedRows` about what is in the row left for a key, `RemovedRows` about which of the rows that were there stay,
`RowEdits` about which row an edit is for, `JoinedArrays` about whole arrays under one name, `NamedArrays` about documents that
are one array.
`LastWriter` is about many changelogs of maps and scalars, `Slots`, `Commuting`, `Conflicts`, `ConflictLaws` and `AnyOrder` about
which changelogs contradict each other, and when the order of merging makes no difference; `RowConflicts` is about rows two mods
change.

**The binary format.**
`BymlFormat` says what the bytes of a container are once its children have offsets, and how a node is read.
`BymlTables`, `BymlWriter` and `BymlDocument` are the writer: tables, bodies with room for offsets, children written once each and
found again by hash, slots filled in, header last.
`BymlReading` proves that every node is read back at its offset, `BymlSharing` that slots hold one offset exactly when they lead
to equal nodes.  `BymlSamples` reads small documents byte by byte.
`SortedVectors` is the sorted vector that maps are kept in.

**The save data schema.**
`GameData` says what becomes of one row of a table from its own history; `GameDataMerge` and `GameDataResult` are the code that
merges changelogs into a table, `GameDataTables` does so for all tables, `GameDataLog` is the code that makes changelogs, with the
table coming back.  `RowHistories` and `SavedVersions` say what a row holds in the end.

**The heap** (`HeapModel`, `HeapReuse`, `PluginHeap`): size classes cut from mapped chunks, freed blocks linked through themselves
and handed out again, and `trim`, which gives chunks back.

**The folder of code modules** (`ExefsNames`, `ExefsFolder`): eight names, a list that may be lost or stale, other people's files,
and file calls that may fail.

**Archives and stored frames** (`Alignment`, `Archives`, `ArchiveFiles`, `ArchiveHashes`, `StoredFrames`, `ArchiveSamples`): aligned
layout rebuilt byte for byte, and frames of stored blocks decoded by section 3.1.1 of RFC 8878.

## What the code does not keep

- The header of `code.rs` says files not listed are never touched.  When the folder cannot be listed, all eight names count as
  free and the wanted modules are written over whatever has the first names: `ExefsFolder.OwnModuleLost`, and exactly when in
  `ExefsFolder.KeptUnlessInTheWay` and `ExefsFolder.Folder.Install`.
- An array known by a name whose first recorded change is a removal loses its name, so rows several mods add under one key all
  stay: `KeyedOutcome.RemovalFirstKeepsBoth`, and exactly when one row is left for each key in `KeyedOutcome.OneRowForEachKeyIff`.
- A row put into an array compared by key after one the mod removed comes back before the row it followed:
  `KeyedReturn.MisplacedAfterRemoval`, and exactly when the order is kept in `KeyedReturn.KeyedArrayBackIff`.
- Of rows two mods add under one key the one recorded at the larger index decides, not the later mod's: `AddedRows.TwoModsOneRow`.
- Two mods of which nothing is reported need not merge to the same document in either order.  The conflict scan does not see an
  added empty map, `ConflictLaws.EmptyMapUnseen`, and with names free of slashes, none empty at the root, that is all it misses:
  `ConflictLaws.UnreportedMergeEitherWayIff`.  Nor does it see what an empty name at the root or a name with a slash hides:
  `ConflictLaws.EmptyNameUnseen`, `ConflictLaws.SlashUnseen`.  Whatever the names, the order makes no difference exactly when the
  changelogs are compatible: `Commuting.CommuteIff`, and `AnyOrder.EveryOrder` for any number of them.
- An array right in a save data row is compared by position, but rows added to it are merged by key if merging has one for its name;
  rows that share it come back as one: `PositionArrays.TwoRowsBecomeOne`, and exactly when in `NameTables.SaveRowsByPosition`.
- A map that becomes a map of another kind makes a changelog that cannot be merged: `RoundTripLaws.MapDocumentsComeBackIff`.
- An array compared by value can come back with an entry twice and another lost: `ValueArrays.EditedTwice`, and exactly when in
  `ValueArrays.ValueArrayComesBackIff`.  What is added in several places comes back in one: `ValueOrder.TwoPlacesJoined`.
- A row the mod removed stays in the merged table if the mod has a hash twice or a row without one:
  `GameDataLog.DuplicateHidesRemoval`, `GameDataLog.HashlessHidesRemoval`, and exactly when in `GameDataLog.RemovedIffNotMadeUp`
  and `GameDataLog.MissingRowStaysIff`.
- A document whose root fits in a slot is written without it and cannot be parsed: `BymlDocument.InlineLost`.  A root that is
  binary or a wide number is written without its type, so its first byte is taken for it: `BymlDocument.ZeroRootLost`, and exactly
  which roots come back in `BymlDocument.ParsedIff`.

## Model

| member | source | states |
|---|---|---|
| `HeapModel.ClassFits` | totk-mod-merger-plugin/src/alloc.rs:136-140 | a class is found exactly for layouts of at most 16 MiB aligned to at most a page; its blocks hold the layout, the next smaller class would not, and any address on the class's boundary is aligned as the layout asks |
| `HeapModel.ChunkAt` | totk-mod-merger-plugin/src/alloc.rs:143-147 | the slot found is the first whose chunk holds the address, and none before it does |
| `HeapModel.NextShift` | totk-mod-merger-plugin/src/alloc.rs:137 | the result is the exponent of the least power of two not below the size |
| `HeapModel.Survivors` | totk-mod-merger-plugin/src/alloc.rs:316-333 | the free list `trim` leaves holds exactly the old blocks outside the empty chunks |
| `HeapModel.CarveSpot` | totk-mod-merger-plugin/src/alloc.rs:159-167 | where the next block is cut: inside a mapped chunk, on its boundary, over no block handed out or freed before |
| `HeapModel.AllocateGives` | totk-mod-merger-plugin/src/alloc.rs:149-172 | what a caller gets: a block of its class inside a mapping and on its boundary, apart from every block in use, with no word of memory touched; or nothing, and then only the note that the kernel refused is new |
| `HeapModel.GivesApart` | totk-mod-merger-plugin/src/alloc.rs:149-172 | a block newly handed out overlaps no block in use |
| `HeapModel.NewChunkIsElsewhere` | totk-mod-merger-plugin/src/alloc.rs:174-198 | a chunk the kernel grants overlaps no chunk there is |
| `HeapModel.LiveIsNotInEmpty` | totk-mod-merger-plugin/src/alloc.rs:297-305 | no block in use lies in a chunk `trim` may unmap |
| `HeapModel.WriteKeeps` | totk-mod-merger-plugin/src/alloc.rs:149-205 | whatever a client writes into blocks it holds, the heap stays consistent: the links are elsewhere |
| `HeapModel.PushKeeps` | totk-mod-merger-plugin/src/alloc.rs:200-204 | releasing a block keeps the invariant: lists acyclic and disjoint, counters exact |
| `HeapModel.PopKeeps` | totk-mod-merger-plugin/src/alloc.rs:150-157 | taking a freed block keeps the invariant |
| `HeapModel.CarveKeeps` | totk-mod-merger-plugin/src/alloc.rs:159-171 | cutting a block off the bump region keeps the invariant |
| `HeapModel.MapKeeps` | totk-mod-merger-plugin/src/alloc.rs:186-197 | mapping a chunk keeps the invariant |
| `HeapModel.TrimKeeps` | totk-mod-merger-plugin/src/alloc.rs:290-350 | after `trim`, whichever unmaps are refused, every list is the old one in order minus the blocks of the empty chunks, and neither a link nor the bump region is in an unmapped chunk |
| `HeapModel.StepKeeps` | totk-mod-merger-plugin/src/alloc.rs:142-350 | every operation, kernel answer and client write keeps the invariant |
| `HeapModel.RunsAreSafe` | totk-mod-merger-plugin/src/alloc.rs:142-350 | every state of every run is consistent: blocks in use apart, inside mappings and on their boundaries; lists acyclic, disjoint from each other, from blocks in use and the bump region; each counter the number of its chunk's blocks in use |
| `PluginHeap.Heap.constructor` | totk-mod-merger-plugin/src/alloc.rs:92-101 | an empty heap is consistent |
| `PluginHeap.Heap.ChunkIndex` | totk-mod-merger-plugin/src/alloc.rs:143-147 | finds the slot of the chunk an address lies in, if any |
| `PluginHeap.Heap.Grow` | totk-mod-merger-plugin/src/alloc.rs:174-198 | the new state is that of the model's growth, and it reports whether a chunk was mapped |
| `PluginHeap.Heap.Count` | totk-mod-merger-plugin/src/alloc.rs:153-155 | one counter changes by one: that of the chunk holding the address |
| `PluginHeap.Heap.Allocate` | totk-mod-merger-plugin/src/alloc.rs:149-172 | the new state and the pointer are those of the model's allocation |
| `PluginHeap.Heap.PopBlock` | totk-mod-merger-plugin/src/alloc.rs:150-157 | the head of the class's list is taken off and counted |
| `PluginHeap.Heap.CarveBlock` | totk-mod-merger-plugin/src/alloc.rs:159-171 | the block is cut at the next boundary, in a new chunk if it does not fit |
| `PluginHeap.Heap.Release` | totk-mod-merger-plugin/src/alloc.rs:200-204 | the block's first word links to the list it now heads, and its chunk counts one less |
| `PluginHeap.Heap.Trim` | totk-mod-merger-plugin/src/alloc.rs:290-350 | the new state is a trimmed one; the two numbers returned count the chunks given back and those still mapped; with no empty chunk nothing changes |
| `PluginHeap.Heap.FindEmpty` | totk-mod-merger-plugin/src/alloc.rs:298-305 | marks exactly the mapped chunks without a block in use |
| `PluginHeap.Heap.UnlinkAll` | totk-mod-merger-plugin/src/alloc.rs:316-333 | every free list loses exactly the blocks of the empty chunks |
| `PluginHeap.Heap.Unlink` | totk-mod-merger-plugin/src/alloc.rs:317-332 | one free list loses exactly the blocks of the empty chunks, the others stay |
| `PluginHeap.Heap.WalkList` | totk-mod-merger-plugin/src/alloc.rs:318-332 | the walk with a trailing pointer relinks the blocks that stay |
| `PluginHeap.Heap.InEmptyChunk` | totk-mod-merger-plugin/src/alloc.rs:311-314 | whether an address lies in an empty chunk |
| `PluginHeap.Heap.Unmap` | totk-mod-merger-plugin/src/alloc.rs:335-346 | each empty chunk not refused is forgotten, and the bump region too when it is in or next to an empty one |
| `PluginHeap.Heap.Mapped` | totk-mod-merger-plugin/src/alloc.rs:348 | counts the chunks still mapped |
| `HeapReuse.ReleasedIsNext` | totk-mod-merger-plugin/src/alloc.rs:149-157 | a released block is the next of its class handed out, and that undoes the release but for the link the block held (also lines 200-204) |
| `HeapReuse.RefusedIff` | totk-mod-merger-plugin/src/alloc.rs:149-198 | a block is refused exactly when none of its class was freed, the bump region has room at no boundary, and a chunk was refused before, no slot is left for one or the kernel refuses now |
| `HeapReuse.ComesFrom` | totk-mod-merger-plugin/src/alloc.rs:149-172 | where a block comes from: the freed one of its class released last, else the first boundary with room in the bump region, else the start of a new chunk (also lines 186-197) |
| `HeapReuse.TrimGivesBack` | totk-mod-merger-plugin/src/alloc.rs:290-350 | after `trim` a chunk is mapped exactly when a block in use lies in it or the kernel kept it, and a later refusal needs the kernel to refuse again or all slots to be taken (also lines 174-198) |
| `Changelogs.IndexInRange` | sharedlibs/totk-merge/src/byml_keys.rs:127-144 | every position in the index is that of a row with the key it is listed under |
| `Changelogs.RowChange` | sharedlibs/totk-merge/src/byml_changelog.rs:199-228 | what one row contributes to a keyed changelog: an addition when vanilla has no row with its key, else an edit of that row or nothing |
| `Changelogs.FirstFree` | sharedlibs/totk-merge/src/byml_changelog.rs:155-158 | the entry found is equal and not taken, and none before it is both; past the end there is none |
| `ChangelogBuilder.TrackingInfo.LogChanges` | sharedlibs/totk-merge/src/byml_changelog.rs:45-73 | the changelog made in place, and whether there is nothing to record, are those of the definition; the depth is restored |
| `ChangelogBuilder.TrackingInfo.LogMapChanges` | sharedlibs/totk-merge/src/byml_changelog.rs:75-112 | the map that is emptied and refilled ends up with exactly the keys that differ, removal marks for those missing |
| `ChangelogBuilder.TrackingInfo.LogKey` | sharedlibs/totk-merge/src/byml_changelog.rs:87-108 | one key is taken out, compared and put back if there is something to record |
| `ChangelogBuilder.TrackingInfo.LogEntry` | sharedlibs/totk-merge/src/byml_changelog.rs:97-103 | arrays under a name are compared the way the tables say, anything else the default way |
| `ChangelogBuilder.TrackingInfo.LogArrayChanges` | sharedlibs/totk-merge/src/byml_changelog.rs:116-135 | an array becomes its list of changes, compared by position, by key or by value |
| `ChangelogBuilder.TrackingInfo.LogByPosition` | sharedlibs/totk-merge/src/byml_changelog.rs:294-317 | the two loops give the changes position by position |
| `ChangelogBuilder.TrackingInfo.LogByKey` | sharedlibs/totk-merge/src/byml_changelog.rs:193-237 | the loop over rows with its counter, then the loop over rows not found, give the changes by key |
| `ChangelogBuilder.TrackingInfo.LogRow` | sharedlibs/totk-merge/src/byml_changelog.rs:199-228 | what is recorded for one row and which vanilla row it stands for |
| `ChangelogBuilder.TrackingInfo.LogByValue` | sharedlibs/totk-merge/src/byml_changelog.rs:148-190 | matching, then edits and removals with the queue, then additions give the changes by value |
| `ChangelogBuilder.MatchByValue` | sharedlibs/totk-merge/src/byml_changelog.rs:154-166 | each entry is matched with the first equal vanilla entry not matched before |
| `ChangelogBuilder.CreateIndexCache` | sharedlibs/totk-merge/src/byml_keys.rs:127-144 | of rows sharing a key the last one's position stays |
| `RoundTrip.Rebuilds` | sharedlibs/totk-merge/src/byml_changelog.rs:45-135 | diff, merge and settle rebuild any document that meets the conditions, below any number of maps (also lines 193-237, 294-317, byml_merge.rs:80-120, byml_merge.rs:138-292) |
| `RoundTrip.RebuildsMap` | sharedlibs/totk-merge/src/byml_changelog.rs:75-112 | the law for maps: keys only one side has, keys both have, keys removed (also lines byml_merge.rs:161-207) |
| `RoundTrip.RebuildsDirect` | sharedlibs/totk-merge/src/byml_changelog.rs:294-317 | the law for arrays compared by position: edits, then the rows past the shorter array removed, or added, by key if merging has one and no two share it (also lines byml_merge.rs:231-292, byml_merge.rs:321-424) |
| `RoundTrip.TailInserted` | sharedlibs/totk-merge/src/byml_merge.rs:321-424 | rows past the end with keys of their own are inserted one after the other, as without keys |
| `RoundTrip.RebuildsKeyed` | sharedlibs/totk-merge/src/byml_changelog.rs:193-237 | the law for arrays compared by key: every row of the mod is there once, in some order (also lines byml_merge.rs:244-314, byml_merge.rs:321-424) |
| `RoundTrip.FoundAndNew` | sharedlibs/totk-merge/src/byml_changelog.rs:199-234 | the rows of vanilla that stand for rows of the mod, once edited, and the new rows are together the mod's rows |
| `RoundTrip.SettleAdds` | sharedlibs/totk-merge/src/byml_merge.rs:321-459 | recorded additions with keys of their own are all inserted, and the rows marked are gone, whether or not the tables name a key |
| `RoundTrip.DefaultSelf` | sharedlibs/totk-merge/src/byml_changelog.rs:148-190 | an array compared by value with itself has no changes |
| `RoundTrip.FreshSettles` | sharedlibs/totk-merge/src/byml_merge.rs:80-120 | with nothing recorded, applying changes nothing |
| `RoundTrip.OneStandsFor` | sharedlibs/totk-merge/src/byml_keys.rs:127-144 | two rows with keys of their own never stand for the same vanilla row (also lines byml_changelog.rs:210-227) |
| `KeyedSplice.OwnGroupsSplice` | sharedlibs/totk-merge/src/byml_merge.rs:342-424 | groups of rows with keys of their own are inserted as without keys (also lines 449-459) |
| `KeyedSplice.OwnKeysSettleToSplice` | sharedlibs/totk-merge/src/byml_merge.rs:321-424 | so such an array settles to the plain splice of its additions (also lines 449-459) |
| `KeyedOrder.RowRecorded` | sharedlibs/totk-merge/src/byml_changelog.rs:199-221 | a row that stands for none of vanilla's is added at its position less the rows added before it, or at its own position when that is past vanilla's end |
| `KeyedOrder.RowsAdded` | sharedlibs/totk-merge/src/byml_changelog.rs:199-221 | the additions recorded are the new rows in order, each at such an index |
| `KeyedOrder.WovenByPlace` | sharedlibs/totk-merge/src/byml_changelog.rs:199-234 | new rows put before the rows of vanilla at their index, in vanilla's order, are all the mod's rows by the places they belong in (also lines byml_merge.rs:449-459) |
| `KeyedOrder.KeyedArrayArranged` | sharedlibs/totk-merge/src/byml_changelog.rs:193-237 | an array compared by key whose rows all have one comes back with every row once, in the order of those places: a kept row at vanilla's position, a new one before the row of vanilla as many kept rows lead up to (also lines byml_merge.rs:231-292, byml_merge.rs:321-424) |
| `KeyedReturn.OnlyOrder` | sharedlibs/totk-merge/src/byml_changelog.rs:193-237 | there is one order by places only |
| `KeyedReturn.InPlaceIff` | sharedlibs/totk-merge/src/byml_changelog.rs:199-221 | the mod's own order is that one exactly when its kept rows are in vanilla's order and no row of vanilla is missing before one kept before a new row |
| `KeyedReturn.KeyedArrayBackIff` | sharedlibs/totk-merge/src/byml_changelog.rs:193-237 | so an array compared by key, its rows different, comes back as a sequence exactly then; with no row of vanilla missing and those kept in order it always does (also lines byml_merge.rs:231-292, byml_merge.rs:321-424) |
| `KeyedReturn.MisplacedAfterRemoval` | sharedlibs/totk-merge/src/byml_changelog.rs:210-216 | of vanilla's `[a, b, d]` the mod's `[b, n, d]` comes back as `[n, b, d]` |
| `RoundTripLaws.DocumentsComeBack` | sharedlibs/totk-merge/src/byml_changelog.rs:45-135 | a whole document comes back: exactly, up to the order of the rows of arrays compared by key (also lines 193-237, 294-317, byml_merge.rs:80-120, byml_merge.rs:138-292, byml_merge.rs:321-424) |
| `RoundTripLaws.DocumentsComeBackExactly` | sharedlibs/totk-merge/src/byml_changelog.rs:45-135 | without arrays compared by key the document comes back exactly (also lines 294-317, byml_merge.rs:80-120, byml_merge.rs:138-292) |
| `NameTables.LookupsAgree` | sharedlibs/totk-merge/src/byml_keys.rs:346-402 | built on one table of key names, the default lookup for making changelogs gives rows compared by key the key merging has for them, if it has one, on every name, for documents of every type |
| `NameTables.SaveLookupsAgree` | sharedlibs/totk-merge/src/gamedata.rs:19-31 | so do the two lookups for the rows of the save data, default values of structs that go by hash included (also lines byml_changelog.rs:74-99, byml_keys.rs:346-402) |
| `NameTables.AnyRowsByPosition` | sharedlibs/totk-merge/src/byml_keys.rs:358-391 | in documents, where names that go by position have no key, no rows past vanilla's are taken for the same |
| `NameTables.SaveRowsByPosition` | sharedlibs/totk-merge/src/gamedata.rs:19-21 | an array right in a save data row, compared by position, comes back exactly when no two rows past vanilla's share a key merging has for its name (also lines byml_changelog.rs:74-99, byml_changelog.rs:294-317, byml_merge.rs:321-424) |
| `PositionArrays.PositionArrayBackIff` | sharedlibs/totk-merge/src/byml_changelog.rs:294-317 | an array compared by position comes back exactly when no two rows past vanilla's share a key merging has for its name (also lines byml_merge.rs:231-292, byml_merge.rs:321-424) |
| `PositionArrays.FewerRows` | sharedlibs/totk-merge/src/byml_merge.rs:321-424 | if two do, rows that share a key are merged and the array is shorter |
| `PositionArrays.TwoRowsBecomeOne` | sharedlibs/totk-merge/src/byml_changelog.rs:294-317 | two rows with one key put into an empty array compared by position do not both come back (also lines byml_merge.rs:321-424) |
| `RoundTripLaws.MapDocumentsComeBackIff` | sharedlibs/totk-merge/src/byml_merge.rs:138-158 | documents of maps and scalars come back exactly when no map changes its kind; if one does, the merge is refused |
| `ValueArrays.MatchedAlike` | sharedlibs/totk-merge/src/byml_changelog.rs:154-166 | matched entries of the mod and of vanilla have the same values, counted |
| `ValueArrays.LeftIs` | sharedlibs/totk-merge/src/byml_changelog.rs:168-180 | the queue loses one entry per edit, from its front |
| `ValueArrays.ValueArrayBack` | sharedlibs/totk-merge/src/byml_changelog.rs:148-190 | what an array of scalars compared by value settles to: the entries kept, the values edits put in, and what is left of the queue (also lines byml_merge.rs:244-292, byml_merge.rs:321-373) |
| `ValueArrays.ValueArrayComesBackIff` | sharedlibs/totk-merge/src/byml_changelog.rs:148-190 | an array of scalars compared by value comes back, up to order, exactly when the values edits put in are those at the front of the queue (also lines byml_merge.rs:244-292, byml_merge.rs:321-373) |
| `ValueArrays.EditedTwice` | sharedlibs/totk-merge/src/byml_changelog.rs:172-177 | with vanilla `[a, b]` and the mod's `[x, y, a]`, `y` comes back twice and `x` not at all |
| `ValueOrder.OneGroupSettles` | sharedlibs/totk-merge/src/byml_merge.rs:353-369 | scalars added at one index are inserted there one after the other, whatever the tables say of the array (also lines 386-402) |
| `ValueOrder.ValueArrayArranged` | sharedlibs/totk-merge/src/byml_changelog.rs:148-190 | what an array of scalars compared by value settles to, as a sequence: vanilla's positions that stand, with everything else the mod adds in one place, where the first of it was (also lines byml_merge.rs:244-292, byml_merge.rs:321-373) |
| `ValueOrder.StretchMatched` | sharedlibs/totk-merge/src/byml_changelog.rs:154-166 | when one stretch is replaced by another, what is before and after it is matched in order |
| `ValueOrder.StretchComesBack` | sharedlibs/totk-merge/src/byml_changelog.rs:148-190 | an array in which one stretch is replaced by another comes back exactly as the mod has it, if none of the new values is in vanilla from the stretch on and none of the old after it (also lines byml_merge.rs:244-292, byml_merge.rs:321-373) |
| `ValueOrder.TwoPlacesJoined` | sharedlibs/totk-merge/src/byml_changelog.rs:182-187 | values added in two places come back in one: `[y, x, z]` against vanilla's `[x]` as `[y, z, x]` |
| `Splice.GroupsByKeeps` | sharedlibs/totk-merge/src/byml_merge.rs:344-350 | grouping by first occurrence keeps every key's values in recorded order, one group a key |
| `Splice.StableSortSorts` | sharedlibs/totk-merge/src/byml_merge.rs:342-351 | grouping and sorting groups is a stable sort by index |
| `Splice.StableSortIsUnique` | sharedlibs/totk-merge/src/byml_merge.rs:342-351 | nothing else sorts that way |
| `Splice.InterleaveOneMore` | sharedlibs/totk-merge/src/byml_merge.rs:449-459 | an insertion at its index plus the number of earlier insertions puts it before the row at its index, after all additions before it |
| `Splice.InsertAllInterleaves` | sharedlibs/totk-merge/src/byml_merge.rs:366-368 | a group inserted with the running offset is the splice with that group added (also lines 449-459) |
| `Splice.UnkeyedSettlesToSplice` | sharedlibs/totk-merge/src/byml_merge.rs:321-373 | the running-offset insertion and final `retain` equal the plain splice: additions by index in recorded order before the row at their index, rows in order minus the removed ones (also lines 449-459) |
| `Splice.InterleavePastEnd` | sharedlibs/totk-merge/src/byml_merge.rs:452-458 | additions past the last row are appended in order |
| `Splice.InterleaveRowPosition` | sharedlibs/totk-merge/src/byml_merge.rs:449-459 | a row comes right after the additions at indices up to its own |
| `KeyedRows.UniqueAdditionsAllInserted` | sharedlibs/totk-merge/src/byml_merge.rs:376-424 | additions no two of which share a key are all inserted as they are |
| `KeyedRows.StableSortBag` | sharedlibs/totk-merge/src/byml_merge.rs:342-351 | sorting additions loses and invents none |
| `KeyFields.MergedRowsKeepKey` | sharedlibs/totk-merge/src/byml_merge.rs:427-447 | rows sharing a key whose fields are scalars merge into a row with that key (also lines byml_keys.rs:99-125) |
| `KeyedInserts.OnlyBefore` | sharedlibs/totk-merge/src/byml_merge.rs:408-411 | a remembered position is before the next insertion point (also lines 449-459) |
| `KeyedInserts.InsertPlaced` | sharedlibs/totk-merge/src/byml_merge.rs:449-459 | inserting a row moves no remembered position |
| `KeyedInserts.KeyedInsertPlaced` | sharedlibs/totk-merge/src/byml_merge.rs:396-421 | inserting the row of a key, its earlier row marked, keeps every remembered position right |
| `KeyedInserts.OneRowPerKey` | sharedlibs/totk-merge/src/byml_merge.rs:353-373 | rows that were there keep their order; of the rows inserted for a key exactly one survives, and it has the key if the key's fields are scalars (also lines 376-447) |
| `KeyedOutcome.LogsRecorded` | sharedlibs/totk-merge/src/byml_merge.rs:246-265 | after any number of changelogs the entry has the array's name exactly when an addition was recorded first, and holds all additions in recorded order: a removal opens an entry without a name (also lines 359-368) |
| `KeyedOutcome.SettledByKey` | sharedlibs/totk-merge/src/byml_merge.rs:345-447 | of the rows added to an array settled by key as many are left as there are different keys, rows without a key counting each |
| `KeyedOutcome.SettledUnkeyed` | sharedlibs/totk-merge/src/byml_merge.rs:345-373 | an array not settled by key has one row for each key exactly when no two rows added share one |
| `KeyedOutcome.CountAdded` | sharedlibs/totk-merge/src/byml_merge.rs:395-447 | there are at least as many rows as different keys, and as many exactly when no key is on two |
| `KeyedOutcome.OneRowForEachKeyIff` | sharedlibs/totk-merge/src/byml_merge.rs:246-265 | for any number of changelogs of a named array, one of the rows added is left for each key exactly when the first thing any of them records, edits aside, is an addition, or no two of the rows share a key (also lines 345-447) |
| `KeyedOutcome.OneRowLogs` | sharedlibs/totk-merge/src/byml_changelog.rs:192-237 | against an array of one row with a key: without it the changelog removes it, with another row before it the changelog adds that one |
| `KeyedOutcome.RemovalFirstKeepsBoth` | sharedlibs/totk-merge/src/byml_merge.rs:246-265 | of three mods one removes the only row of an array compared by key and two each put a row before it: merged in this order both rows stay, also when they share their key (also lines 359-368, byml_changelog.rs:192-237) |
| `RemovedRows.RemovalsRecorded` | sharedlibs/totk-merge/src/byml_merge.rs:264-270 | after any changelogs of an array an index is among the removals exactly when the last change at it that is no addition is a removal |
| `RemovedRows.RowsLeft` | sharedlibs/totk-merge/src/byml_merge.rs:231-292 | of the rows that were there the array keeps, in order and among rows added, exactly those whose last mention is no removal; the rest are at most the additions recorded (also lines 321-373) |
| `RemovedRows.NothingAddedLeft` | sharedlibs/totk-merge/src/byml_merge.rs:231-292 | changelogs that add nothing leave exactly those rows (also lines 321-373) |
| `MergedRows.DiffSays` | sharedlibs/totk-merge/src/byml_changelog.rs:45-112 | what a map's changelog has at a path: nothing where the two do not differ, a removal mark where a field is missing, the scalar where there is one |
| `MergedRows.LatestIs` | sharedlibs/totk-merge/src/byml_merge.rs:161-207 | the last word of several rows' changelogs against the first is that of the last row that differs from it (also lines byml_changelog.rs:45-112) |
| `MergedRows.LastRowWins` | sharedlibs/totk-merge/src/byml_merge.rs:427-447 | rows of maps and scalars that become one: at every path what the last row that differs there from the first has, nothing if it lacks the field, the first's where none differs (also lines byml_changelog.rs:45-112) |
| `AddedRows.GroupsJoin` | sharedlibs/totk-merge/src/byml_merge.rs:386-422 | the rows added at one index with one key join the row remembered for it, rows of other keys leave it alone |
| `AddedRows.RowOfKey` | sharedlibs/totk-merge/src/byml_merge.rs:342-373 | the row left for a key is what the rows added with it join to, by increasing index and then in recorded order (also lines 386-447) |
| `AddedRows.TwoModsOneRow` | sharedlibs/totk-merge/src/byml_merge.rs:342-373 | of two rows two mods add under one key one is left; wherever they differ the one with the larger index decides, whichever mod it is from, at equal indices the later mod's (also lines 386-447) |
| `RowEdits.IndexKnows` | sharedlibs/totk-merge/src/byml_keys.rs:127-144 | the index of keys knows exactly the keys rows have, each by its last row |
| `RowEdits.EditByIndex` | sharedlibs/totk-merge/src/byml_merge.rs:301-307 | an edit without a key, or of an array whose rows have none, is for the row at its index and fails exactly outside the array |
| `RowEdits.EditByKey` | sharedlibs/totk-merge/src/byml_merge.rs:305-314 | an edit with a key is for a row that has it, the one at its index if that has it, else the last; it fails exactly when no row has the key (also lines byml_keys.rs:127-144) |
| `RowEdits.OneRowEdited` | sharedlibs/totk-merge/src/byml_merge.rs:267-288 | an edit changes the row found and no other, and fails exactly when there is none or merging into it does |
| `RowEdits.MovedRowEdited` | sharedlibs/totk-merge/src/byml_merge.rs:267-314 | wherever the one row with a key is, an edit made for another index is merged into it, and the array is otherwise as it was |
| `RowEdits.IndexStays` | sharedlibs/totk-merge/src/byml_merge.rs:241 | the index of keys is made once for a changelog: rows given other keys since are found by those they had (also lines 309) |
| `JoinedArrays.ArraysJoin` | sharedlibs/totk-merge/src/byml_merge.rs:148-151 | whole arrays any number of changelogs have under one name come one after the other, in the order of the mods, after the rows of an array there; a scalar is replaced, and with a map in the way the merge fails (also lines 182-202) |
| `NamedArrays.ArrayComesBack` | sharedlibs/totk-merge/src/byml_changelog.rs:75-135 | a document that is an array under a name comes back as the array does, compared by position, by key or by value as the tables say (also lines byml_merge.rs:138-207) |
| `NamedArrays.KeyedDocument` | sharedlibs/totk-merge/src/byml_changelog.rs:97-135 | one compared by key comes back with every row once, in the order of their places, and as the mod has it when nothing was disturbed before a new row (also lines 193-237, byml_merge.rs:161-207, byml_merge.rs:231-292, byml_merge.rs:321-424) |
| `NamedArrays.ValueDocument` | sharedlibs/totk-merge/src/byml_changelog.rs:97-135 | one of scalars compared by value comes back as its arrangement (also lines 148-190, byml_merge.rs:161-207, byml_merge.rs:231-292, byml_merge.rs:321-373) |
| `NamedArrays.ManyMerged` | sharedlibs/totk-merge/src/byml_merge.rs:161-207 | the document several changelogs leave is that with the array they leave (also lines 231-292) |
| `NamedArrays.EditAgainstRemoval` | sharedlibs/totk-merge/src/byml_changelog.rs:148-190 | of vanilla's `[x, y]` one mod leaves `[x]` and another makes `[x, z]`: merged in this order `[x, z]` is left, in the other `[x]` (also lines byml_merge.rs:264-270, byml_merge.rs:331-335) |
| `Views.InPlacePaths` | sharedlibs/totk-merge/src/byml_merge.rs:42-49 | every tracked path leads to a node of the kind it was recorded for: map keys at maps of the key's kind, entries at arrays |
| `Views.ElsewhereChild` | sharedlibs/totk-merge/src/byml_merge.rs:69-73 | what is tracked below one child changes nothing tracked elsewhere |
| `Views.AnnotateNothing` | sharedlibs/totk-merge/src/byml_merge.rs:53-62 | with nothing tracked the annotated document is the document |
| `Views.StripAnnotate` | sharedlibs/totk-merge/src/byml_merge.rs:42-49 | leaving out what is tracked gives the document back |
| `TrackingSteps.UpdatedMap` | sharedlibs/totk-merge/src/byml_merge.rs:182-202 | one entry replaced: the rest of the map and what is tracked in it stay |
| `TrackingSteps.UpdatedArray` | sharedlibs/totk-merge/src/byml_merge.rs:278-287 | one row replaced: the other rows and what is tracked in them stay |
| `TrackingSteps.ExtendedArray` | sharedlibs/totk-merge/src/byml_merge.rs:148-151 | rows appended to an array move nothing that is tracked |
| `PathTracking.Tracking.Forget` | sharedlibs/totk-merge/src/byml_merge.rs:69-73 | nothing is tracked at or below the path any more, everything else stays |
| `PathTracking.Tracking.Merge` | sharedlibs/totk-merge/src/byml_merge.rs:138-158 | the document, annotated with what is tracked by path, becomes the merge of the annotated tree; every tracked path is in place; nothing outside the path changes; a failure is a failure of the tree |
| `PathTracking.Tracking.MergeMap` | sharedlibs/totk-merge/src/byml_merge.rs:161-207 | the loop over keys gives the merge of maps |
| `PathTracking.Tracking.MergeKey` | sharedlibs/totk-merge/src/byml_merge.rs:170-203 | one key: removal noted, or note dropped and value merged |
| `PathTracking.Tracking.MergeExisting` | sharedlibs/totk-merge/src/byml_merge.rs:187-202 | one key both have |
| `PathTracking.Tracking.MergeValue` | sharedlibs/totk-merge/src/byml_merge.rs:188-200 | changes into arrays, containers into containers, else replaced and forgotten |
| `PathTracking.Tracking.MarkRemoved` | sharedlibs/totk-merge/src/byml_merge.rs:172-175 | the key is noted at the map's path |
| `PathTracking.Tracking.Unmark` | sharedlibs/totk-merge/src/byml_merge.rs:177-180 | the note is dropped |
| `PathTracking.Tracking.MergeArray` | sharedlibs/totk-merge/src/byml_merge.rs:233-292 | the loop over changes gives the merge of the array: additions and removals recorded, edits made |
| `PathTracking.Tracking.RecordAddition` | sharedlibs/totk-merge/src/byml_merge.rs:246-263 | goes to the list this changelog opened for the array |
| `PathTracking.Tracking.RecordRemoval` | sharedlibs/totk-merge/src/byml_merge.rs:264-266 | the index is added to the entry's removals |
| `PathTracking.Tracking.ForgetRemoval` | sharedlibs/totk-merge/src/byml_merge.rs:268-270 | an edit takes its index off the removals |
| `PathTracking.Tracking.EditRow` | sharedlibs/totk-merge/src/byml_merge.rs:267-288 | the row found by position or key is edited, or the merge fails |
| `PathTracking.Tracking.ReplaceRow` | sharedlibs/totk-merge/src/byml_merge.rs:279-285 | containers are merged, scalars replace the row and what is tracked in it |
| `PathTracking.Tracking.Apply` | sharedlibs/totk-merge/src/byml_merge.rs:80-120 | applying what is tracked by path, keys first and then arrays deepest first, equals one bottom-up pass over the annotated document |
| `PathTracking.Tracking.RemoveKeys` | sharedlibs/totk-merge/src/byml_merge.rs:83-105 | taking out keys in any order of paths leaves what the document settles to unchanged |
| `PathTracking.Tracking.ApplyArrays` | sharedlibs/totk-merge/src/byml_merge.rs:107-118 | applying array entries deepest first gives what the document settles to |
| `PathTracking.Deepest` | sharedlibs/totk-merge/src/byml_merge.rs:112 | the path picked is at least as long as any other |
| `PathTracking.ApplyArrayEntry` | sharedlibs/totk-merge/src/byml_merge.rs:321-373 | marking, grouped insertion and `retain` are the settled array |
| `PathTracking.MarkRows` | sharedlibs/totk-merge/src/byml_merge.rs:331-335 | rows at removed indices in range become removal marks |
| `PathTracking.GroupAdditions` | sharedlibs/totk-merge/src/byml_merge.rs:344-351 | groups by index, in recorded order, by increasing index |
| `PathTracking.InsertAdditions` | sharedlibs/totk-merge/src/byml_merge.rs:366-368 | the additions of one index, inserted one after the other (also lines 449-459) |
| `PathTracking.KeyedAdditions` | sharedlibs/totk-merge/src/byml_merge.rs:376-424 | the groups by key inserted one after the other; remembered positions stay in range |
| `PathTracking.GroupByKey` | sharedlibs/totk-merge/src/byml_merge.rs:386-394 | groups by key in order of first occurrence |
| `PathTracking.AddKeyedGroup` | sharedlibs/totk-merge/src/byml_merge.rs:396-422 | one key: its rows and the one inserted before become one row |
| `PathTracking.MergeKeyedAdditions` | sharedlibs/totk-merge/src/byml_merge.rs:427-447 | what each row changes in the first is merged into it and applied |
| `PathTracking.LogRows` | sharedlibs/totk-merge/src/byml_merge.rs:436-438 | each row's changelog against the first |
| `PathTracking.MergeChangelogs` | sharedlibs/totk-merge/src/byml_merge.rs:440-444 | changelogs merged one after the other with a tracking of their own, then applied |
| `PathTracking.MergeDocuments` | sharedlibs/totk-merge/src/byml_merge.rs:463-473 | the merged document is what the changelogs, merged in turn onto vanilla, settle to |
| `Heights.MergedRowsWithin` | sharedlibs/totk-merge/src/byml_merge.rs:427-447 | rows merged into one add nothing taller than themselves, so merging rows inside rows ends |
| `Settlement.MapStep` | sharedlibs/totk-merge/src/byml_merge.rs:83-105 | taking out the keys noted at one path leaves what the document settles to unchanged |
| `Settlement.ArrayStep` | sharedlibs/totk-merge/src/byml_merge.rs:112-118 | applying the entry of one array, none deeper being left, leaves what the document settles to unchanged |
| `Settlement.Unresolved` | sharedlibs/totk-merge/src/byml_merge.rs:84-86 | what is tracked where there is no node changes nothing (also lines 115) |
| `LastWriter.MergeAllByKey` | sharedlibs/totk-merge/src/byml_merge.rs:161-207 | merging several map changelogs is merging key by key |
| `LastWriter.FoldScalars` | sharedlibs/totk-merge/src/byml_merge.rs:170-202 | a key of scalars: the last one set stays, and it is to be removed exactly when the last mention is a removal |
| `LastWriter.FoldMaps` | sharedlibs/totk-merge/src/byml_merge.rs:170-202 | a key of maps: the maps are merged one after the other, whatever removals come between |
| `LastWriter.LastWriterWins` | sharedlibs/totk-merge/src/byml_merge.rs:161-207 | any number of changelogs of maps and scalars whose nodes keep their kinds: at every path the merged document has what was last set, else vanilla's, unless it or something on the way was last removed (also lines 80-105) |
| `Commuting.Commute` | sharedlibs/totk-merge/src/byml_merge.rs:161-207 | compatible map changelogs merge to the same tree in either order |
| `Commuting.AddedCommute` | sharedlibs/totk-merge/src/byml_merge.rs:182-194 | two compatible maps added under one new key merge to the same map in either order |
| `Commuting.MergesDiffer` | sharedlibs/totk-merge/src/byml_merge.rs:161-207 | map changelogs that are not compatible merge to different documents in the two orders, if they merge at all |
| `Commuting.CommuteIff` | sharedlibs/totk-merge/src/byml_merge.rs:161-207 | two map changelogs, one order of which merges, give the same tree in both orders, and the same document, exactly when they are compatible |
| `Conflicts.Collector.Collect` | sharedlibs/totk-merge/src/conflicts.rs:337-374 | the leaves collected are exactly the values of the changelog by path, and the path string is as before |
| `Conflicts.Collector.Child` | sharedlibs/totk-merge/src/conflicts.rs:376-388 | the values below one child; the path is lengthened and cut back |
| `Conflicts.GatherValues` | sharedlibs/totk-merge/src/conflicts.rs:453-459 | every path with who sets it to what, in the order of the mods |
| `Conflicts.SortPaths` | sharedlibs/totk-merge/src/conflicts.rs:464 | the paths in increasing order, each once (also lines 476) |
| `Conflicts.PrefixBetween` | sharedlibs/totk-merge/src/conflicts.rs:475-479 | between a path and one that starts with it, every path starts with it: the search may stop early |
| `Conflicts.CollectOverruled` | sharedlibs/totk-merge/src/conflicts.rs:466-474 | who sets the path to something else than the winner does, with the winner |
| `Conflicts.CollectIntruders` | sharedlibs/totk-merge/src/conflicts.rs:484-489 | who sets something inside the path that another mod sets, with the owners |
| `Conflicts.CollectAt` | sharedlibs/totk-merge/src/conflicts.rs:464-490 | the early-stopping search finds everything that collides with one path |
| `Conflicts.Collisions` | sharedlibs/totk-merge/src/conflicts.rs:453-500 | the same mods, number and samples as comparing every pair of paths for another value or strictly inside at a `/` |
| `RowConflicts.RowLeaf` | sharedlibs/totk-merge/src/conflicts.rs:352-367 | a row a changelog removes is collected as removed, one it edits to a scalar as that scalar, at the path of the row |
| `RowConflicts.AddedNotCollected` | sharedlibs/totk-merge/src/conflicts.rs:362 | nothing is collected at or below an array whose changes are all additions |
| `RowConflicts.DifferentReported` | sharedlibs/totk-merge/src/conflicts.rs:466-474 | two mods with different values at a path are counted and reported: one of them, and with no other mods both (also lines 493-501) |
| `RowConflicts.InsideReported` | sharedlibs/totk-merge/src/conflicts.rs:476-492 | a value inside a path another mod sets is reported with both mods |
| `RowConflicts.RowsCollide` | sharedlibs/totk-merge/src/conflicts.rs:337-388 | a row that one of two mods removes and the other edits, or that both edit to different scalars, is reported with both (also lines 453-501) |
| `RowConflicts.ReportTwo` | sharedlibs/totk-merge/src/conflicts.rs:337-388 | the report on two changelogs is that of the values collected from them, and names both mods if they change one row in ways that cannot both be kept (also lines 453-501) |
| `ConflictLaws.OneValue` | sharedlibs/totk-merge/src/conflicts.rs:337-388 | with names free of `/` every path has one value |
| `ConflictLaws.NothingReported` | sharedlibs/totk-merge/src/conflicts.rs:453-500 | with nothing reported among any number of mods no path has two values, and none of one mod lies inside one of another |
| `ConflictLaws.CompatibleIffNoHole` | sharedlibs/totk-merge/src/conflicts.rs:337-388 | changes none of whose values contradict are compatible exactly when neither has a map without values where the other has something other than a map (also lines byml_merge.rs:161-207) |
| `ConflictLaws.UncontestedMergeEitherWay` | sharedlibs/totk-merge/src/conflicts.rs:337-388 | mods of maps and scalars with names free of slashes, none empty at the root, and nothing reported among them: the changelogs of any two, neither with a map without values where the other has something else, merge to the same document in either order, or fail alike (also lines 453-500, byml_merge.rs:138-207) |
| `ConflictLaws.UnreportedMergeEitherWayIff` | sharedlibs/totk-merge/src/conflicts.rs:337-388 | of any two of the mods, which merge in some order, both orders give the same tree, and the same document, exactly when neither has a map without values where the other has something else (also lines 453-500, byml_merge.rs:138-207) |
| `AnyOrder.KnownAfter` | sharedlibs/totk-merge/src/byml_merge.rs:161-207 | merging one of two compatible changelogs leaves a map whose keys the other still knows |
| `AnyOrder.MoveLast` | sharedlibs/totk-merge/src/byml_merge.rs:161-207 | of compatible changelogs, however many, any one can be merged last |
| `AnyOrder.EveryOrder` | sharedlibs/totk-merge/src/byml_merge.rs:161-207 | compatible changelogs, however many, merge to the same tree in every order, or in none |
| `AnyOrder.UnreportedMergeInEveryOrder` | sharedlibs/totk-merge/src/conflicts.rs:337-388 | mods with nothing reported among them, no two with a map without values against something else, merge to the same document in every order, or in none (also lines 453-500, byml_merge.rs:138-207) |
| `ConflictLaws.EmptyMapUnseen` | sharedlibs/totk-merge/src/conflicts.rs:337-388 | an added empty map has no values, so it is not seen to collide, and the order of merging matters |
| `ConflictLaws.EmptyNameUnseen` | sharedlibs/totk-merge/src/conflicts.rs:337-388 | what is inside an empty name at the root has the paths of what is beside it, so a mod that sets the name itself is not seen to collide, and the order of merging matters |
| `ConflictLaws.SlashUnseen` | sharedlibs/totk-merge/src/conflicts.rs:337-388 | a name with a slash has the path of something inside a map: one of a mod's two values for it is not collected, so two mods that differ there are not seen to collide, and the order of merging matters |
| `ExefsFolder.Scan` | sharedlibs/totk-merge/src/code.rs:233-275 | a name is claimed exactly when its file holds its listed module or a wanted one; a name is free exactly when there is no file |
| `ExefsFolder.Fit` | sharedlibs/totk-merge/src/code.rs:279-297 | the modules kept and the number left out |
| `ExefsFolder.FittingIsFirst` | sharedlibs/totk-merge/src/code.rs:279-297 | the modules kept are the first of the distinct wanted ones that there is room for |
| `ExefsFolder.FindStale` | sharedlibs/totk-merge/src/code.rs:301-309 | a name is stale exactly when its module is not kept or an earlier name holds it too |
| `ExefsFolder.SlotWith` | sharedlibs/totk-merge/src/code.rs:333 | the name that holds a module, if one does |
| `ExefsFolder.First` | sharedlibs/totk-merge/src/code.rs:344 | the first free name |
| `ExefsFolder.Folder.RemoveStale` | sharedlibs/totk-merge/src/code.rs:310-330 | stale files are removed and their names freed; those that cannot be stay listed |
| `ExefsFolder.Folder.Place` | sharedlibs/totk-merge/src/code.rs:332-375 | modules in place keep their names, the others get the free ones in order; only free names are written; with every name free the modules are tried under the first names one by one |
| `ExefsFolder.Folder.PlaceOne` | sharedlibs/totk-merge/src/code.rs:333-374 | one module: it keeps its name, takes the first free one, or is left out |
| `ExefsFolder.Folder.WriteModule` | sharedlibs/totk-merge/src/code.rs:344-374 | what is under the name after a write that succeeds, leaves nothing, or leaves something, removed or not; no other file changes |
| `ExefsFolder.Folder.ScanAndClear` | sharedlibs/totk-merge/src/code.rs:229-330 | what is there, what is kept and what goes, whatever calls fail |
| `ExefsFolder.Folder.SaveList` | sharedlibs/totk-merge/src/code.rs:377-387 | the list says what is there, or what is left when a call on it fails; without anything there is none; no other file changes |
| `ExefsFolder.Folder.Install` | sharedlibs/totk-merge/src/code.rs:217-389 | no file but the list and those under the eight names ever changes; none under them that holds neither its listed module nor a wanted one does if the folder can be listed, whatever else fails; if it cannot, the modules go under the first names in order, and if they can be written others' files are kept exactly when none is under those names; with no failure exactly the modules there is room for are in place, each under one name, kept ones where they were |
| `ExefsFolder.KeptUnlessInTheWay` | sharedlibs/totk-merge/src/code.rs:233 | with the folder not listed and every module written, others' files are kept exactly when none of the first names, as many as there are modules, has one (also lines 332-375) |
| `ExefsFolder.OwnModuleLost` | sharedlibs/totk-merge/src/code.rs:233 | someone's own module under the first name is replaced when the folder cannot be listed (also lines 332-375) |
| `ExefsFolder.SecondTimeNothing` | sharedlibs/totk-merge/src/code.rs:217-389 | a second identical call changes no file and no line and reports no change |
| `ExefsFolder.InstallThenNothingRestores` | sharedlibs/totk-merge/src/code.rs:217-389 | installing modules none of which is there, without a list, and then nothing, restores the folder |
| `BymlFormat.NumberBack` | sharedlibs/totk-formats/src/byml.rs:573-594 | a number that fits is read back from its bytes, in either byte order (also lines 888-913) |
| `BymlTables.WriteTable` | sharedlibs/totk-formats/src/byml.rs:939-958 | a table is appended, or nothing for an empty one |
| `BymlTables.PushStarts` | sharedlibs/totk-formats/src/byml.rs:946-951 | the positions of the texts, and where the last one ends |
| `BymlTables.PushTexts` | sharedlibs/totk-formats/src/byml.rs:952-955 | the texts, each ended by a zero |
| `BymlTables.TableBack` | sharedlibs/totk-formats/src/byml.rs:616-635 | a table read back is the table written, texts ending in a zero included (also lines 939-958) |
| `BymlWriter.LastSame` | sharedlibs/totk-formats/src/byml.rs:1105-1121 | the position found is the last with the hash, and none after it has it |
| `BymlWriter.ChainedMore` | sharedlibs/totk-formats/src/byml.rs:1117-1121 | remembering a node keeps the chains: every node links to the last earlier one with its hash |
| `BymlWriter.FillOne` | sharedlibs/totk-formats/src/byml.rs:910-913 | putting an offset into the next slot left open fills exactly that slot (also lines 1070-1072) |
| `BymlWriter.OpenInside` | sharedlibs/totk-formats/src/byml.rs:1076-1084 | slots left open lie inside the bytes, one after the other |
| `BymlWriter.StillAfterGrowth` | sharedlibs/totk-formats/src/byml.rs:1047-1073 | bytes written at the end leave what is written as it is |
| `BymlWriter.StillAfterPatch` | sharedlibs/totk-formats/src/byml.rs:910-913 | filling a slot leaves every node written before as it is |
| `BymlWriter.BoundaryKeepsFour` | sharedlibs/totk-formats/src/byml.rs:1053-1060 | the padding puts the data of aligned binary on its boundary and keeps the next position a multiple of four |
| `BymlWriter.TemplateSize` | sharedlibs/totk-formats/src/byml.rs:975-1045 | every container takes a multiple of four bytes |
| `BymlWriter.Writer.constructor` | sharedlibs/totk-formats/src/byml.rs:842-853 | nothing is written yet and the header is open (also lines 865) |
| `BymlWriter.Writer.PushRaw` | sharedlibs/totk-formats/src/byml.rs:896-908 | the bytes are the next piece of the body (also lines 933-937) |
| `BymlWriter.Writer.PushSlot` | sharedlibs/totk-formats/src/byml.rs:1076-1084 | the next piece is an inline value, or room for an offset with its place noted |
| `BymlWriter.Writer.LayOut` | sharedlibs/totk-formats/src/byml.rs:975-1045 | the body laid out is the container's, and the slots noted are those left open |
| `BymlWriter.Writer.LayOutArray` | sharedlibs/totk-formats/src/byml.rs:979-988 | an array: header, types, padding, slots |
| `BymlWriter.Writer.LayOutNamed` | sharedlibs/totk-formats/src/byml.rs:989-998 | a map by name: header, then key, type and slot for each entry in order |
| `BymlWriter.Writer.LayOutEntries` | sharedlibs/totk-formats/src/byml.rs:993-997 | the entries in order |
| `BymlWriter.Writer.LayOutHashed` | sharedlibs/totk-formats/src/byml.rs:999-1020 | a map by hash: hashes and slots, then types, then padding |
| `BymlWriter.Writer.LayOutHashes` | sharedlibs/totk-formats/src/byml.rs:1001-1004 | the hashes and slots in order (also lines 1012-1015) |
| `BymlWriter.Writer.LayOutLog` | sharedlibs/totk-formats/src/byml.rs:1021-1043 | an array changelog: entries, then types |
| `BymlWriter.Writer.LayOutChanges` | sharedlibs/totk-formats/src/byml.rs:1023-1035 | the entries in order |
| `BymlWriter.Writer.LayOutChange` | sharedlibs/totk-formats/src/byml.rs:1024-1034 | index, kind, and the slots of node and keys |
| `BymlWriter.Writer.PushKey` | sharedlibs/totk-formats/src/byml.rs:1027-1034 | a key's slot, or zero |
| `BymlWriter.Writer.TypesOfLog` | sharedlibs/totk-formats/src/byml.rs:1036-1041 | four type bytes an entry |
| `BymlWriter.Writer.Lookup` | sharedlibs/totk-formats/src/byml.rs:1105-1115 | following the chain of a hash finds the offset exactly when an equal node was written |
| `BymlWriter.Writer.Remember` | sharedlibs/totk-formats/src/byml.rs:1117-1121 | the node is found from now on, and everything written stays |
| `BymlWriter.Writer.Put` | sharedlibs/totk-formats/src/byml.rs:910-913 | one word is filled in and its place no longer open |
| `BymlWriter.Writer.WriteContainer` | sharedlibs/totk-formats/src/byml.rs:975-1073 | the container's body with every slot filled by its child's offset is in place, every child and whatever is below it is written, and nothing written before has changed |
| `BymlWriter.Writer.Stage` | sharedlibs/totk-formats/src/byml.rs:975-1045 | the body is at the end, its slots open |
| `BymlWriter.Writer.FillSlots` | sharedlibs/totk-formats/src/byml.rs:1047-1073 | every slot holds its child's offset |
| `BymlWriter.Writer.FillSlot` | sharedlibs/totk-formats/src/byml.rs:1047-1072 | the child is written or found, and the slot filled |
| `BymlWriter.Writer.WriteChild` | sharedlibs/totk-formats/src/byml.rs:1048-1071 | the offset returned is that of an equal node, written now only if none was before |
| `BymlWriter.Writer.WriteContent` | sharedlibs/totk-formats/src/byml.rs:1063-1067 | the node's bytes are at the end |
| `BymlWriter.Writer.AlignData` | sharedlibs/totk-formats/src/byml.rs:1053-1060 | the data of aligned binary will be on its boundary |
| `BymlWriter.Writer.WriteSpecial` | sharedlibs/totk-formats/src/byml.rs:1086-1103 | binary and wide numbers, padded to four bytes |
| `BymlReading.ArrayBack` | sharedlibs/totk-formats/src/byml.rs:705-719 | an array read from its laid out bytes is the array, once its children can be read |
| `BymlReading.NamedMapBack` | sharedlibs/totk-formats/src/byml.rs:721-736 | a map by name read from its bytes is the map |
| `BymlReading.HashedMapBack` | sharedlibs/totk-formats/src/byml.rs:738-770 | a map by hash read from its bytes is the map |
| `BymlReading.LogBack` | sharedlibs/totk-formats/src/byml.rs:772-802 | an array changelog read from its bytes is the changelog |
| `BymlReading.InlineBack` | sharedlibs/totk-formats/src/byml.rs:649-668 | a value stored in a slot is read back (also lines 961-971) |
| `BymlReading.SpecialBack` | sharedlibs/totk-formats/src/byml.rs:669-689 | binary and wide numbers are read back (also lines 1086-1103) |
| `BymlReading.NodeBack` | sharedlibs/totk-formats/src/byml.rs:649-802 | any node within the format's limits, read at the offset the writer gave it, is the node written, whatever was patched since and whoever shares it |
| `BymlSharing.EveryNodeFound` | sharedlibs/totk-formats/src/byml.rs:1047-1072 | however a node is reached from the root, it has an offset, its bytes are there, and the last slot on the way holds that offset |
| `BymlSharing.OneOffsetEach` | sharedlibs/totk-formats/src/byml.rs:1047-1072 | two ways from the root lead to slots with the same offset exactly when the nodes are equal (also lines 1105-1121, 1154-1189) |
| `BymlDocument.TypeFirst` | sharedlibs/totk-formats/src/byml.rs:596-604 | a container's first byte is its type in either byte order (also lines 915-922) |
| `BymlDocument.ParseBack` | sharedlibs/totk-formats/src/byml.rs:334-375 | a finished file parses to the document and the format it was written with |
| `BymlDocument.InlineLost` | sharedlibs/totk-formats/src/byml.rs:869-876 | a root that would fit in a slot is not written, and the file cannot be parsed (also lines 368-373) |
| `BymlDocument.SpecialRootBackIff` | sharedlibs/totk-formats/src/byml.rs:368-374 | a binary or wide number root is read back exactly when its first byte happens to be its type (also lines 1086-1103) |
| `BymlDocument.ParsedIff` | sharedlibs/totk-formats/src/byml.rs:368-374 | any root within the format's limits comes back exactly when it is a container or starts with its own type (also lines 869-876) |
| `BymlDocument.ZeroRootLost` | sharedlibs/totk-formats/src/byml.rs:368-374 | the number zero as a root comes back as null, in either byte order (also lines 1086-1103) |
| `BymlDocument.LuckyRootBack` | sharedlibs/totk-formats/src/byml.rs:368-374 | the 64 bit number 0xD4 comes back little-endian and not big-endian (also lines 1086-1103) |
| `BymlDocument.PutWord` | sharedlibs/totk-formats/src/byml.rs:878-885 | one word of the header, the root staying as it is |
| `BymlDocument.PutHeader` | sharedlibs/totk-formats/src/byml.rs:877-885 | magic, version and the three offsets |
| `BymlDocument.WriteTables` | sharedlibs/totk-formats/src/byml.rs:855-867 | both tables after the header |
| `BymlDocument.WriteRoot` | sharedlibs/totk-formats/src/byml.rs:868-876 | the root is written unless it would fit in a slot |
| `BymlDocument.Write` | sharedlibs/totk-formats/src/byml.rs:855-887 | any document within the format's limits parses back from what is written, the same and in the same format, exactly when its root is a container or starts with its own type; nodes are shared |
| `BymlSamples.InlineSample` | sharedlibs/totk-formats/src/byml.rs:649-668 | an array of one null, flag, number or mark, byte by byte in either byte order, for any word in its slot (also lines 705-719) |
| `BymlSamples.WideSample` | sharedlibs/totk-formats/src/byml.rs:669-689 | one of a 64 bit number, its bytes behind the array |
| `BymlSamples.BinarySamples` | sharedlibs/totk-formats/src/byml.rs:669-689 | one of binary, size and then bytes, with the alignment between them when it has one |
| `BymlSamples.EmptySample` | sharedlibs/totk-formats/src/byml.rs:705-802 | one of an empty container of each type |
| `BymlSamples.HashedSample` | sharedlibs/totk-formats/src/byml.rs:738-770 | one of a map by hash: hash and slot, then the type |
| `BymlSamples.LogSample` | sharedlibs/totk-formats/src/byml.rs:772-802 | one of a list of array changes: index, kind, node and keys, then types |
| `BymlSamples.NamedSample` | sharedlibs/totk-formats/src/byml.rs:334-375 | a map by name with a text in it: header, both tables, and the map (also lines 721-736) |
| `Alignment.FindGcd` | sharedlibs/totk-formats/src/sarc.rs:124-135 | the loop finds the divisor |
| `Alignment.GcdDivides` | sharedlibs/totk-formats/src/sarc.rs:124-135 | it divides both numbers |
| `Alignment.GcdGreatest` | sharedlibs/totk-formats/src/sarc.rs:124-135 | every common divisor divides it |
| `Alignment.LcmIsMultiple` | sharedlibs/totk-formats/src/sarc.rs:137-139 | the quotient formula gives a common multiple |
| `Alignment.LcmLeast` | sharedlibs/totk-formats/src/sarc.rs:137-139 | every common multiple is a multiple of it |
| `Alignment.AlignUpIsLeast` | sharedlibs/totk-formats/src/sarc.rs:340-345 | rounding up gives the least multiple not below |
| `Alignment.SameRounding` | sharedlibs/totk-formats/src/sarc.rs:340-345 | rounding to a coarser alignment gives the same when the result meets it anyway |
| `Archives.FileAlignmentDivides` | sharedlibs/totk-formats/src/sarc.rs:151-180 | a file's alignment is a multiple of the minimum |
| `Archives.CoarserMinimum` | sharedlibs/totk-formats/src/sarc.rs:151-180 | raising the minimum raises a file's alignment to no more than any multiple of both |
| `Archives.EveryFileAligned` | sharedlibs/totk-formats/src/sarc.rs:293-305 | every file's place in the archive is a multiple of its alignment |
| `Archives.SameBlob` | sharedlibs/totk-formats/src/sarc.rs:296-305 | alignments raised to something every file meets leave every file where it was |
| `Archives.SameDataOffset` | sharedlibs/totk-formats/src/sarc.rs:293-294 | and the data where it began |
| `ArchiveFiles.ReadNodes` | sharedlibs/totk-formats/src/sarc.rs:65-88 | the loop over nodes finds the entries and the minimum alignment |
| `ArchiveFiles.ArchiveBack` | sharedlibs/totk-formats/src/sarc.rs:42-95 | an archive read back has the files put into it, in the order of its table (also lines 265-337) |
| `ArchiveFiles.MinimumDivides` | sharedlibs/totk-formats/src/sarc.rs:84 | the minimum found divides four and every file's place (also lines 122-135) |
| `ArchiveFiles.MinimumGreatest` | sharedlibs/totk-formats/src/sarc.rs:84 | it is a multiple of whatever divides four and every file's place, such as the minimum it was built with (also lines 122-135) |
| `ArchiveFiles.RebuildSame` | sharedlibs/totk-formats/src/sarc.rs:61-94 | rebuilding an archive from its own parse gives the same bytes, although the minimum found may be larger than the one used (also lines 225-235, 265-337) |
| `ArchiveFiles.LayOutNames` | sharedlibs/totk-formats/src/sarc.rs:277-287 | the name table and where each name is |
| `ArchiveFiles.LayOutData` | sharedlibs/totk-formats/src/sarc.rs:296-305 | the data, each file on its boundary, and where each begins and ends |
| `ArchiveFiles.FindCommon` | sharedlibs/totk-formats/src/sarc.rs:293 | the common alignment |
| `ArchiveFiles.LayOutNodes` | sharedlibs/totk-formats/src/sarc.rs:322-327 | the node table |
| `ArchiveFiles.SarcBuilder.constructor` | sharedlibs/totk-formats/src/sarc.rs:208-216 | no files, hash key 0x65, minimum alignment four |
| `ArchiveFiles.SarcBuilder.FromSarc` | sharedlibs/totk-formats/src/sarc.rs:225-235 | the files, key and minimum of an archive that was read |
| `ArchiveFiles.SarcBuilder.Insert` | sharedlibs/totk-formats/src/sarc.rs:237-239 | one file added or replaced |
| `ArchiveFiles.SarcBuilder.Remove` | sharedlibs/totk-formats/src/sarc.rs:241-243 | one file taken out |
| `ArchiveFiles.SarcBuilder.Build` | sharedlibs/totk-formats/src/sarc.rs:265-337 | the archive of the files |
| `ArchiveFiles.Parse` | sharedlibs/totk-formats/src/sarc.rs:42-95 | the parse of any bytes, failures included |
| `ArchiveFiles.Rebuild` | sharedlibs/totk-formats/src/sarc.rs:225-235 | building, parsing, seeding a builder and building again gives the same bytes (also lines 265-337) |
| `ArchiveHashes.HashIsDigits` | sharedlibs/totk-formats/src/sarc.rs:18-24 | a name's hash is its bytes read as the digits of a number in the base of the key, modulo 2 to the power of 32 |
| `ArchiveHashes.HashesStored` | sharedlibs/totk-formats/src/sarc.rs:266-275 | an archive's nodes are of all its files and have their names' hashes, never decreasing (also lines 322-324) |
| `ArchiveSamples.ArchiveSample` | sharedlibs/totk-formats/src/sarc.rs:265-337 | an archive of two files byte by byte: headers, nodes, names and data |
| `ArchiveSamples.DeclaredSample` | sharedlibs/totk-formats/src/sarc.rs:184-199 | a binary file declares two to the power of its byte 14 if that is at most 31 and the length at 28 is the file's, else one |
| `ArchiveSamples.ExtensionIs` | sharedlibs/totk-formats/src/sarc.rs:152-153 | the extension is what follows the last dot of the file's own name, and none without a dot there |
| `StoredFrames.FrameBack` | sharedlibs/totk-formats/src/zstd.rs:120-161 | a frame decoded by section 3.1.1 of RFC 8878 is the data, for every length; blocks are at most 128 KiB and exactly the last is marked |
| `StoredFrames.SizeBack` | sharedlibs/totk-formats/src/zstd.rs:93-117 | the size read from a frame's header is the length of its data, across all four field widths (also lines 120-143) |
| `StoredFrames.FrameContentSize` | sharedlibs/totk-formats/src/zstd.rs:93-117 | what the header of any frame declares |
| `StoredFrames.ReadLittle` | sharedlibs/totk-formats/src/zstd.rs:112-115 | the loop adds up the bytes, lowest first |
| `StoredFrames.CompressRaw` | sharedlibs/totk-formats/src/zstd.rs:120-161 | the frame written decodes to the data and declares its length |
| `StoredFrames.PushBlocks` | sharedlibs/totk-formats/src/zstd.rs:149-159 | the blocks, full ones and then the last |
| `ArchiveSamples.FrameSamples` | sharedlibs/totk-formats/src/zstd.rs:120-161 | the header of a frame for each width of the size field, block headers, and a whole frame, byte by byte |
| `SortedVectors.VecMap.constructor` | sharedlibs/totk-formats/src/vecmap.rs:31-33 | an empty map |
| `SortedVectors.VecMap.FromIter` | sharedlibs/totk-formats/src/vecmap.rs:139-152 | sorted, and of entries sharing a key the last one |
| `SortedVectors.VecMap.Deduplicated` | sharedlibs/totk-formats/src/vecmap.rs:144-150 | strictly increasing keys, each with its last value |
| `SortedVectors.VecMap.Find` | sharedlibs/totk-formats/src/vecmap.rs:41-46 | where the key is, or the only place it could go |
| `SortedVectors.VecMap.Lookup` | sharedlibs/totk-formats/src/vecmap.rs:56-61 | the value of the key, if any |
| `SortedVectors.VecMap.Insert` | sharedlibs/totk-formats/src/vecmap.rs:81-94 | the map with the key set, still sorted, and the value it had |
| `SortedVectors.VecMap.Remove` | sharedlibs/totk-formats/src/vecmap.rs:96-104 | the map without the key, still sorted, and the value it had |
| `GameData.LastMentionDecides` | sharedlibs/totk-merge/src/gamedata.rs:215-251 | a row is there in the end exactly when the last changelog mentioning it does not remove it, or none mentions it and it was there |
| `GameData.MergeKeepsHash` | sharedlibs/totk-merge/src/gamedata.rs:236-237 | merging a change into a row keeps the row's hash |
| `GameData.CombinedKeepsHash` | sharedlibs/totk-merge/src/gamedata.rs:263-292 | putting together an added row and later versions keeps its hash |
| `GameData.RowMerged` | sharedlibs/totk-merge/src/gamedata.rs:229-237 | a change merged into one row concerns that row only, and unmarks it |
| `GameData.RowDropped` | sharedlibs/totk-merge/src/gamedata.rs:224-229 | marking or unmarking one row concerns that row only |
| `GameData.VersionNoted` | sharedlibs/totk-merge/src/gamedata.rs:231-234 | a later version of an added row concerns that row only |
| `GameData.RowAppended` | sharedlibs/totk-merge/src/gamedata.rs:240-251 | a row added is told apart from all others |
| `GameDataMerge.TableMerge.constructor` | sharedlibs/totk-merge/src/gamedata.rs:181-187 | every row as vanilla has it, nothing recorded |
| `GameDataMerge.TableMerge.MergeEntries` | sharedlibs/totk-merge/src/gamedata.rs:200-252 | one changelog takes every row's fate one step on, each by its own entry, or fails on some row |
| `GameDataMerge.TableMerge.MergeRows` | sharedlibs/totk-merge/src/gamedata.rs:215-238 | rows there are take their entries, the entries left are for other rows |
| `GameDataMerge.TableMerge.TakeEntry` | sharedlibs/totk-merge/src/gamedata.rs:216-222 | one row and its entry |
| `GameDataMerge.TableMerge.MergeRow` | sharedlibs/totk-merge/src/gamedata.rs:224-237 | dropped, noted as a version, or merged into |
| `GameDataMerge.TableMerge.DropRow` | sharedlibs/totk-merge/src/gamedata.rs:225-228 | the row is to be dropped |
| `GameDataMerge.TableMerge.NoteVersion` | sharedlibs/totk-merge/src/gamedata.rs:229-234 | the version is noted and the row not to be dropped |
| `GameDataMerge.TableMerge.MergeInto` | sharedlibs/totk-merge/src/gamedata.rs:236-237 | the row's fate is merged with the change and no other row's changes |
| `GameDataMerge.TableMerge.MergeTree` | sharedlibs/totk-merge/src/gamedata.rs:236-237 | the change goes into the row where it is, tracked under the row's index; it fails exactly when merging the change does |
| `GameDataMerge.TableMerge.AddRows` | sharedlibs/totk-merge/src/gamedata.rs:240-251 | rows the table lacks are added at its end, removals of such rows mean nothing |
| `GameDataMerge.TableMerge.AddRow` | sharedlibs/totk-merge/src/gamedata.rs:240-251 | one such row: its fate goes one step on, no other row's changes |
| `GameDataResult.Position` | sharedlibs/totk-merge/src/gamedata.rs:272-277 | the position of the row with a hash |
| `GameDataResult.Combine` | sharedlibs/totk-merge/src/gamedata.rs:279-291 | later versions logged against the added row, merged into it and applied |
| `GameDataResult.CombineAdded` | sharedlibs/totk-merge/src/gamedata.rs:263-292 | added rows mentioned again are put together, all others stay as they were applied |
| `GameDataResult.DropRows` | sharedlibs/totk-merge/src/gamedata.rs:294-304 | exactly the rows marked are gone |
| `GameDataResult.SortRows` | sharedlibs/totk-merge/src/gamedata.rs:306-310 | strictly increasing by hash, the same rows |
| `GameDataResult.Finish` | sharedlibs/totk-merge/src/gamedata.rs:255-310 | after everything recorded was applied, every row is what its fate says, and rows move only then |
| `GameDataResult.MergeTable` | sharedlibs/totk-merge/src/gamedata.rs:180-310 | every row of the result is what its own history of entries makes of it, the table is strictly increasing by hash, and the merge fails exactly when some row's own history does |
| `GameDataResult.HashesInTheEnd` | sharedlibs/totk-merge/src/gamedata.rs:215-251 | the hashes are vanilla's and the added ones except those whose last mention is a removal |
| `SavedVersions.LastVersionWins` | sharedlibs/totk-merge/src/gamedata.rs:263-292 | a row of maps and scalars that several mods add has at every path what the last version that differs there from the first has |
| `RowHistories.VanillaRun` | sharedlibs/totk-merge/src/gamedata.rs:215-238 | everything said of vanilla's row is merged into it in order, what came before a removal too |
| `RowHistories.AddedRun` | sharedlibs/totk-merge/src/gamedata.rs:215-251 | the first thing said of another row is the row, the rest are later versions of it |
| `RowHistories.RowInTheEnd` | sharedlibs/totk-merge/src/gamedata.rs:180-310 | a row of the merged table, from what the changelogs say of it: there exactly when its last mention leaves it, vanilla's with everything merged in, another's put together from its versions |
| `GameDataTables.MergeTables` | sharedlibs/totk-merge/src/gamedata.rs:188-310 | each table the changelogs touch is merged by its own changelogs, the others stay as they are, and the merge fails exactly when a table is missing or some row of a touched one cannot be merged |
| `GameDataLog.LogTable` | sharedlibs/totk-merge/src/gamedata.rs:110-168 | the loops give the table's changelog |
| `GameDataLog.LogOne` | sharedlibs/totk-merge/src/gamedata.rs:135-149 | what one row contributes |
| `GameDataLog.IndexRows` | sharedlibs/totk-merge/src/gamedata.rs:120-128 | the index of vanilla's rows by hash |
| `GameDataLog.KeptIs` | sharedlibs/totk-merge/src/gamedata.rs:134-150 | the rows counted as kept are vanilla's rows the mod has, and the spare ones: without a hash, or with one of vanilla's that an earlier row has |
| `GameDataLog.RemovedIffNotMadeUp` | sharedlibs/totk-merge/src/gamedata.rs:134-158 | vanilla's rows the mod lacks are marked removed exactly when there are none or not as many as the mod has spare rows |
| `GameDataLog.MissingRowStaysIff` | sharedlibs/totk-merge/src/gamedata.rs:134-158 | a row the mod lacks is in the merged table exactly when as many rows are missing as the mod has spare ones (also lines 215-251) |
| `GameDataLog.RemovalsAreTheMissing` | sharedlibs/totk-merge/src/gamedata.rs:152-158 | with unique hashes exactly vanilla's rows the mod lacks are marked removed |
| `GameDataLog.DuplicateHidesRemoval` | sharedlibs/totk-merge/src/gamedata.rs:134-158 | a hash the mod has twice makes up for a row it lacks, which stays in the merged table |
| `GameDataLog.HashlessHidesRemoval` | sharedlibs/totk-merge/src/gamedata.rs:135-138 | so does a row of the mod without a hash (also lines 152-158) |
| `GameDataLog.LogIsProper` | sharedlibs/totk-merge/src/gamedata.rs:110-168 | whatever rows the mod has, the changelog records rows vanilla lacks whole and keeps the hashes of the others |
| `GameDataLog.RebuildTable` | sharedlibs/totk-merge/src/gamedata.rs:110-168 | a mod's table logged and merged onto vanilla's comes back hash by hash, whichever of the lookups its rows are compared with (also lines 180-325) |

## Left out

- The builder for `NameHash` arrays (`byml_changelog.rs:240-291`): it marks an entry's own position instead of the match.
- The entries of the tables of names in `byml_keys.rs:174-402` are a parameter, as are the extension tables of `sarc.rs:156-178` and the hash functions; the structural hash may be any function of the node.
- Floats are their bit patterns and compare exactly; the tolerance of `value_eq` is not transitive.
- `keyed_removals` of array entries, which only the RSDB merger fills.
- Texts and names are their UTF-8 bytes, a byte a character; decoding that replaces bad bytes, the UTF-16 order of the tables and the sort itself are an order given as a function that lists a set once.
- Map iteration order: a loop over a map takes its keys in any order, which is stronger than the code needs.
- `i32` indices and `usize` positions are unbounded integers; bytes written keep the low bits as the casts do. The format's own limits (24 bit counts, 32 bit offsets and sizes, 128 levels, aligned binary of a multiple of four bytes with alignment at most 2 or a multiple of 4) are preconditions or conditions of the laws; negative alignments are not modelled.
- `collect_strings` is given on values, as the sets `BymlDocument.Names` and `BymlDocument.Texts`.
- The reader is given as functions, a position advancing where the code multiplies an index; it is not lazy (`Document`).
- RoundTripLaws.DocumentsComeBack: asks that arrays compared by value do not change; `ValueArrays` says exactly when arrays of scalars that do change come back, arrays of containers compared by value are not covered.
- KeyedReturn.KeyedArrayBackIff: asks that every row has a key, no two the same, and that rows can be rebuilt as in `RoundTripLaws.DocumentsComeBack`.
- ValueOrder.ValueArrayArranged: covers arrays of scalars.
- MergedRows.LastRowWins: covers rows of maps and scalars whose nodes keep their kinds; `SavedVersions.LastVersionWins` likewise.
- RowConflicts.RowsCollide: covers rows whose text is no other row's, at paths of maps with names free of slashes.
- ConflictLaws.UncontestedMergeEitherWay: covers mods of maps and scalars.
- ConflictLaws.UnreportedMergeEitherWayIff: covers mods of maps and scalars.
- AnyOrder.UnreportedMergeInEveryOrder: covers mods of maps and scalars.
- KeyFields.MergedRowsKeepKey: covers keys whose fields are scalars; a container as a key field is merged like any other.
- KeyedInserts.OneRowPerKey: says that the row left has the key only for keys whose fields are scalars.
- LastWriter.LastWriterWins: covers maps and scalars.
- Conflicts of text, archive and whole files (`conflicts.rs:83-333`), and the report file.
- GameDataResult.MergeTable: models one table, with paths taken from the table, not from the root; `GameDataTables.MergeTables` goes table by table, where the code goes changelog by changelog and tells them apart by path. The dispatch on the kind of changelog and the save file sizes (`gamedata.rs:312-470`) are left out.
- GameDataResult.MergeTable: asks that vanilla's rows all have hashes, no two the same, and that changelogs record rows vanilla lacks whole and keep the hashes of the others, which `GameDataLog.LogIsProper` proves of the changelogs the code makes.
- The heap's spin lock, symbol lookup, the mappings of large blocks, `realloc` and the fallback to the system's allocator; addresses are unbounded and rounding down to a power of two is arithmetic instead of a mask. Mapping and unmapping are answers chosen freely among those a kernel may give: fresh, page-aligned, disjoint regions, or a refusal.
- The text of the module list is abstracted to a map; directories under the eight names and `collect` (`code.rs:82-142`) are left out.
- Archives: the name index, big endian archives and names that are not UTF-8. The order of the nodes is a function of the names and the hash key.
- `VecMap.retain` and the iterators.
- Decompression, MSBT, ZIP, RSTB, RSDB, the merge cache, `engine.rs`, `builder.rs`, settings and logging.
- Names in the folder are compared as they are; on the card they are compared without case. A module has no lines when read as a list.
