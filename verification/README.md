# xal, modelled and proved in Dafny

xal indexes a filesystem into two flat, shareable pools, one of inodes and one of extents, and lets
readers walk and look up the index while it is being rebuilt. This project models the hard core of
that library and proves what it is for. It has four parts.

**Index, readers and watch.** The protocol between `xal_index`, `xal_mark_dirty`, the sequence
lock, the readers and the inotify watch is a set of labelled step systems, one step per atomic
operation, and the theorems are about every run: marks are not lost (`IndexProtocol`), readers see
one version of the pool (`SeqlockReaders`), watch threads are started, stopped and joined once
(`WatchLifecycle`), and no change of the filesystem is lost by the watch (`WatchLoop`,
`NoLostChange`, `CallbackLatch`), but in three ways that are named and shown (`LostChanges`).
`NoLostChange` covers a filesystem that changes at any moment of the walk: a directory is watched,
then opened, then listed, and each entry is read by path up to twice, all in separate steps; paths
follow symbolic links where the kernel does, files have any number of names, and any thread may
index at any time. `IndexStates` holds the three states of an index.

**FIEMAP index and lookup.** The pool allocator (`PoolMemory`, `PoolRuns`), the directory walk that fills it
(`FiemapTree`, `FiemapIndex`), the meaning of a filled pool (`Inodes`, `TreePaths`), lookup by
traversal and by map (`Lookup`), and path assembly in a bounded buffer (`InodePaths`).

**khash.** Triangular probing (`Probing`), the table and what it represents (`Khash`), and the
imperative table with its in-place kick-out rehash (`KhashTable`), shown to answer every sequence
of calls like a mathematical map.

**XFS.** Block and inode addresses (`XfsGeometry`), packed records (`XfsFormat`), the file B+tree
and its reader with one shared buffer (`XfsFileBtree`, `XfsBtreeReader`), directory entries
(`XfsDirectory`), retrieval of all inodes (`XfsInodeChunks`, `XfsRetrieval`, `XfsRetriever`), the
directory index over a graph that may have cycles (`XfsTree`, `XfsIndex`), and all of it together,
from the bytes of a device to the pools (`XfsImage`). Readers of bytes are modelled on every input:
where the code would read or write beyond what it has, exceed the stack or abort, the model ends with
an outcome of that name. Section numbers are those of XFS Algorithms & Data Structures, 3rd Edition.

Some promises turned out not to hold for every input. They are kept as the code has them, with a
concrete input and the exact condition, or as much of it as there is:

- `NoLostChange.CleanMeansCurrent` holds of every run without one of three steps, and `LostChanges`
  has a run that loses a change for each of them. `LinkLosesChange`: a directory that is replaced by a
  symbolic link before it is watched takes the watch of another directory over. `SecondNameLosesChange`
  and `LackedNameLosesChange`: a file is written through a name that the index lacks, because its
  directory is not watched yet or because the name is new. `RacingIndexLosesChange`: while another thread
  indexes, the dirty branch of the watch consumes an event without a mark.
- `SeqlockReaders.LookupMayReadFailedIndex`, `SeqlockReaders.LookupVersionBuilt`: a lookup checks for
  a dirty index before it reads the sequence number. It answers from what a failed index left exactly
  if such an index was the last to close the sequence in between.
- `Lookup.TrailingSlashOnFile`, `Lookup.ThroughFileExact`: a path that goes on below a regular file
  is looked up among unrelated inode slots, unless the file has no extents.
- `KhashTable.ShrinkLosesTable`, `KhashTable.Table.Resize`: a resize that shrinks loses the table
  exactly if one of its two reallocations is refused.
- `XfsInodeChunks.LargeInodesAbort`, `XfsInodeChunks.ChunkTaken`: inodes of 2048 bytes, the largest
  there are, abort the retrieval, and with more than 64 inodes to a block it asks the device for one
  block less than none.
- `XfsTree.UndefinedIsEmpty`, `XfsTree.ReadsExact`: an inode of an unknown format is indexed, without
  an error, as an empty one; the index is what the inodes describe exactly if it met none.
- `XfsDirectory.ScanExact`: the entries behind an unused record of a directory block are missed.
- `XfsGeometry.DecodeInvertsEncode`, `XfsGeometry.WideInodeMisread`: inode numbers are decoded
  through a 32-bit parameter, which is right exactly while the relative part fits.
- `XfsFileBtree.RootOfzExact`: the root's pointers are found exactly when the inode has an attribute
  fork.
- `XfsFileBtree.LoopIsDeep`: a node of a file's B+tree that points to itself exhausts the stack.

## Model

| member | source | states |
|---|---|---|
| Probing.ProbeStep | tp/khash.h:237-240 | one loop iteration moves the index from the t-th triangular probe to the next one, modulo the table size |
| Probing.ProbesDistinct | tp/khash.h:237-240 | in a table of 2^m buckets no bucket is probed twice within the first 2^m probes |
| Probing.FirstReturn | tp/khash.h:237-240 | the probe sequence is back at its first bucket after 2n - 1 steps and, within that span, at no other time |
| Probing.ProbeReaches | tp/khash.h:237-240 | whatever the hash, every bucket is among the first n probes |
| Khash.LiveCountIsCardinality | tp/khash.h:542 | the number of live buckets is the number of entries of the represented map |
| Khash.RepUnique | tp/khash.h:230-243 | flags, keys and values represent at most one map |
| Khash.MissAtEmpty | tp/khash.h:237-241 | a search that meets an empty bucket before the key may stop: the key is nowhere in the table |
| Khash.MissEverywhere | tp/khash.h:237-241 | a search that has seen n buckets without the key may stop: the key is nowhere in the table |
| Khash.RemoveAt | tp/khash.h:349-355 | turning a live bucket into a tombstone removes exactly its entry from the represented map |
| Khash.RemoveKeepsFindable | tp/khash.h:349-355 | a tombstone hides no other key: every remaining key is still reached from its hash before any empty bucket |
| Khash.AddAt | tp/khash.h:336-346 | writing a new key into a dead bucket adds exactly that entry |
| Khash.AddKeepsFindable | tp/khash.h:336-346 | filling a bucket on the key's own probe path keeps every key reachable |
| Khash.TakeOut | tp/khash.h:270-276 | taking an entry out of the old table leaves the rest pending and what is already placed untouched |
| Khash.PutDown | tp/khash.h:278-291 | putting an entry into the first empty new bucket of its probe path places it and disturbs nothing pending or placed |
| KhashTable.PutSizes | tp/khash.h:310-318 | the sizes that an insertion asks for: the same size to clear tombstones, the double to grow |
| KhashTable.FirstEmpty | tp/khash.h:278-281 | the inner loop of the rehash finds the first empty bucket of a probe path, and there always is one |
| KhashTable.KickOut | tp/khash.h:277-292 | one kick-out chain ends, places the entry in hand and everything it displaces, and loses nothing |
| KhashTable.Rehash | tp/khash.h:268-294 | with old and new flags live over the same arrays, the rehash ends, keeps the map, makes every key reachable in the new flags and leaves no tombstone |
| KhashTable.Lookup | tp/khash.h:230-243 | the search returns the bucket of the key if there is one, and the table size only if the key is absent, even when no bucket is empty |
| KhashTable.FindSlot | tp/khash.h:319-335 | the search for an insertion returns the key's own bucket, or a dead bucket on its probe path and then the key is absent |
| KhashTable.Table.constructor | tp/khash.h:212-214 | a new table represents the empty map |
| KhashTable.Table.Size | tp/khash.h:542 | the reported size is the cardinality of the represented map |
| KhashTable.Table.Get | tp/khash.h:230-243 | the answer is the bucket of the key exactly when the map holds it |
| KhashTable.Table.Clear | tp/khash.h:223-229 | clearing leaves the empty map |
| KhashTable.Table.Delete | tp/khash.h:349-355 | deleting removes the bucket's key from the map and nothing else; an end or dead bucket changes nothing |
| KhashTable.Table.Resize | tp/khash.h:244-306 | the represented map never changes; a too small size or refused flags or a refused enlargement change nothing; success leaves no tombstone; and the table stays usable if and only if no reallocation of a shrinking resize is refused, in which case success is reported for lost arrays |
| KhashTable.Table.Put | tp/khash.h:307-348 | after an insertion without a value the key is present, no other entry changed, the reported status tells whether it was there, and the load bound that leaves an empty bucket is kept |
| KhashTable.Table.Insert | src/xal_be_fiemap.c:39-65 | inserting a path binds it to the value and changes no other entry; failing memory leaves the map as it was |
| KhashTable.Perform | tp/khash.h:223-355 | each single call answers and changes the table as the mathematical map does |
| KhashTable.Run | tp/khash.h:223-355 | over every sequence of insertions, lookups, deletions and clears, with memory failing anywhere, each answer is the one of a mathematical map driven by the same calls |
| KhashTable.ShrinkLosesTable | tp/khash.h:295-298 | an empty table of 16 buckets, cut down to 4 while the memory for the keys is refused, reports success and has no keys |
| PoolMemory.TilesPartition | src/xal_pool.c:158-241 | the spans handed out are pairwise disjoint and together cover exactly the elements below `free` |
| PoolMemory.Pool.constructor | src/xal_pool.c:62-156 | a fresh pool has handed out nothing and is zero throughout |
| PoolMemory.Pool.Grow | src/xal_pool.c:46-60 | each request gets its own answer: growing extends the accessible range by what was asked, or fails and changes nothing |
| PoolMemory.Pool.Claim | src/xal_pool.c:158-241 | a claim succeeds exactly if the reservation, the 32-bit index and the kernel's answer to this very request allow it, growth clamped to the reservation included; it then returns the next elements, all zero, and extends the tiling |
| PoolMemory.Pool.Clear | src/xal_pool.c:243-253 | a clear takes everything back and leaves every element of the reservation zero |
| PoolRuns.Perform | src/xal_pool.c:158-253 | each claim, write into a claimed span or clear does to the pool what it does to a list of separate arrays |
| PoolRuns.Run | src/xal_pool.c:158-253 | over every sequence of claims, writes and clears, refused at any request, claims read as zero when granted, are separate from all others, and a write changes its own claim only |
| Names.UnderBase | src/xal.c:984-998 | a path is under the base exactly if the base is a prefix that ends at a component boundary, and the rest is what remains |
| Names.SplitInvertsSuffix | src/xal.c:1030-1073 | splitting at slashes gives back the components a path was joined from |
| Names.SuffixInvertsSplit | src/xal.c:1030-1073 | joining the components of any string gives the string back, empty components included |
| Sorting.SortSorts | src/xal_be_fiemap.c:747-753 | sorting entries with distinct names makes them strictly increasing by strcmp |
| Inodes.EncodesLinked | src/xal_be_fiemap.c:755-896 | in a pool that holds a tree every directory's span lies behind it and inside the pool, is strictly sorted, and its entries name it as their parent |
| Inodes.WholePoolLinked | src/xal_be_fiemap.c:755-896 | a pool that holds a tree and is zero elsewhere is well linked at every slot |
| Inodes.SpansDisjoint | src/xal_be_fiemap.c:755-896 | two directories never share an entry slot |
| Inodes.DecodeInvertsEncodes | src/xal_be_fiemap.c:755-896 | reading a pool back by following spans gives exactly the tree it holds, without the unused slots |
| FiemapTree.EntriesSorted | src/xal_be_fiemap.c:785-832 | the listed entries of a directory with distinct names are processed in strictly increasing order |
| FiemapTree.LayoutKidsExact | src/xal_be_fiemap.c:841-877 | the children laid out for a directory are exactly those of its listed entries that get a type |
| FiemapTree.LayoutMirrors | src/xal_be_fiemap.c:1129-1190 | what the walk lays out is the filesystem with everything but directories and regular files left out: no mount roots, no special files and, in reflink mode, no snapshot directories |
| FiemapIndex.Xal.PathMapInsert | src/xal_be_fiemap.c:39-65 | without a map nothing happens; with one, each call by its own grant of memory, the path is bound or the insertion failed and the map is as it was |
| FiemapIndex.Xal.ProcessFile | src/xal_be_fiemap.c:1022-1127 | a file's extents become one contiguous span that its inode names, and no other slot changes; a failing open(), fstat() or ioctl() is returned, and without one, with room and memory, the call succeeds |
| FiemapIndex.Xal.ProcessIno | src/xal_be_fiemap.c:1129-1190 | on success the slot holds the laid-out subtree and the map all its paths; a skipped entry leaves no trace; given room and readable entries it succeeds |
| FiemapIndex.Xal.ProcessDir | src/xal_be_fiemap.c:755-896 | on success a directory's entries are one sorted span, followed by the descendants of each entry in order; a failing watch or opendir() is returned |
| FiemapIndex.Xal.OpenDir | src/xal_be_fiemap.c:785-839 | succeeds exactly if the directory can be watched, opened and listed and its slots are granted; then the entries are read and sorted and one span is claimed for all of them, and otherwise nothing changes |
| FiemapIndex.Xal.ProcessEntries | src/xal_be_fiemap.c:841-877 | entry after entry takes the next slot of the span; slots of skipped entries end up zero behind it |
| FiemapIndex.Xal.ProcessEntry | src/xal_be_fiemap.c:841-877 | one entry is named, linked to its directory and processed, and the slot is reused when it has no type |
| FiemapIndex.Xal.ReadDir | src/xal_be_fiemap.c:785-830 | reading a directory returns exactly the entries that are not dots, skipped types or snapshots |
| FiemapIndex.Xal.Index | src/xal_be_fiemap.c:1192-1297 | after a successful index of any quiescent tree the pools decode to exactly that tree, filtered; they are well linked; the map holds exactly its paths; and with room and readable directories the index succeeds |
| TreePaths.MapIsLocate | src/xal_be_fiemap.c:879-885 | a path is in the map of a tree exactly if its names lead to a node, and then to that node's slot |
| TreePaths.PreOrderIsVisits | src/xal.c:427-485 | following the spans of an encoded pool visits the tree in pre-order with the right depths |
| Lookup.BSearchFinds | src/xal.c:1055-1057 | binary search over sorted slots finds the slot with the name |
| Lookup.SearchDir | src/xal.c:1046-1062 | in an encoded directory binary search answers for every name: the slot of that entry, or nothing |
| Lookup.FindChild | src/xal.c:1038-1062 | while any other thread rewrites the pool between any two reads, one step of the traversal touches only slots that are accessible then, and the child it returns is one of them; over a pool that stayed the same it is the child of that name |
| Lookup.FollowComponents | src/xal.c:1030-1083 | under the same rewriting the loop ends after at most as many rounds as there are components, touching and returning accessible slots only; over an unchanged pool it follows the components |
| Lookup.SearchByTraversal | src/xal.c:1000-1083 | the whole traversal, under any rewriting, is bounded by the number of components and touches and returns accessible slots only; over an unchanged pool it answers as the definition over the split path does |
| Lookup.SearchSpan | src/xal.c:1055-1057 | under any rewriting the binary search touches only the checked span and ends; over an unchanged pool it answers as binary search does |
| Lookup.TraverseIsLocate | src/xal.c:1000-1083 | on an encoded tree traversal leads where the names lead, unless a name lies under a regular file |
| Lookup.ThroughFileExact | src/xal.c:1038-1062 | everything under a regular file is answered with -ENOENT if and only if the file's extent count is zero |
| Lookup.TrailingSlashOnFile | src/xal.c:1000-1083 | for "/mnt/f/" with a one-extent file f traversal returns the root directory, while the map answers -ENOENT |
| Lookup.MapAnswers | src/xal_be_fiemap.c:1388-1454 | the map filled for a tree answers every path by where it leads, with -EINVAL outside the base and -ENOENT for what is missing |
| Lookup.LookupsAgree | src/xal_be_fiemap.c:1388-1454 | for every path none of whose proper prefixes names a regular file, traversal and map give the same inode or the same error |
| Lookup.GetInode | src/xal_be_fiemap.c:1388-1454 | in either mode the lookup returns what the path leads to in the tree |
| InodePaths.Assemble | src/xal.c:777-814 | for any pool, torn or not, assembly ends, never writes outside the buffer, and appends the chain of names exactly if the chain is sound and fits |
| InodePaths.InodePath | src/xal.c:816-877 | the path is returned, terminated, exactly if it exists and fits the buffer with its terminator |
| InodePaths.ChainSpells | src/xal.c:777-814 | the chain of parents of a slot spells the names that lead to it |
| InodePaths.PathRoundTrip | src/xal.c:816-877 | looking up the assembled path of any reachable inode, by traversal or by map, returns that inode |
| InodePaths.PathsDistinct | src/xal.c:816-877 | distinct inodes have distinct paths |
| InodePaths.LookupReassembles | src/xal.c:984-1083 | every path that is found re-assembles to itself, up to a slash after the root |
| InodePaths.BuildWalk | src/xal_be_fiemap.c:1299-1336 | with one buffer for all paths, the walk adds exactly the paths of the subtree, and succeeds exactly if all of them fit and every insertion gets its memory |
| InodePaths.BuildLookupMap | src/xal_be_fiemap.c:1338-1386 | a dirty index is refused and keeps its map; otherwise the rebuilt map equals the one filled during indexing exactly if all paths fit and the map and every insertion get memory, and else there is none |
| IndexProtocol.OneIndexAtATime | src/xal.c:394-416 | in every run at most one index is inside |
| IndexProtocol.SecondCallRefused | src/xal.c:394-416 | while one is inside, a second call can only be refused, and the refusal changes nothing |
| IndexProtocol.CleanMeansUnmarked | src/xal.c:544-562 | once an index has run, CLEAN means that every mark so far came before the latest index stored INDEXING, that this index succeeded, and that the pool is what it built |
| IndexProtocol.MarkSurvivesIndex | src/xal.c:550-562 | a mark that lands while an index runs leaves the index DIRTY when it settles, whatever its outcome |
| IndexProtocol.PoolStable | src/xal_be_fiemap.c:1205-1297 | the sequence number never decreases, and while it keeps one even value the pool does not change |
| IndexProtocol.WithoutExclusionMarksAreLost | include/xal.h:80-84 | without the exclusion flag there is a run that ends CLEAN although a mark was erased and the latest index has not finished |
| SeqlockReaders.WalkSeesOneVersion | src/xal.c:418-527 | for every interleaving with indexes and marks, a walk from any slot that is accessible when it begins and that returns 0 called back in exact pre-order over one version of the tree, built by a successful index |
| SeqlockReaders.LookupSeesOneVersion | src/xal.c:1085-1145 | for every interleaving and every program of reads, a lookup that succeeds gives the answer of running alone on one pool, the one that the run had at the even sequence number the lookup read |
| SeqlockReaders.LookupVersionBuilt | src/xal.c:1085-1145 | that pool was built by a successful index, or precedes all of them, if and only if the last index that closed the sequence between the dirty check and the sequence reading, if any, succeeded |
| SeqlockReaders.QuietLookupIsBuilt | src/xal.c:1085-1145 | it was, whenever no index begins during the call |
| SeqlockReaders.LookupMayReadFailedIndex | src/xal.c:1102-1144 | a run in which a lookup succeeds on what a failed index left behind |
| WatchLifecycle.JoinedAtMostOnce | src/xal_be_fiemap_inotify.c:49-72 | in every run with any number of callers, no thread is joined twice |
| WatchLifecycle.ClaimsAreExclusive | src/xal_be_fiemap_inotify.c:49-72 | no two callers wait for the same thread, and none for a joined one |
| WatchLifecycle.ThreadsAccountedFor | src/xal_be_fiemap_inotify.c:624-746 | outside the lifecycle lock, threads created = joined + claimed and not yet joined + one if JOINABLE |
| WatchLifecycle.OneThreadInLoop | src/xal_be_fiemap_inotify.c:624-703 | at most one thread is inside the watch loop |
| WatchLifecycle.StopStands | src/xal_be_fiemap_inotify.c:49-72 | a requested stop stays set until the claimed thread has raised EXITED, even against a racing start |
| WatchLifecycle.StartNeverOverlaps | src/xal_be_fiemap_inotify.c:624-703 | a start that creates a thread finds no live one |
| NoLostChange.PathsHold | src/xal_be_fiemap_inotify.c:324-376 | without an alarm the path assembled from the index for a directory still leads to that directory, links on it followed |
| NoLostChange.PathInjective | src/xal_be_fiemap.c:770-785 | two nodes of the walk whose paths, without links, now name one directory are one node, so a directory met twice in a walk has moved in between or was reached through a link |
| NoLostChange.ChangeSound | src/xal_be_fiemap.c:755-896 | any change of what a name stands for, even one whose event is lost to an overflow, leaves every recorded entry in agreement with the filesystem or with something pending that reports it |
| NoLostChange.WriteSound | src/xal_be_fiemap_inotify.c:229-262 | so does a write of a file with any number of names, through any of them, inside or outside the tree, reported by that name only, unless the index has the file and lacks the name |
| NoLostChange.StatSound | src/xal_be_fiemap.c:1129-1190 | an entry read by a path whose links are followed, except in the last place, agrees with the watched directory, or a pending event says that the path has moved |
| NoLostChange.DescendSound | src/xal_be_fiemap.c:770-785 | descending by path, links followed to the end, into a directory and watching it keeps that, whatever has taken its place since it was listed, unless a link led to a directory that is indexed under another path |
| NoLostChange.StatxEventSound | src/xal_be_fiemap_inotify.c:463-477 | in either branch, dropping an event whose name a clean index lacks and whose path is a skipped type now loses nothing, nor does an answer for a path of an index that has been rewritten since |
| NoLostChange.NextEventSound | src/xal_be_fiemap_inotify.c:401-501 | nor does any other answer to an event, during a walk or after it, unless the dirty branch consumes one that the walk or a clean index has yet to hear of |
| NoLostChange.RunInv | src/xal_be_fiemap.c:1232-1245 | the invariant behind it holds in every run, with any thread indexing at any time, in which no watch is taken over through a link, no indexed file is written through a name that the index lacks, and the dirty branch swallows nothing |
| NoLostChange.SurvivorsAreMarked | src/xal_be_fiemap_inotify.c:401-501 | the events that the theorem calls surviving are exactly those that the clean branch answers by marking the index dirty |
| NoLostChange.CleanMeansCurrent | src/xal_be_fiemap_inotify.c:401-613 | in every such run, when the index is clean, no surviving event is queued and the watch thread is not between reading and marking, every name of every indexed directory is recorded as it is on the filesystem now: its type, and of regular files the identity, metadata and mapping; and its path leads there |
| NoLostChange.AloneSwallowsNothing | src/xal_be_fiemap_inotify.c:532-577 | if only the callback re-indexes then the dirty branch swallows nothing |
| NoLostChange.OneNameSneaksNothing | src/xal_be_fiemap_inotify.c:457-477 | a write of a file through the only name it has is never hidden from the index |
| NoLostChange.CallbackCleanMeansCurrent | src/xal_be_fiemap_inotify.c:401-613 | the theorem for an application that leaves indexing to the callback, with files of one name each and a walk that descends through no link |
| LostChanges.RacingIndexLosesChange | src/xal_be_fiemap_inotify.c:568-577 | a run with an index beside the watch that ends clean, with nothing queued and the watch idle, while the index lacks a file that is there; it is not one of the safe runs |
| LostChanges.SwallowedUnmarked | src/xal_be_fiemap_inotify.c:568-577 | in any state, what the dirty branch swallows is forgotten and leaves no mark |
| LostChanges.LinkLosesChange | src/xal_be_fiemap_inotify.c:229-262 | a run with one index and the watch that ends the same way while the index holds a directory where there is a symbolic link; it is not one of the safe runs |
| LostChanges.TakeoverMovesWatch | src/xal_be_fiemap_inotify.c:247-260 | descending into a directory that another node has moves its watch from that node to the new one |
| LostChanges.TakenOverEventDropped | src/xal_be_fiemap_inotify.c:457-477 | in any state, once a directory's watch leads to a node that lacks a name whose path is skipped, an event on the name is dropped, whatever the directory's own node records for it |
| LostChanges.SecondNameLosesChange | src/xal_be_fiemap.c:770-785 | a run with one index and the watch in which a file that the walk has read is written through its other name, in a directory that is not watched yet: it ends clean and quiet with a stale entry |
| LostChanges.LackedNameLosesChange | src/xal_be_fiemap_inotify.c:457-477 | a run in which an indexed file gets another name, is written through it, and the name is then taken by a special file: all events are dropped and the entry is stale |
| LostChanges.SneakLeavesStale | src/xal_be_fiemap_inotify.c:457-477 | in any state, such a write makes an entry that agreed disagree, and of the events only the one about the other name is new, and none if its directory is not watched |
| CallbackLatch.FiresExactly | src/xal_be_fiemap_inotify.c:532-553 | when only the callback re-indexes, a dirty index is called back exactly if the loop was re-armed or the last callback left a newer version by a successful index; so a failed re-index is not repeated and a surviving mark gets its own callback |
| CallbackLatch.FiresIncrease | src/xal_be_fiemap_inotify.c:532-553 | between two re-arms callbacks come at strictly increasing even sequence numbers |
| XfsGeometry.OffsetsIncrease | src/xal.c:31-52 | offsets of valid blocks are block-aligned, inside the device, and increase by at least a block from one valid number to the next |
| XfsGeometry.BytesAreBlocks | src/xal.c:924-942 | an extent inside one allocation group converts to exactly the union of its blocks' byte ranges |
| XfsGeometry.DecodeInvertsEncode | src/xal_be_xfs.c:113-142 | decoding inverts the layout of section 13.3.1 if and only if the part of the number relative to its group fits 32 bits |
| XfsGeometry.SmallGroupsAreNarrow | src/xal_be_xfs.c:113-142 | it fits for every inode of a group of at most 2^32 inodes |
| XfsGeometry.WideInodeMisread | src/xal_be_xfs.c:113-121 | with 2^33 inodes in a group the inode at block 2^29 is decoded to block 0 |
| XfsGeometry.InodesDisjoint | src/xal_be_xfs.c:168-180 | distinct inode numbers within that limit occupy disjoint bytes of the device |
| XfsFormat.UnpackInvertsPack | src/xal_be_xfs.c:551-565 | decoding a packed extent gives the extent back, all four fields |
| XfsFormat.PackInvertsUnpack | src/xal_be_xfs.c:551-565 | every 128-bit record re-packs to its original bits after decoding |
| XfsFormat.ReadRecordInverts | src/xal_be_xfs.c:1153-1166 | the 16 big-endian bytes of a record decode to the extent they were laid out from |
| XfsFormat.RecordBytesInverts | src/xal_be_xfs.c:1153-1166 | the 16 bytes of any record re-pack to the same bytes after decoding |
| XfsFileBtree.RootOfzExact | src/xal_be_xfs.c:212-234 | the library's offset of the root's pointers is the format's if and only if `di_forkoff` is not zero |
| XfsFileBtree.LeafReads | src/xal_be_xfs.c:1103-1172 | what the reader makes of a leaf block laid out by the format is the leaf's records |
| XfsFileBtree.NodeReads | src/xal_be_xfs.c:1174-1248 | for a stored tree of any depth that the stack holds, a child one level below its parent, reading gives the leaf records in order |
| XfsFileBtree.WellLevelledStored | src/xal_be_xfs.c:1174-1248 | a device whose blocks have the right magic, level and counts all the way down is the layout of a tree, keys and records re-packing to their bytes |
| XfsFileBtree.StoredWellLevelled | src/xal_be_xfs.c:1174-1248 | and only such a device is |
| XfsFileBtree.FlattenIncreasing | src/xal_be_xfs.c:1174-1248 | in a tree of any depth whose keys are ordered and bound the records below them, the records in order increase in file offset and do not overlap |
| XfsFileBtree.LoopIsDeep | src/xal_be_xfs.c:1174-1248 | a node above level 1 whose first pointer is its own block exhausts any stack |
| XfsFileBtree.RootReads | src/xal_be_xfs.c:1260-1320 | the same from the root in the inode: all leaf records of the file in order |
| XfsFileBtree.RootIncreasing | src/xal_be_xfs.c:1260-1320 | with ordered keys the extents read from the root increase in file offset and do not overlap |
| XfsBtreeReader.Reader.DevRead | src/xal_be_xfs.c:40-71 | a read replaces the shared buffer's block, or fails with -EINVAL if it is too large or unaligned for the device and with -EIO otherwise |
| XfsBtreeReader.Reader.ProcessLeaf | src/xal_be_xfs.c:1103-1172 | for any bytes: what happens is what the block says, records, an error or an overrun; on success its records are appended and nothing else, a bad block gives its error and changes nothing, and a good one succeeds if the pool has room |
| XfsBtreeReader.Reader.ProcessNode | src/xal_be_xfs.c:1174-1248 | for any bytes, cycles and overfull blocks included, and although the recursion overwrites the shared buffer: on success exactly the records below all its pointers are appended, it succeeds if every block is good and there is room, and otherwise it ends as the bytes say |
| XfsBtreeReader.Reader.ProcessRoot | src/xal_be_xfs.c:1260-1320 | for any inode: on success its span is one contiguous run of extents equal to the in-order concatenation of the leaf records; pointers outside the inode are an overrun |
| XfsDirectory.LocalInvertsShortForm | src/xal_be_xfs.c:1327-1374 | decoding inverts the short-form layout of section 20.1 for both inode number widths, whatever surrounds it |
| XfsDirectory.DecodeLocal | src/xal_be_xfs.c:1327-1374 | for any bytes the cursor loop decodes exactly the claimed entries, or finds that they run past the inode |
| XfsDirectory.DentryInverts | src/xal_be_xfs.c:1462-1498 | a stored data entry is decoded to what was stored, with its length padded to 8 bytes |
| XfsDirectory.ScanFindsFront | src/xal_be_xfs.c:1528-1571 | the scan of laid-out records, with the leaf array of a block-format directory behind them or without, stays inside the buffer and finds exactly the entries in front of the first unused record, in order |
| XfsDirectory.ScanEndsAtLeaves | src/xal_be_xfs.c:1528-1571 | the leaf array ends the scan even if no unused record precedes it: its second hash is at most that of the entry for the parent directory, so the byte that would be the length of a name is zero |
| XfsDirectory.ScanExact | src/xal_be_xfs.c:1503-1576 | of a whole block behind its 64-byte header it finds all entries if and only if none is behind an unused record |
| XfsInodeChunks.InodesAreAllocated | src/xal_be_xfs.c:323-411 | a tree's records describe no more live inodes than ones outside holes |
| XfsInodeChunks.NumberIsEncoded | src/xal_be_xfs.c:113-121 | the number of the i-th inode of a chunk is the encoding of a valid place of section 13.3.1 |
| XfsInodeChunks.InodeAddress | src/xal_be_xfs.c:347-395 | the bytes copied for an inode of a chunk are those at the address of its number |
| XfsInodeChunks.ChunkTaken | src/xal_be_xfs.c:347-380 | a chunk is read if and only if it starts a block, a block has at most 64 inodes, these are smaller than 2048 bytes and the device reads it; and the process aborts exactly on a chunk that starts inside a block or has inodes of 2048 bytes or more |
| XfsInodeChunks.LargeInodesAbort | src/xal_be_xfs.c:362-367 | on a sane filesystem with blocks of 4096 and inodes of 2048 bytes every chunk aborts |
| XfsRetrieval.NumberedLeads | src/xal_be_xfs.c:394-404 | the map holds the number of every copied inode and leads to one that carries it |
| XfsRetrieval.RetrievalExact | src/xal_be_xfs.c:496-543 | over well-formed inode B+trees the map's keys are exactly the numbers of the inodes that are neither in a hole nor free, and each leads to the bytes at the address of its number |
| XfsRetriever.Retriever.RetrieveChunk | src/xal_be_xfs.c:332-406 | one chunk succeeds exactly if it can be taken and the array and the map have room for its live inodes, which it then appends; a chunk that cannot be taken gives its own outcome, abort included, and changes nothing |
| XfsRetriever.Retriever.RetrieveLeaf | src/xal_be_xfs.c:323-411 | for any bytes a leaf succeeds exactly if it claims no more records than the buffer holds and all of them can be taken, and then appends their live inodes in order |
| XfsRetriever.Retriever.RetrieveNode | src/xal_be_xfs.c:416-446 | a node does the same for what is below its pointers, cycles and overfull nodes included |
| XfsRetriever.Retriever.Retrieve | src/xal_be_xfs.c:453-494 | for any bytes a tree succeeds exactly if its blocks are good, its depth fits the stack and its records can be taken, and then appends their live inodes; it aborts only over a record that the source asserts against |
| XfsRetriever.Retriever.RetrieveAll | src/xal_be_xfs.c:496-543 | all groups together: retrieval succeeds if and only if the map and the array get memory, every tree is good, every chunk can be taken and both have room; the array then holds the live inodes of the filesystem in order and the map numbers them |
| XfsRetriever.CountsSuffice | src/xal_be_xfs.c:519-543 | if each `agi_count` is what its group's tree has outside holes then the array that is sized by their sum is never overrun, and only memory for the map can be wanting |
| XfsTree.SpanSorted | src/xal_be_xfs.c:1393-1400 | the entries of a directory that is reached, in span order, are strictly sorted, well named, and directories or regular files, and its directories are reached too |
| XfsTree.ReadsUnique | src/xal_be_xfs.c:1693-1808 | what the inodes below a number are read as is at most one tree |
| XfsTree.UnfoldsReads | src/xal_be_xfs.c:1728-1803 | what the inodes describe is also what they are read as |
| XfsTree.ReadsExact | src/xal_be_xfs.c:1728-1803 | what is read is what the inodes describe if and only if none of an undefined format was gone through |
| XfsTree.UndefinedIsEmpty | src/xal_be_xfs.c:1728-1803 | a directory of an undefined format describes no tree and is read as an empty directory |
| XfsTree.NoTreeOnCycle | src/xal_be_xfs.c:1693-1808 | a directory on a cycle of the directory graph is read as no tree, so no index through it can succeed |
| XfsIndex.Xal.TakeEntry | src/xal_be_xfs.c:596-623 | an entry takes the next slot exactly if it is a directory or regular file, an unknown type being read from the inode; an undefined type is refused |
| XfsIndex.Xal.TakeEntries | src/xal_be_xfs.c:1349-1391 | the loop over one list of entries leaves exactly the kept ones in one contiguous span |
| XfsIndex.Xal.TakeBlocks | src/xal_be_xfs.c:1613-1665 | the loop over the data blocks does the same for a directory with extents or a B+tree, without the two mandatory entries; foreign blocks are passed over and a failing one ends it with its error |
| XfsIndex.Xal.SortSpan | src/xal_be_xfs.c:1393-1400 | the span is sorted by name in place and nothing else moves |
| XfsIndex.Xal.ProcessSpan | src/xal_be_xfs.c:1402-1411 | the entries are processed in order, each naming its directory as parent |
| XfsIndex.Xal.ProcessFile | src/xal_be_xfs.c:1422-1455 | a file's extents become one span that its inode names, and nothing else changes; it succeeds whenever the pool has room |
| XfsIndex.Xal.ProcessIno | src/xal_be_xfs.c:1693-1808 | the call ends for every directory graph, cyclic ones included; it succeeds if the inode is read as a tree that fits the pools, and only with the slot holding exactly that tree; an undefined format is read as empty |
| XfsIndex.Xal.Index | src/xal_be_xfs.c:1810-1855 | on success the pools hold exactly the tree that the root is read as, every slot is well linked and decoding gives the tree back; it is the tree that the root describes if and only if no undefined format was met; the index succeeds whenever there is such a tree and room for it |
| XfsImage.HoldsUnfolds | src/xal_be_xfs.c:1693-1808 | a tree that the device holds in the layouts of the format, short-form, block and data directories, inline and B+tree files, is what its inodes describe to the code |
| XfsImage.IndexImage | src/xal_be_xfs.c:1810-1855 | from the inodes to the pools: if the device holds a tree below the root and there is room then the index succeeds and the pools decode to that tree |
| XfsImage.GoodNames | src/xal_be_xfs.c:1693-1808 | what a tree of the device reaches as a directory has distinct and valid names, which is all that the index needs of names |
| XfsImage.RetrievedFromDevice | src/xal_be_xfs.c:496-543 | the inodes by number that the index starts from are, over well-formed inode B+trees, exactly the live ones, each with the device's bytes at its address |
| XfsImage.RetrieveImage | src/xal_be_xfs.c:496-543 | on a well-formed device retrieval succeeds exactly if the map gets memory for each live inode, and leaves exactly the live inodes by number |
| XfsImage.IndexDevice | src/xal_be_xfs.c:1810-1855 | from the bytes of a well-formed device and its allocation group headers, through retrieval and index, to the pools: with memory and room they decode to the tree that the device holds |

## Left out

- NoLostChange.CleanMeansCurrent: a mount over an entry is not a change, and a rename is two steps, its removal and its appearance. A rename of a directory above the mountpoint or, with `opts.subtree`, above the subtree raises no event; here every move of the root's path does. A write through a mapping is a write through a name in no watched directory.
- NoLostChange.CleanMeansCurrent: the converse is one run for each of the three steps and, in any state, SwallowedUnmarked, TakeoverMovesWatch with TakenOverEventDropped, and SneakLeavesStale; not every such step loses a change, since the next index makes up for it.
- NoLostChange.StatSound: the size that the source records for a directory is not modelled; it is read before the directory is watched, so an entry made in between leaves it stale without an event.
- SeqlockReaders.LookupSeesOneVersion: states the single-version half only, because the dirty check precedes the sequence reading; LookupVersionBuilt says exactly when the version is one that an index built.
- FiemapIndex.Xal.Index: the filesystem is quiescent during the walk; what changes do to it is the subject of NoLostChange.
- XfsBtreeReader.Reader.ProcessNode: what the code does behind the end of a block, of an inode or of the stack is one outcome each and is not followed.
- XfsRetriever.Retriever.Retrieve: likewise; blocks are at most 65536 bytes, which the superblock's reader does not check.
- XfsIndex.Xal.ProcessFile: the extents of a B+tree are claimed at once, where the source claims them leaf by leaf into the same span; a refusal in between leaves fewer or more of them claimed.
- XfsIndex.Xal.TakeBlocks: takes the decoded entries of each block; XfsImage derives them from the bytes. The result of a directory with extents but no block, which the source never sets, is a parameter.
- XfsImage.HoldsUnfolds: no directory in B+tree format, whose reader takes the record count from the level and knows no interior nodes, and no entry behind an unused record.
- XfsIndex.Xal.Index: the names of each directory that is reached are distinct and are file names.
- KhashTable.Table.Resize: the two flag bits of a bucket are one of three values, bucket counts are unbounded instead of 32 bits wide, and the load factor is the exact integer 77 percent rounded, instead of a floating-point product.
- Device reads, ioctls, statx(), mmap(), mprotect() and allocation are parameters that may fail: readable blocks and images, an answer to each request for memory, errors carried by directory entries.
- Weak memory: every atomic operation is sequentially consistent.
- The hash map lookup racing a re-index, which the library asks its callers to serialise.
- Reflink cloning, the conversion of FIEMAP bytes to blocks and the extent flags.
- The watch map of the walk as a hash table: in WatchLoop it is a map from directories to slots.
- Shared memory publication and attachment (`xal_from_shm`), opening and closing a handle, and the superblock and allocation group headers.
- Conversion to LBA.
- The command line tools, pretty-printers, configuration and server.
