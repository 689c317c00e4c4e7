# simplefs, modelled and proved

simplefs is a small Linux file system: a block allocator with one free bitmap, files and
directories as two-level extent trees (one root block, up to 255 leaf blocks of 340 extents),
a cached index over directory slots, one packed block of extended attributes per inode, and a
JBD2 adapter with a recovery marker. The modules below model that code and prove what it
keeps. The question they share is which inode owns which block.

How the pieces fit:

- `Extents`, `ExtentBuffers`, `Surgery`, `Unwritten`: an extent buffer denotes a partial map
  from logical block to (physical block, unwritten flag), written `Lookup`. `Uses` counts how
  often a physical block is referenced. Sorting and merging keep both; punch, truncate,
  collapse and insert are re-indexings of the map (`Reindexed`) that free exactly what they
  drop (`Dropped`).
- `Bitmaps`: the allocator, as a class over two bitmaps, a counter and a busy set.
- `ExtentTree`, `FileOps`, `ZeroRanges`, `FileEdits`: loading and publishing trees, and the
  operations of a file on top of the allocator. They share one conservation clause,
  `Free' == Free + TreeBlocks(before) - TreeBlocks(after)`, and one about `i_blocks`
  (`InodeInfo.Counts`). On a healthy volume each has one outcome: it succeeds if and only if
  the list it makes can be published (`SyncError`).
- `Protocol`: without a journal, any number of inodes of every kind editing at once, with
  write-back at any moment; every reachable state is a possible crash point.
- `Journalled`: the same edits inside handles, without the waits, with commits and crashes
  anywhere. Each of its steps is a run of `Protocol` with immediate write-back.
- `EditRuns`: that machine never gets stuck. Every plan can be carried through or undone,
  every inode evicted, and a commit makes it last.
- `Mkfs`, `Rebuild`, `Conservation`: the bitmap recomputed from the inode table agrees with the
  one kept incrementally, from mkfs onward, and the `i_blocks` fields add up to what is used.
- `Discard`, `DiscardCrash`: which blocks are discarded, and when no live block goes with them.
- `Lifecycle`: what a clean recovery marker on the device means, and what a mount shows.
- `DirMaps`, `DirIndexes`, `Readdir`: a directory's blocks, the index against its slots, and
  scans of a changing directory.
- `Namespace`: link counts, recorded parents and the shape of the directory tree.
- `Xattr`: the attribute block, byte by byte, as a finite map.

Outcomes the kernel decides (a failing journal write, a refused allocation, a full reader
buffer) are inputs: `SbInfo.faults`, or a parameter of the method. Integers are unbounded
except where 32-bit wrap-around is modelled (`Mkfs`) or a field width matters (`Xattr`).

Results that differ from what a reader of the source might expect:

- simplefs/simplefs_super.c:770-773 promises that no partial edge unit is ever sent, because
  one could take neighbouring live blocks with it. The rounding macros are mask arithmetic on
  a granularity rounded to blocks, so this is true if and only if the granularity the device
  advertises is a power of two in bytes: `Discard.AlignedIffPowerOfTwo`, and for the
  neighbours `DiscardCrash.SparesNeighboursIffPowerOfTwo`. A power of two of blocks is not
  enough (`Discard.PowerOfTwoBlocksIsNotEnough`), and with 48-block units a live block is lost
  (`DiscardCrash.PartialUnitLosesLiveBlock`). Units are counted from the start of the file
  system's own device here; on a partition that does not begin on a unit boundary even a power
  of two is not enough.
- There is no reconfigure operation (simplefs/simplefs_fs.c:61-65), so a read-only mount that
  is remounted writable never sets the recovery marker. The promise of a clean marker survives
  such a remount if and only if the marker was dirty: `Lifecycle.RemountKeepsPromiseIffDirty`,
  and `Lifecycle.CleanReadOnlyMountIsReached` leads from a formatted volume to the failure.
- An eviction gives its blocks back before it clears the inode's record, and without a journal
  nothing orders the two on the device (simplefs/simplefs_super.c:381-425). The record on the
  device names a free or foreign block exactly from the first block put until the table block
  is written: `Conservation.RecordHarmlessIff`. A committed image never does:
  `Journalled.EveryRunIsSafe`.
- A first attribute that is refused after its block was allocated leaves the inode naming a
  block that nothing was written to (simplefs/simplefs_xattr.c:160-171, 207-211, 280-287). The
  exact condition is in `Xattr.XattrInode.Set`; a block of zeros, for one, then fails to
  validate (`Xattr.ZerosDoNotValidate`).
- When simplefs_get_block has taken a run and cannot publish it, i_blocks stays raised
  (simplefs/simplefs_file.c:702-706 and 757-765), and if the run was to lengthen an extent it
  is not given back either. The exact conditions are in `FileOps.GetBlock`, and over all steps
  of all inodes in `Conservation.StepKeepsBooksIff`.
  `FileOk` therefore bounds the count from below, and `InodeInfo.Counts` is kept by success.
- When simplefs_zero_range_full_blocks runs out of blocks it keeps the ones it has taken:
  marked used, counted in i_blocks, and mapped nowhere (simplefs/simplefs_file.c:494-497,
  526-531). Without a fault this happens exactly when the range has more holes than there are
  blocks to be had: `ZeroRanges.ZeroRange`.
- The merge pass can leave two neighbours that it would merge. In a sorted buffer whose empty
  records are cleared ones this happens if and only if a cleared record stands behind the
  extent at block 0, the next record continues that extent, and the two would fit one extent
  together with the chain that follows:
  `ExtentBuffers.FullyMergedIffNotBlocked`, with `ExtentBuffers.ClearedRecordBlocksMerge` as
  the example. The map is right either way.

## Model

| member | source | states |
|---|---|---|
| ExtentBuffers.ExtentBuffer.FindExtent | simplefs/simplefs_extent.c:219-244 | On a sorted list, finds the extent that holds the block, or the place where one would be inserted: everything before ends at or below the block, everything after begins above it. |
| ExtentBuffers.ExtentBuffer.InsertExtent | simplefs/simplefs_file.c:284-300 | The record is at the index, all others keep their order around it. |
| ExtentBuffers.SwapKeepsMeaning | simplefs/simplefs_extent.c:264-269 | Exchanging two records of a disjoint list changes no lookup and no use count. |
| ExtentBuffers.MergeKeepsMeaning | simplefs/simplefs_extent.c:279-295 | Joining two adjacent compatible records changes no lookup and no use count. |
| ExtentBuffers.DropEmptyKeepsMeaning | simplefs/simplefs_extent.c:274-277 | Removing an empty record changes no lookup and no use count. |
| ExtentBuffers.ExtentBuffer.SortByBlock | simplefs/simplefs_extent.c:264-269 | The in-place exchange sort orders the buffer by logical block, keeps its records and its meaning, and leaves a first record at block 0 where it is. |
| ExtentBuffers.ExtentBuffer.MergePass | simplefs/simplefs_extent.c:271-298 | The merge loop on a sorted disjoint buffer gives an ascending list without empty records and with the same meaning, so no block is lost to the 8192-block cap. |
| ExtentBuffers.ExtentBuffer.Normalize | simplefs/simplefs_extent.c:260-299 | For any disjoint buffer the result is canonical and has the same map and the same use of every physical block; if no record was empty, no adjacent pair is still mergeable, and for a sorted buffer with cleared records the exact condition is given; what an edit leaves settles to a list given outright. |
| ExtentBuffers.ClearedRecordBlocksMerge | simplefs/simplefs_extent.c:271-298 | A concrete buffer with a cleared record between two mergeable ones that stay unmerged. |
| ExtentBuffers.FullyMergedIffNotBlocked | simplefs/simplefs_extent.c:271-298 | In a sorted disjoint buffer whose empty records are cleared ones, a mergeable pair is left if and only if a cleared record stands behind the extent at block 0 and the records behind the cleared ones, up to the end of their longest chain, continue it within one extent's size. |
| ExtentBuffers.ChunkIsLongestChain | simplefs/simplefs_extent.c:271-298 | The first extent the pass makes of a list is the longest chain of adjoining records that fits 8192 blocks. |
| ExtentBuffers.CanonicalIsUnique | simplefs/simplefs_extent.c:260-299 | An ascending list without empty records is determined by the set of its records, so what the sort and the merge make of a buffer does not depend on the order it was in. |
| Surgery.CutIsEdit | simplefs/simplefs_file.c:1708-1787 | What each loop does to one extent is the edit on that extent: re-indexed map, freed ranges equal to the dropped blocks, at most two pieces. |
| Surgery.PunchExtents | simplefs/simplefs_file.c:1708-1787 | Punch removes exactly the blocks of the range from the map of any sorted disjoint list; the freed ranges are the physical image of what was removed; the buffer holds the pieces of every extent in order. |
| Surgery.TruncateExtents | simplefs/simplefs_inode.c:1523-1554 | Truncate restricts the map to the blocks below the new end; the freed ranges are the physical image of the rest. |
| Surgery.CollapseExtents | simplefs/simplefs_file.c:2011-2077 | Collapse removes the range and shifts what follows left; the freed ranges are the physical image of the removed blocks. |
| Surgery.InsertExtents | simplefs/simplefs_file.c:2168-2214 | Insert shifts everything from the offset on right and frees nothing. |
| Surgery.CutAllSize | simplefs/simplefs_file.c:1708-1787 | No edit of a sorted list makes more than one extent more, and truncation makes none. |
| Surgery.FreedIsRemovedImage | simplefs/simplefs_file.c:1708-1799 | A physical block is freed as often as a removed logical block maps to it, and not at all otherwise. |
| Surgery.InsertThenCollapse | simplefs/simplefs_file.c:2168-2227 | Inserting a range and collapsing it again gives the original map and frees nothing. |
| Surgery.CollapseThenInsertIsPunch | simplefs/simplefs_file.c:2011-2099 | Collapsing a range and inserting one of the same size there equals punching it. |
| Surgery.SameUsesSameTotal | simplefs/simplefs_file.c:1789-1799 | Lists that use the same physical blocks have the same block total. |
| Unwritten.FlagExtent | simplefs/simplefs_file.c:302-390 | The in-place split of one extent puts its at most three pieces where it was and leaves the other records alone. |
| Unwritten.FlagStep | simplefs/simplefs_file.c:302-390 | That split changes the flag of exactly the chosen blocks, keeps every physical address, and keeps the list canonical. |
| Unwritten.ConvertUnwrittenRange | simplefs/simplefs_file.c:135-162 | The rescan that resumes at index 1 ends, and has converted every unwritten block of the range and nothing else. |
| Bitmaps.GetFirstFreeBitsFrom | simplefs/simplefs_bitmap.h:88-105 | Takes the first run of the length at or after the start, or returns 0 and changes nothing when there is none. |
| Bitmaps.SbInfo.PrepareNewBlocks | simplefs/simplefs_journal.c:457-526 | Asks for another candidate exactly when a block of the run is held by a transaction. |
| Bitmaps.SbInfo.GetFreeBlocks | simplefs/simplefs_bitmap.h:142-202 | Ends, and returns the least start of a run that is entirely free and not held by the journal, or 0 when none exists; rejected candidates are restored exactly; counter and pending bits stay right. |
| Bitmaps.SbInfo.TakeExactBlocks | simplefs/simplefs_bitmap.h:230-270 | Takes this run if and only if it is inside the device, free and not held; otherwise nothing changes. |
| Bitmaps.SbInfo.PutBlocks | simplefs/simplefs_bitmap.h:320-375 | Frees the run and marks it pending when it is wholly allocated and does not hold the root directory's block; after a shutdown, or for any other run, nothing changes. |
| Bitmaps.BitmapWeight | simplefs/simplefs_super.c:1096-1102 | Counts the set bits. |
| ExtentTree.LoadExtents | simplefs/simplefs_extent.c:86-217 | Succeeds if and only if the root has depth 0 and at most 340 extents, or depth 1 and at most 255 indexes whose leaves are all there and at most 340 long; EIO exactly when the first bad block is absent or zeroed, EFSCORRUPTED exactly for an overlong depth-0 root; the leaves are those of the indexes, in order, and the records of each stand right behind those of the leaves before it. |
| ExtentTree.LoadAfterWrite | simplefs/simplefs_extent.c:403-504 | Leaves written chunk by chunk and then the root load back as exactly the list, for every size up to 86700 extents. |
| ExtentTree.LoadedFits | simplefs/simplefs_extent.c:86-217 | A tree that loads has at least the leaves a sync of as many extents needs. |
| ExtentTree.RetireBlock | simplefs/simplefs_metabuf.c:76-150 | Revokes and then frees one metadata block, or fails and frees nothing. |
| ExtentTree.OverlapsOwn | simplefs/simplefs_extent.c:368-390 | Reports an overlap if and only if the root or a leaf block lies in a data extent. |
| ExtentTree.WriteLeaves | simplefs/simplefs_extent.c:403-459 | Skipping unchanged reused leaves still leaves every chunk written, and no other block touched. |
| ExtentTree.AcquireLeaves | simplefs/simplefs_extent.c:357-390 | Reuses the old leaves in place and adds free blocks; without a fault it succeeds if and only if the missing leaves do not outnumber the free blocks that no transaction holds; on failure the new ones go back. |
| ExtentTree.PublishTree | simplefs/simplefs_extent.c:403-504 | Writing leaves and then the root makes the tree load as the list, and touches no other block. |
| ExtentTree.SyncExtents | simplefs/simplefs_extent.c:317-556 | After success a load returns exactly the normalised list, across all changes of depth and leaf count; root and leaves are disjoint from the data; blocks that joined or left the tree moved between allocator and tree; a failure either changed nothing or shut the volume down. Without a fault it succeeds if and only if the list has at most 86700 extents and the missing leaves can be had; EFBIG and ENOSPC exactly otherwise. |
| FileOps.InsertExtends | simplefs/simplefs_file.c:725-804 | A new extent at the found place extends the map by exactly its run. |
| FileOps.GrowExtends | simplefs/simplefs_file.c:673-723 | Growing the previous extent extends the map by exactly the added run. |
| FileOps.Publish | simplefs/simplefs_extent.c:317-556 | Publishing a list over blocks the inode owns keeps the file sound, and without a fault has exactly the outcome of the sync. |
| FileOps.AllocateRun | simplefs/simplefs_file.c:725-733 | Of the lengths want, want/2, want/4 and so on, takes the first for which some run can be had, at its least start; nothing exactly when not one block can be had. |
| FileOps.BestRunIsUnique | simplefs/simplefs_file.c:725-733 | That run is the only one of its kind, so the blocks a request gets are determined by the free and the held blocks. |
| FileOps.GrowRun | simplefs/simplefs_file.c:673-722 | Takes the longest of those lengths that can be had right behind the extent; nothing exactly when the next block cannot be had. |
| FileOps.BestGrowthIsUnique | simplefs/simplefs_file.c:673-722 | So is the run by which an extent grows. |
| FileOps.GetBlock | simplefs/simplefs_file.c:608-804 | On a hole with create, the map grows by exactly the returned run, onto blocks that were free, grown or new; on a mapped block it gives the map's answer, after converting exactly the part of the request inside that extent where asked; without create nothing changes; failures leave the file as it was; a success on any path keeps i_blocks equal to what the file owns. A failure without a device fault keeps i_blocks if and only if the block is mapped, beyond the largest file, or no block at all can be had; it keeps the free set if and only if no extent could grow into the hole, and otherwise loses exactly the run taken for that. A lookup always succeeds, and a mapped block is answered by the whole rest of its extent. Without a fault, mapping a hole fails with ENOSPC when no block can be had, and otherwise lengthens the extent before the hole if the next block can be had, or puts an extent there, in either case by the best run; that, and a conversion, succeed exactly when the list it makes, given outright, can be published. |
| FileOps.HoleIsServed | simplefs/simplefs_file.c:608-804 | When one extent more needs no new leaf, a free block is enough for a hole to be mapped. |
| FileOps.ConversionIsServed | simplefs/simplefs_file.c:767-782 | A conversion succeeds where two extents more could be published. |
| ZeroRanges.ZeroRange | simplefs/simplefs_file.c:437-532 | On success every block of the range is mapped and unwritten, blocks that were mapped keep their address, nothing outside changes, i_blocks stays exact, and the allocation record never exceeds the size of the range. Without a fault it fails with ENOSPC when the holes outnumber the blocks that can be had, keeping every block it took; otherwise it takes one block for each hole, and succeeds exactly when its list, at most one extent for each run and two more, can be published; if not, every block goes back. |
| FileEdits.PutRanges | simplefs/simplefs_file.c:1789-1799 | Every dropped range goes back to the allocator, once. |
| FileEdits.PunchHole | simplefs/simplefs_file.c:1692-1799 | The published file is the punched one, the free set grows by exactly the dropped blocks and spare leaves, and i_blocks follows. Without a fault: nothing to do when no block of the range is mapped; otherwise it succeeds exactly when the cut list can be published, and surely when one extent more could be. |
| FileEdits.TruncateBlocks | simplefs/simplefs_inode.c:1510-1567 | The published file is the truncated one, with the same balance and count. Without a fault it always succeeds, whatever is free. |
| FileEdits.CollapseRange | simplefs/simplefs_file.c:1992-2099 | The published file is the collapsed one, with the same balance and count. Without a fault it succeeds exactly when the rebuilt list can be published; a failure changes nothing. |
| FileEdits.InsertRange | simplefs/simplefs_file.c:2159-2227 | The published file is the shifted one; no data block is freed, and i_blocks moves by the leaves alone. Without a fault it succeeds exactly when the rebuilt list can be published; a failure changes nothing. |
| FileEdits.EditFits | simplefs/simplefs_file.c:1708-1799 | Every edit can be published where one extent more could be, and a truncation where the file was. |
| Protocol.StepKeepsInv | simplefs/simplefs_extent.c:357-556 | Every allocator call, cached write of a tree, directory, symlink or attribute block, write-back, release, create, step of an eviction and failure keeps the joint invariant of all inodes. |
| Protocol.FileDataClean | simplefs/simplefs_metabuf.c:71-75 | No block that a regular file holds as data is ever dirty in the metadata cache, so it can be put without waiting. |
| Protocol.BothCopiesLoad | simplefs/simplefs_extent.c:461-527 | In every phase of an edit the cached copy of a tree, and the durable one once the root has been written back, load without error and name only blocks of that inode. |
| Protocol.OldRootLoads | simplefs/simplefs_extent.c:461-527 | A durable old root over leaves that are partly rewritten still loads. |
| Protocol.EveryRunIsSafe | simplefs/simplefs_file.c:1789-1799 | In every run of every interleaving, error exits included: every root loads, cached and (once written back) durable; no block an inode leads to on either copy, its symlink and attribute blocks included, is free, another inode's on either copy, or still held by an eviction; and no pending write-back, of trees, directories, symlinks or attributes, is aimed at a free block or at the data of a file. |
| Protocol.EditIsPlan | simplefs/simplefs_file.c:1708-1799 | The four surgeries produce lists the protocol accepts. |
| Protocol.ExtensionIsPlan | simplefs/simplefs_file.c:608-804 | So does a new mapping. |
| Protocol.FlaggedIsPlan | simplefs/simplefs_file.c:302-390 | So does a conversion between written and unwritten. |
| Protocol.ZeroIsPlan | simplefs/simplefs_file.c:437-532 | So does a zeroed range with the blocks it took. |
| Journalled.StepMatches | simplefs/simplefs_extent.c:461-527 | A step inside a handle, which waits for nothing, is a run of the machine without a journal in which write-back is immediate. |
| Journalled.RecoveredInv | simplefs/simplefs_journal.c:164-181 | What a mount makes of a committed image satisfies the joint invariant. |
| Journalled.EveryRunIsSafe | simplefs/simplefs_journal.c:638-650 | In every run of edits, commits and crashes: in the running volume, in the last commit and in what a crash would recover, every root loads and no block an inode leads to is free or another's; the committed inode table names nothing an eviction gave back. |
| Journalled.CommitLasts | simplefs/simplefs_journal.c:609-636 | Whatever follows a commit, a crash before the next one brings back the volume as committed: the same free blocks, inodes, symlink and attribute blocks and counts, and every root loads as the tree the file had. |
| EditRuns.EditCompletes | simplefs/simplefs_extent.c:317-556 | No edit gets stuck: on a volume that is not shut down, any plan over an idle inode's own blocks and free ones can be run to its end; then the root loads as the plan, the free blocks are exactly those the old tree gave up and the plan did not take, i_blocks has moved by the difference, and every other inode is as it was. |
| EditRuns.EditIsUndone | simplefs/simplefs_extent.c:357-390 | An edit that fails before it has a plan can put back all it took, and the volume is as it was; only where the source does not count the put does i_blocks stay raised. |
| EditRuns.FailureStops | simplefs/simplefs_journal.c:638-650 | After a journal failure no block is taken, put, retired, released or evicted. |
| EditRuns.CommittedEditLasts | simplefs/simplefs_journal.c:609-636 | An edit run to its end and committed is what any later crash brings back. |
| EditRuns.EvictionCompletes | simplefs/simplefs_super.c:351-435 | Any idle inode can be evicted to the end; then all its blocks are free and so is its number, and nothing else has changed. |
| EditRuns.CreateThenEvict | simplefs/simplefs_inode.c:618-640 | A new inode loads as an empty file, and evicting it gives back the volume there was before. |
| EditRuns.OtherKindsThenEvict | simplefs/simplefs_inode.c:1320-1350 | A new symlink or special inode, with or without an attribute block, leaves no trace when it is evicted. |
| EditRuns.SideBlocksAreWritable | simplefs/simplefs_xattr.c:301-311 | Writing a symlink, attribute or directory block is possible at any time and changes the load of no tree at rest. |
| EditRuns.DataIsWritable | simplefs/simplefs_metabuf.c:71-75 | File data can be written on the device at any time, and no tree there loads differently for it. |
| Mkfs.LayoutTiles | simplefs/mkfs_common.c:17-112 | For every accepted image size and inode ratio no 32-bit assignment wraps, the regions tile the device, and the layout validates. |
| Mkfs.WriteBfreeBitmap | simplefs/mkfs_common.c:393-438 | The bitmap mkfs writes marks free exactly the data blocks after the root directory's and before the journal. |
| Rebuild.MarkExtent | simplefs/simplefs_super.c:61-110 | Marks a run if and only if all its blocks are in range and unmarked. |
| Rebuild.ScanInode | simplefs/simplefs_super.c:112-169 | Marks the tree, the symlink block and the attribute block of an inode if and only if its tree loads and they fit. |
| Rebuild.RebuildBlockBitmap | simplefs/simplefs_super.c:171-312 | Succeeds if and only if every tree loads and no block has two owners or a number outside the data area; then free means neither reserved nor claimed, and the counter is the population count. |
| Conservation.RunKeepsEverything | simplefs/simplefs_super.c:381-425 | Free blocks, owned blocks and those an eviction still holds together stay the same set over any run of lossless steps: edits and evictions that complete, creates, failures that hold nothing. |
| Conservation.RepublishedWeight | simplefs/simplefs_file.c:1789-1799 | The data blocks an edit must put after publishing are as many as the two totals differ by, so the separate updates of i_blocks meet. |
| Conservation.RunKeepsCounts | simplefs/simplefs_extent.c:529-534 | i_blocks, moved by allocation, leaf changes, release, create, symlink and attribute blocks one at a time, is what the inode owns after every step of such a run. |
| Conservation.StepKeepsBooksIff | simplefs/simplefs_file.c:757-765 | For every step, error exits included: the set of free and held blocks stays the same and every i_blocks stays right if and only if the step drops no block it holds, puts none back without counting it, ends no edit with its leaves uncounted and no eviction before everything was put. |
| Conservation.InodeClaims | simplefs/simplefs_super.c:112-169 | For an inode of any kind, what the rebuild claims for it is what it owns, each block once, as many as its i_blocks. |
| Conservation.IncrementalEqualsRebuilt | simplefs/simplefs_super.c:171-312 | Whenever no edit is under way, a table of inodes of any kind, with symlink and attribute blocks, is consistent and the incremental free set is the rebuilt one. |
| Conservation.RebuiltBalance | simplefs/simplefs_super.c:171-312 | For every consistent table, reserved + free + claimed blocks add up to the device. |
| Conservation.FreshVolumeOk | simplefs/mkfs_common.c:114-155 | A fresh volume satisfies the joint invariant, its one count is right, and nothing is lost. |
| Conservation.BlocksAreConserved | simplefs/simplefs_extent.c:529-534 | From any layout that tiles, after any run of successful operations on inodes of any kind: the rebuilt bitmap equals the incremental one, and metadata + journal + free + the sum of the i_blocks fields = number of blocks. |
| Conservation.JournalledBlocksAreConserved | simplefs/simplefs_extent.c:461-534 | The same for every run of journalled steps. |
| Conservation.RecordHarmlessIff | simplefs/simplefs_super.c:381-425 | Over every lossless run from mkfs onward, the device's record of an inode that is being or has been evicted names no block that is free or another's if and only if nothing it names has been put since. |
| Conservation.NothingPutIsHarmless | simplefs/simplefs_super.c:381-425 | In every reachable state, lossless or not, the record does no harm before the first put. |
| Discard.AlignedIffPowerOfTwo | simplefs/simplefs_super.c:740-775 | Both rounded ends are, in bytes, on unit boundaries of the device for every block if and only if the advertised granularity is a power of two. |
| Discard.PartialUnitSent | simplefs/simplefs_super.c:770-775 | With 48-block units the pending run [1, 65) sends a third of a unit. |
| Discard.PowerOfTwoBlocksIsNotEnough | simplefs/simplefs_super.c:740-775 | With 6144-byte units, two blocks, the pending run [2, 4) starts inside a unit. |
| Discard.UnitInRun | simplefs/simplefs_super.c:764-775 | Inside a maximal pending free run, exactly the blocks between the rounded ends lie in whole units. |
| Discard.GranBlocks | simplefs/simplefs_super.c:740-743 | The granularity in blocks covers the advertised bytes and is the least that does, at least 1. |
| Discard.IssuePendingDiscards | simplefs/simplefs_super.c:730-791 | For any bitmaps, only pending free blocks are sent, and exactly those stop being pending; with a power of two of bytes, every command is whole units of the device; with a power of two of blocks, a block is sent if and only if its whole rounded unit is pending and free. |
| DiscardCrash.StepKeepsInv | simplefs/simplefs_journal.c:197-301 | On a device that drops every unit a command touches, with power-of-two units, handles, allocation, release, commit, discard and crash keep: pending is free, and dropped blocks are free both in memory and in the committed bitmap. |
| DiscardCrash.SparesNeighboursIffPowerOfTwo | simplefs/simplefs_super.c:770-775 | No command the rounding can produce touches a unit with a block outside it if and only if the unit is a power of two of bytes. |
| DiscardCrash.PartialUnitLosesLiveBlock | simplefs/simplefs_super.c:770-775 | With 48-block units, the run [1, 65) takes the live block 80 with it. |
| DiscardCrash.EveryRunKeepsContents | simplefs/simplefs_journal.c:609-636 | In every run with power-of-two units, what a discard takes away is free in memory and in the last commit and is whole units, and neither the running state nor the state a crash recovers refers to a dropped block. |
| DiscardCrash.CommitSurvivesCrash | simplefs/simplefs_journal.c:609-636 | A crash goes back to what was in memory at the last commit. |
| DiscardCrash.CommittedBlocksSurvive | simplefs/simplefs_journal.c:197-301 | Blocks allocated, referred to and committed are referred to after a crash, and the device has not dropped them. |
| DiscardCrash.ReleasedRunIsDiscarded | simplefs/simplefs_journal.c:609-636 | A run that is released and then committed by force is discarded, as far as it is whole units, and stays pending at its edges. |
| DiscardCrash.EarlyDiscardLosesData | simplefs/simplefs_journal.c:616-624 | Without the commit first, a pending free block can still be referenced by the state a crash recovers. |
| DiscardCrash.ScanIsEnabled | simplefs/simplefs_super.c:745-786 | The runs the scan finds are steps of that machine. |
| Lifecycle.WriteHomeKeepsReplay | simplefs/simplefs_journal.c:597-607 | Writing any committed block home, in replay or checkpoint, changes nothing a replay would produce. |
| Lifecycle.TrimKeepsReplay | simplefs/simplefs_journal.c:597-607 | Dropping the oldest transaction once its blocks are home or logged again changes nothing a replay would produce. |
| Lifecycle.ReplayMarker | simplefs/simplefs_journal.c:68-104 | Stale superblock images in the log cannot turn a dirty marker clean. |
| Lifecycle.StepKeepsInv | simplefs/simplefs_journal.c:68-186 | Every step of mounting, remounting with a dirty marker, updating, committing, checkpointing, unmounting, shutting down and crashing keeps the invariant. |
| Lifecycle.CleanMeansCheckpointed | simplefs/simplefs_super.c:557-602 | Over every run with crashes anywhere, in which no remount to writable finds the marker clean, a clean marker on the device implies an empty log and home metadata equal to the last commit. |
| Lifecycle.RemountKeepsPromiseIffDirty | simplefs/simplefs_fs.c:61-65 | A remount to writable keeps the invariant when the marker is dirty; when it is clean, the next update and commit break the promise and a crash leaves it broken. |
| Lifecycle.CleanReadOnlyMountIsReached | simplefs/simplefs_fs.c:61-65 | From any formatted volume a read-only mount leads to a state in which a remount to writable, one update and one commit break the promise. |
| Lifecycle.ProtectedMountIsSound | simplefs/simplefs_journal.c:151-162 | A mount of a write-protected device without replay shows exactly the last commit. |
| Lifecycle.ReplayRestoresCommit | simplefs/simplefs_journal.c:164-181 | The end of a replay, and the memory of every later mount, is exactly the last commit. |
| Lifecycle.OnlyCommitsMove | simplefs/simplefs_journal.c:638-650 | No step but a commit changes what recovery returns to. |
| Lifecycle.CommitIsWhatMountsShow | simplefs/simplefs_journal.c:609-636 | What was in memory at a commit is what the next mount shows, over every run without another commit in between. |
| Lifecycle.MountCompletes | simplefs/simplefs_journal.c:106-186 | From every state that is down, after any crash, a mount can be completed and shows the last commit. |
| Lifecycle.UnmountCompletes | simplefs/simplefs_super.c:557-602 | A writable mount that is not shut down can be unmounted: clean marker, empty log, every update at home. |
| Lifecycle.StoppedMountRecovers | simplefs/simplefs_journal.c:164-181 | A crash at any moment, a mount that fails and a detach lose nothing that was committed. |
| Lifecycle.ShutdownStops | simplefs/simplefs_journal.c:638-650 | After a shutdown no unmount clears the marker, and with the journal aborted nothing more is updated, committed, checkpointed or trimmed. |
| Lifecycle.RemountRoundTrip | simplefs/simplefs_fs.c:61-65 | A remount to read-only stops updates but not commits, and a remount to writable takes it back. |
| Lifecycle.CleanMountsProtected | simplefs/simplefs_journal.c:151-162 | A write-protected device can be mounted if and only if its marker is clean, and then shows the last commit. |
| Lifecycle.CleanUnmount | simplefs/simplefs_super.c:566-587 | An orderly unmount ends with a clean marker and every update at home. |
| DirIndexes.IndexIsUnique | simplefs/simplefs_dir_index.c:96-167 | At most one hash table, and for each capacity at most one slot array and one bitmap, answer for a list of slots, so an index that reflects the slots is the rebuilt one. |
| DirIndexes.DirIndex.Reserve | simplefs/simplefs_dir_index.c:56-94 | Grows the arrays by doubling up to the limit, keeps the mapped part, and leaves the rest empty. |
| DirMaps.ListIsLookup | simplefs/simplefs_dir_index.c:109-123 | The list of blocks that the walk over good extents makes is the map those extents denote. |
| DirIndexes.DirIndex.MapBlocks | simplefs/simplefs_dir_index.c:109-123 | Accepts the extents if and only if each is written, on the device and right behind the one before, within the size limit; the error is that of the first that is not; block b of the result is where the extent map puts b. |
| DirIndexes.DirIndex.Build | simplefs/simplefs_dir_index.c:96-167 | Passes on the error of loading, then that of the first extent the walk refuses; otherwise succeeds if and only if every live slot has a good inode and a name and no name is there twice; then hash, slot array, bitmap and count are those of the slots. |
| DirIndexes.DirIndex.Find | simplefs/simplefs_dir_index.c:206-223 | Finds the live slot with the name and, when asked, the inode; says so if there is none. |
| DirIndexes.DirIndex.FreeSlot | simplefs/simplefs_dir_index.c:229-285 | The slot handed out is the least free one; the directory grows by one block only when every slot is taken. |
| DirIndexes.DirIndex.Set | simplefs/simplefs_dir_index.c:287-361 | Each error exactly under its condition, with nothing changed; on success one slot changes on disk and the index still reflects the slots; a failed write leaves the index invalid. |
| DirIndexes.DirIndex.Add | simplefs/simplefs_dir_index.c:363-384 | The entry goes to the least free slot, the count follows, and a name already there is refused. |
| DirIndexes.DirIndex.Clear | simplefs/simplefs_inode.c:224-254 | Empties the slot of that name and inode, and the count follows; each error exactly under its condition. |
| DirIndexes.DirIndex.Rewrite | simplefs/simplefs_inode.c:845-857 | A rename in place or half an exchange keeps the slot and the count, and the new name was no other slot's; each error exactly under its condition. |
| DirIndexes.DirIndex.Trim | simplefs/simplefs_dir_index.c:431-481 | Refuses a directory with entries; otherwise gives back batches of at most sixteen blocks of one extent until no slot is left and the hint is 0; at every exit the remaining extents map what they mapped, and each physical block is in them or in one batch; only a failed sync or release leaves the index invalid. |
| DirMaps.TrimBatch | simplefs/simplefs_dir_index.c:443-462 | One more batch keeps that balance of map, blocks and total. |
| DirIndexes.DirIndex.Emit | simplefs/simplefs_dir_index.c:386-406 | Returns the live entries between the two cookies in slot order, and stops only at the end or when the reader is full. |
| Readdir.SeenExactlyOnce | simplefs/simplefs_dir_index.c:386-406 | A scan of any number of calls, between which entries are added, cleared, rewritten and exchanged and the directory grows or is trimmed, returns an entry that no operation names exactly once, by slot and by name, as readdir() of POSIX.1-2017 asks. |
| Readdir.Apply | simplefs/simplefs_dir_index.c:287-384 | What a successful Add, Clear or Rewrite does to a directory is an operation such a scan may meet; when blocks can be had and written, it succeeds if and only if the entry is there, or is new, and no name is too long or taken. |
| Readdir.OpKeepsEntries | simplefs/simplefs_dir_index.c:287-384 | No operation on a directory moves or changes a live entry it does not name, and names stay distinct. |
| Readdir.OnlyLive | simplefs/simplefs_dir_index.c:386-406 | A call returns only entries that are in the directory at that moment, in slot order. |
| Readdir.MovedEntrySeenTwice | simplefs/simplefs_dir_index.c:225-228 | If an entry could change its slot between calls it could be seen twice. |
| Namespace.CreatedKeepsInv | simplefs/simplefs_inode.c:692-731 | create and mkdir keep all counts, parents and ways to the root. |
| Namespace.LinkedKeepsInv | simplefs/simplefs_inode.c:1594-1629 | So does a hard link. |
| Namespace.RemovedKeepsInv | simplefs/simplefs_inode.c:224-307 | So does unlink, and rmdir of an empty directory. |
| Namespace.MovedKeepsInv | simplefs/simplefs_inode.c:885-922 | So does a rename to a free name that does not move a directory under itself. |
| Namespace.ExchangedKeepsInv | simplefs/simplefs_inode.c:930-1009 | So does an exchange of any two entries, of any kinds, neither above the other. |
| Namespace.EvictedKeepsInv | simplefs/simplefs_super.c:351-435 | So does eviction of an inode without links. |
| Namespace.NumberIsReusable | simplefs/simplefs_super.c:351-435 | After the last unlink and the eviction, a create may use the same inode number again. |
| Namespace.MovedUnderItself | simplefs/simplefs_inode.c:159-173 | Moving a directory below itself would cut it off from the root for good. |
| Namespace.EveryRunKeepsTheTree | simplefs/simplefs_inode.c:820-1009 | After any run, with inode numbers used again: directory links = 2 + subdirectories, other links = entries, each non-root directory is named once, in the directory it recorded, and recorded parents lead to the root. |
| Namespace.Volume.Create | simplefs/simplefs_inode.c:692-731 | The errors of a long or taken name; on success exactly one entry more, for a new file or directory as asked, and a step of the runs below. |
| Namespace.Volume.Link | simplefs/simplefs_inode.c:1594-1629 | A refused link restores the count; a successful one adds exactly the entry and one link. |
| Namespace.Volume.Unlink | simplefs/simplefs_inode.c:41-67 | Removes exactly the entry and keeps the invariant. |
| Namespace.Volume.Rmdir | simplefs/simplefs_inode.c:257-307 | ENOTDIR, ENOTEMPTY or removal, each exactly under its condition; the invariant is kept. |
| Namespace.Volume.Evict | simplefs/simplefs_super.c:351-435 | Forgets an inode without links; the invariant is kept. |
| Namespace.Volume.RenameCheckSubdir | simplefs/simplefs_inode.c:159-173 | The walk up ends, and finds the inode if and only if it is above the new directory. |
| Namespace.Volume.RenameNormal | simplefs/simplefs_inode.c:820-928 | Each error exactly under its condition, EISDIR and ENOTDIR on the two mismatches of kind; on success the entry has moved, over a target of the same kind if there was one, and nothing else; errors change nothing; the invariant is kept. |
| Namespace.Volume.RenameExchange | simplefs/simplefs_inode.c:930-1009 | ENOENT, or each name leads to the other's inode and no other entry, file or directory changes, with counts and parents to match; the invariant is kept. |
| Xattr.Validate | simplefs/simplefs_xattr.c:11-51 | Accepts if and only if magic, count, every entry, every value and the order of the two areas are sound. |
| Xattr.Get | simplefs/simplefs_xattr.c:58-110 | The first attribute of the name, or the exact error. |
| Xattr.List | simplefs/simplefs_xattr.c:394-441 | All names with a NUL each, or ERANGE if and only if they do not fit. |
| Xattr.NamesComeBack | simplefs/simplefs_xattr.c:394-441 | Cutting the list at its NULs gives the names in order, for names without a NUL. |
| Xattr.GapWrites | simplefs/simplefs_xattr.c:239-274 | Bytes written between the entries and the values change no attribute. |
| Xattr.AppendedIsBuilt | simplefs/simplefs_xattr.c:258-271 | Writing one entry, its value and the count gives a block that holds exactly the list with that attribute added, still packed. |
| Xattr.BuiltIsSound | simplefs/simplefs_xattr.c:11-51 | A packed block validates and decodes to its list. |
| Xattr.Rebuild | simplefs/simplefs_xattr.c:213-303 | Runs out of space if and only if header, entries and values of the new list exceed 4096 bytes; otherwise the temporary block holds exactly the new list. |
| Xattr.XattrInode.Set | simplefs/simplefs_xattr.c:117-324 | The exact error or the updated list in a block that validates; a refused update with a block in place changes no byte, and a block that cannot be persisted holds the updated list; distinct names stay distinct, and on them a success is a map update or removal. What is read back after the page is dropped validates if and only if it did before and this was not a first set that got its block and was then refused, or the block happened to hold a sound image. |
| Xattr.GetIsLookup | simplefs/simplefs_xattr.c:83-104 | With distinct names the first match is the map's value. |
| Xattr.UpdatedIsMapUpdate | simplefs/simplefs_xattr.c:239-299 | The new list is the map update or removal, with distinct names. |
| Xattr.SetRefinesMap | simplefs/simplefs_xattr.c:186-303 | CREATE fails exactly on a name that is there, REPLACE exactly on one that is not, space exactly when the sum exceeds 4096; otherwise the map is updated. |

## Left out

- get_free_inode and put_inode: the inode bitmap is handled like the block bitmap with runs of one; inode numbers are parameters.
- Running out of memory and failing reads: every such exit returns before or like the failing writes that are modelled.
- Page cache, iomap, direct I/O, mmap and bio code: calls into the kernel.
- JBD2 itself: taken as ordered transactions that replay, a set of held blocks, and a commit that covers every stopped handle.
- FITRIM: it works on the bitmap in memory, without the commit that the discard theorem rests on.
- The discard that put_blocks issues at once on a volume without a journal.
- Whiteout rename.
- Loading the journal, setting the marker, unmounting and forcing a commit are steps over values in `Lifecycle` and `DiscardCrash`, not methods on objects, because the theorems are about crashes between their writes.
- Mounts with nojournal and norecovery, in the marker theorem: they bypass replay on purpose.
- The contents of file data after a crash: `Protocol` and `Journalled` follow ownership and metadata.
- The on-disk encoding of inodes, and the extended sizes it cannot hold.
- The preallocation interval that a file keeps in memory.
- Partial effects of a rename that fails after its target is gone, when the directory cannot grow or a write fails.
- Protocol.EveryRunIsSafe: of the inode table only what it names of evicted inodes is modelled, and the record of a live inode is taken to be on the device; a new root is only dirtied, and its device copy counts from its first write-back.
- Journalled.EveryRunIsSafe: a commit is taken between syncs and evictions, since it waits for open handles and each runs under one; the log behind it is `Lifecycle`.
- Conservation.BlocksAreConserved: covers runs of lossless steps; the error exits of the source that keep blocks marked used, or leave i_blocks raised, are steps of `Protocol` too, and `Conservation.StepKeepsBooksIff` says which they are.
- Conservation.RunKeepsCounts: data is counted when it is taken, as for files; a directory counts a new block just after publishing it (simplefs/simplefs_dir_index.c:277), with the same sum once the edit is over.
- FileOps.GetBlock: after a device fault a failure states only that no block became free and, unless the volume was shut down, that the file is unchanged.
- DirIndexes.DirIndex.FreeSlot: whether a block can be had and published is a parameter here; `ExtentTree.SyncExtents` and `Bitmaps.SbInfo.GetFreeBlocks` prove those parts.
- Xattr.XattrInode.Set: the block lives in one fixed buffer; its block number is not modelled, and its place in the allocator is the TakeXattr step of `Protocol`.
- Namespace.Volume.RenameExchange: that neither entry is above the other, and that the two inodes differ, is what the VFS checks before the call and is a precondition.
