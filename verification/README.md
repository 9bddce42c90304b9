# A model of YAFFS2, with proofs

YAFFS2 keeps files on NAND flash as a log. Every chunk written carries tags that say which object and which
part of it it is; blocks carry sequence numbers that only rise. Nothing is written in place: a new chunk makes
an older one stale, a mount finds the files again by walking the log backwards, and a garbage collector moves
the chunks still wanted and erases what is left. The model follows the C code, function by function where the
code changes state step by step, and proves what that code is for.

| part | files | what is proved |
|---|---|---|
| the log, the mount scan, garbage collection | `FlashLog`, `LogReplay`, `ScanState`, `ScanSteps`, `Mount`, `LogMachine`, `LogSteps`, `LogHeaders`, `LogCollect`, `LogContents`, `LogCutSize`, `MountResult`, `MountCounts`, `Volume` | the newest-first scan finds what an oldest-first replay finds; over every run of file operations, collections, erasures and remounts a mount rebuilds the files in memory, and each chunk holds the bytes last written there; a collection never brings back a chunk that a lost shrink header had excluded; what a mount finds, chunks and size, if power is lost in the middle of a truncation; by how much the count of free chunks is off after a mount |
| blocks and chunks | `ChunkBits`, `AllocState`, `Allocator`, `Summary` | bitmaps, counters, block states and sequence numbers agree after every operation, under any pattern of failed writes, erase checks and erasures; an unlimited write ends; a collection stuck behind a failed copy is characterised; block summaries round-trip |
| the file layer | `CacheStore`, `FileCache` | reads and writes through the short-op cache refine a flat array of bytes, with the one way in which a write that fails can lose bytes; truncating and growing again reads zeros |
| the chunk tree | `TnodeTree`, `TnodeLeaf`, `TnodeCheckpoint` | the tree is a map from leaf numbers to leaves under growth, insertion, pruning and lack of memory; packed slots do not disturb each other; a checkpointed tree comes back the same |
| codes and small stores | `Basics`, `EccTable`, `Ecc`, `Ecc256`, `NameVal`, `Words` | one bit in error is corrected and two are noticed, with the exact exceptions; the attribute buffer is a finite map, with what happens when a record leaves no room |
| handles and directories | `HandleState`, `Handles`, `Hanging` | reference counts of three tables over every run; sharing modes of open descriptors; one pass puts every object on a chain to a fixed directory |

## How it is written

Objects that the code updates in place are classes; each of their methods is proved against a function or relation
of the state before it, and what the code promises is then proved of those. Flash is a map, and the outcome of a
write, an erase check, an erasure or a memory allocation is left open (`*`), so that a theorem holds for every
pattern of failures. In `LogMachine` a run is a sequence of steps from a formatted device, and `Volume` is the
imperative code, each of whose methods keeps the invariant of those runs.

## Where the code does something else than one would expect

* `yaffs_prune_worker` starts with `del0` 0 and passes on 0, so nothing below the top is ever freed
  (`TnodeTree.Tree.PruneTree`: all leaves stay, the tree only gets shorter).
* If copying a chunk fails during collection, `gc_chunk` has already moved past it. The block then stays the block
  being collected, is never emptied by collection again, and no other is chosen
  (`Allocator.Device.GcBlock`, the clauses with `!ok` and with `SomeBelow`).
* Where whole chunks bypass the cache, a write that finds no space has its cache entry thrown away all the same. Bytes
  of an earlier, shorter write that only the cache held are lost (`FileCache.Files.WriteWhole`, `DoFileWr`,
  `CacheStore.ForgottenSeen`, and `LosesBytes` for an example).
* A block with a summary is dirtied by `yaffs_summary_gc` without a note to the oldest dirty sequence number; the
  lower bound is proved for summaries off. `AllocState.SummaryClearedBound` says exactly when it survives,
  `BoundRestored` when the rest of a collection restores it, and `BoundLost` shows that it can be lost.
* `yaffs_summary_read` compares the stored sum with that of `dev->sum_tags` whatever array it has read into, and
  never looks at the block number in the header. It is only ever called with `dev->sum_tags`.
* Bits 6 and 7 of `col_parity`, and bits 0 and 1 of the third byte in the 256-byte form, take no part in the code. A
  data bit in error together with one of these is corrected rather than reported (`Ecc.TwoFlips`, `Ecc256.TwoFaults`).
* `nval_set` accepts a record that fits exactly, but the walk needs strict room, so the name is lost; and `strncpy`
  clears four bytes behind the record, in the buffer or not. Taking another record out brings the lost one back. Its
  room is counted as free until then, so a new value for a name that is there runs past the buffer exactly if a
  record is lost and the new value is longer than the old (`NameVal.Store.NvalSet` has all of this, with the
  conditions).
* If power is lost in the middle of a truncation, a chunk dropped from the file can come back, and not only in its
  last version (`LogCollect.MountMidCut`, `OlderChunkReturns`). The size found is the old or the new one if the header
  said the old size when the truncation began (`LogCutSize.MountMidCutSize`), and may else be neither (`SizeBetween`).
* After a mount the count of free chunks can be wrong: a block whose summary is taken is not scanned
  behind the data, so pages set aside that the summary does not need are not counted; and where a summary is refused
  after some of its chunks were read, these are in use and counted as free as well (`MountCounts.OffIs`,
  `MountCounts.OneLeftOver`).
* A file grown by a resize alone comes back from a mount with its stored size (`MountResult.ScanFindsMemory`).
* If filling a small hole fails half-way, zero-filled dirty cache entries past the end are left until the caller
  raises the size; nothing of them is ever visible (`FileCache.Files.HandleHole`).
* `yaffs2_wr_checkpt_data` closes the stream even if opening it failed. The block accounting stays right
  (`Allocator.Device.CheckpointSave`); the close compares the byte offset with `sizeof(sizeof(...))` and so always
  writes a last chunk.

## Model

| member | source | states |
|---|---|---|
| FlashLog.WinnerUnique | yaffs_guts.c:1169-1245 | of all the chunks ever written for one place in a file, at most one is current |
| FlashLog.LiveMapUnique | yaffs_yaffs2.c:1222-1269 | a log determines its map of current chunks |
| LogReplay.ReplayIsLive | yaffs_yaffs2.c:1222-1269 | replaying a log oldest first, later writes winning and each cutting header dropping what lies at or beyond its size, leaves exactly the current chunks |
| ScanState.WinnerAtScan | yaffs_guts.c:1169-1245 | when the scan meets a chunk, it is the current one exactly if its place is free and the headers seen so far allow its start |
| ScanSteps.DataStep | yaffs_yaffs2.c:1222-1269 | scanning a data chunk keeps the scan exact: maps, bits, limits, flags and sizes are those of the part of the log seen |
| ScanSteps.FirstHeaderStep | yaffs_yaffs2.c:1489-1505 | so does scanning the newest header of an object |
| ScanSteps.OldHeaderStep | yaffs_yaffs2.c:1338-1382 | so does scanning an older header, which only lowers the shrink size |
| ScanSteps.JunkStep | yaffs_yaffs2.c:1205-1221 | so does passing over a chunk with bad tags or unfixed errors |
| Mount.Scanner.ScanData | yaffs_yaffs2.c:1222-1269 | a data chunk found is entered or dropped so that the scan stays exact |
| Mount.Scanner.ScanHeader | yaffs_yaffs2.c:1270-1382 | a header found is taken, or only its size, so that the scan stays exact |
| Mount.Scanner.ScanChunk | yaffs_yaffs2.c:1117-1221 | one chunk of any kind: used, unused, bad or unreadable |
| Mount.Scanner.ScanBlock | yaffs_yaffs2.c:1667-1701 | after a block the scan is exact for all chunks from that block on; a block is found dirty only if it is full, has no current chunk and no shrink header |
| Mount.Scanner.SkipRestOfBlock | yaffs_guts.c:470-481 | a partly written block counts as full; no block is being written any more |
| Mount.Scanner.ScanBackwards | yaffs_yaffs2.c:1648-1703 | over a whole log: the chunk maps are the live maps and equal any oldest-first replay, the bits left set are exactly the current data chunks and newest headers, the flags exactly the blocks with shrink headers, the sizes those the log records |
| Mount.Scanner.ScanResult | yaffs_yaffs2.c:1648-1703 | the scan of a log satisfies all of this at once, as the remount step needs it |
| LogMachine.ExcludedLoses | yaffs_yaffs2.c:1222-1269 | a chunk no longer wanted loses in any later scan, because something newer in the log excludes it, unless its file is being cut there at that moment |
| LogMachine.RebuiltMatches | yaffs_yaffs2.c:1534-1725 | under the invariant, the current chunks, newest headers and logged sizes of the log are those in memory |
| LogMachine.RebuiltMidCut | yaffs_yaffs2.c:1534-1725 | under the invariant, also in the middle of a truncation, the log has every chunk in memory as current; any other current chunk is one of a file being cut, at or beyond the cut, in a slot already dropped |
| LogSteps.WriteKeeps | yaffs_guts.c:3078-3152 | writing a data chunk keeps the invariant of the log |
| LogHeaders.CreateKeeps | yaffs_guts.c:2262-2268 | creating a file keeps it |
| LogHeaders.PutHeaderKeeps | yaffs_guts.c:3323-3491 | writing a new header keeps it |
| LogHeaders.HoleKeeps | yaffs_yaffs2.c:1013-1095 | writing the shrink header that marks a hole keeps it |
| LogHeaders.DeleteKeeps | yaffs_guts.c:1721-1739 | deleting an object, with the deletion header dropped at once, keeps it |
| LogCollect.MoveKeeps | yaffs_guts.c:2459-2603 | moving a chunk in use, a header losing its shrink mark, keeps it |
| LogCollect.EraseKeeps | yaffs_guts.c:2380-2457 | erasing a block without chunks in use or unworked shrink headers keeps it: no chunk that the block excluded comes back |
| LogCollect.CollectKeeps | yaffs_guts.c:2625-2628 | clearing the shrink mark of a block admitted to collection keeps it |
| LogCollect.AdmitKeeps | yaffs_yaffs2.c:120-135 | a block admitted because no older block has discarded pages stays admissible, whatever is dirtied later |
| LogCollect.OkForGcAdmits | yaffs_yaffs2.c:120-135 | the test with the oldest dirty sequence number admits only such blocks; and where the block of that number does have a discarded page, it admits all of them |
| LogCollect.CutKeeps | yaffs_guts.c:3771-3819 | starting to cut a file down keeps the invariant |
| LogCollect.DropKeeps | yaffs_guts.c:3771-3819 | dropping a chunk beyond the cut keeps it |
| LogCollect.SetSizeKeeps | yaffs_guts.c:3821-3850 | setting the sizes once no chunk reaches past the cut keeps it |
| LogCollect.RemountKeeps | yaffs_yaffs2.c:1534-1725 | starting again from what a mount finds keeps it |
| LogCollect.StepKeeps | yaffs_guts.c:2459-2709 | every step that the code can take keeps the invariant |
| LogCollect.RunKeeps | yaffs_guts.c:2459-2709 | so the invariant holds in every state of every run from a formatted device |
| LogCollect.MountRebuildsEveryRun | yaffs_yaffs2.c:1534-1725 | in every state of every run in which no truncation is under way a mount rebuilds exactly the files in memory, their headers and their sizes |
| LogCollect.MountMidCut | yaffs_guts.c:3821-3850 | so in every state of every run a mount after a loss of power finds all files and all chunks in memory, and nothing else but what a truncation under way had dropped |
| LogContents.StepMatches | yaffs_guts.c:2459-2603 | every step keeps the bytes of every place in a file: a write sets those of its place, collection and erasing leave all of them, a cut drops its own |
| LogContents.RunMatches | yaffs_guts.c:2459-2603 | so in every state of every run each place holds the bytes last written there |
| LogContents.MountFindsWritten | yaffs_yaffs2.c:1534-1725 | after any run of writes, cuts, collections and mounts the chunks found are those of the places last written and not cut off since, and each holds the bytes last written there |
| LogCutSize.StepStays | yaffs_guts.c:3821-3850 | no step in the middle of a truncation puts a size on the log but the old one and the new, if the header said the old one |
| LogCutSize.MountMidCutSize | yaffs_guts.c:3821-3850 | at any point of any run in the middle of a truncation the size found lies between that of the current header and the larger of the old and the new; it is one of these two if the header said the old size at the start, and then that of the current header unless the cut lies in a hole |
| LogCutSize.SizeBetween | yaffs_guts.c:3771-3819 | a run of eight steps, with a header that did not say the old size, after which the size found is neither the old nor the new |
| LogCollect.OlderChunkReturns | yaffs_guts.c:3771-3819 | a run of eight steps after which a mount finds, in a dropped slot, a chunk older than the one dropped |
| LogCollect.OldestDirtyIsBound | yaffs_yaffs2.c:43-118 | in every state of every run a known oldest dirty sequence number is a lower bound: every chunk in an older block is still wanted |
| MountResult.ScanFindsMemory | yaffs_yaffs2.c:1648-1703 | after any run the scan finds the chunk maps, headers, stored sizes and shrink flags of the state in memory |
| MountResult.MountAfterRun | yaffs_yaffs2.c:1648-1703 | end to end: after any run, scanning what is on flash leaves the chunk maps, headers, stored sizes and shrink flags of the state in memory, keeps every chunk wanted, and marks no block for erasure that holds one; the chunks found hold the bytes last written and not cut off since |
| MountCounts.OffIs | yaffs_yaffs2.c:1667-1701 | the count of free chunks exceeds the sum over blocks by the chunks read of summaries refused, less the chunks left over for each summary taken |
| MountCounts.OneLeftOver | yaffs_summary.c:73-99 | a geometry in which a chunk is left over for each summary |
| MountCounts.Counter.constructor | yaffs_yaffs2.c:1584-1637 | blocks that need no scan are counted in: erased ones as free, checkpoint and bad ones not |
| MountCounts.Counter.CountersAre | yaffs_guts.c:5167-5190 | what the counters are worth: erased and checkpoint blocks are counted right, pages in use are the bits set, free chunks are off exactly by OffIs |
| MountCounts.Counter.CheckptErase | yaffs_checkptrw.c:88-125 | no checkpoint block is left, each is empty or dead, and the counters follow |
| MountCounts.Counter.SummaryRead | yaffs_summary.c:178-244 | the chunks of a summary read before one fails are in use, whether it is taken or not |
| MountCounts.Counter.ScanChunk | yaffs_yaffs2.c:1145-1282 | a page kept is in use, any other is counted as free; an unwritten first page with nothing behind it makes the block empty |
| MountCounts.TalliedPages | yaffs_yaffs2.c:1670-1687 | the pages in use after a block's scan are those kept, and all others scanned count as free |
| MountCounts.TalliedState | yaffs_yaffs2.c:1155-1203 | the block is empty exactly if its first page was never written and no good chunk lies behind; else it is the one being written exactly if it is the newest and another page is like that |
| MountCounts.Counter.ScanPages | yaffs_yaffs2.c:1670-1687 | the loop over the pages comes to what these two speak of, and the counters follow |
| MountCounts.Counter.BlockBecameDirty | yaffs_guts.c:2380-2457 | a block with nothing in use is erased or given up, and the counters follow |
| MountCounts.Counter.ScanBlock | yaffs_yaffs2.c:1667-1701 | one block leaves the counters as they should be, but for its summary; it is erased, or given up, exactly if it is full, nothing on it is kept or read as summary, and it has no shrink header |
| MountCounts.Counter.SkipRestOfBlock | yaffs_guts.c:470-481 | the block being written counts as full |
| MountCounts.Counter.ScanBackwards | yaffs_yaffs2.c:1582-1703 | after the scan of all blocks the counters are worth what CountersAre says, no block is being written, and each block is erased or has in use exactly what was kept and its summary |
| MountResult.KeptIsLive | yaffs_yaffs2.c:1222-1382 | what a scan keeps is what memory refers to, and the headers of deletions that the mount has to finish |
| Volume.Volume.constructor | yaffs_guts.c:4861-4880 | a formatted device satisfies the invariant and has no files |
| Volume.Volume.BlockBecameDirty | yaffs_guts.c:2380-2457 | erases a block nothing is wanted of; no file changes |
| Volume.Volume.ChunkDel | yaffs_guts.c:3020-3076 | takes one chunk out of use, and with the last one and no shrink header the block; nothing else goes out of use |
| Volume.Volume.WriteNewChunk | yaffs_guts.c:483-585 | appends one entry to the log and marks it in use |
| Volume.Volume.CalcOldestDirtySeq | yaffs_yaffs2.c:43-71 | finds the oldest full block with pages not in use, if there is one; the number is then a lower bound |
| Volume.Volume.BlockOkForGc | yaffs_yaffs2.c:120-135 | yes exactly if the block has no shrink header or is no younger than the oldest dirty one, worked out now if it was not known; a block let through may be collected now and later |
| Volume.Volume.FindRefreshBlock | yaffs_yaffs2.c:142-194 | the oldest full block, if there is one, and it may be collected |
| Volume.Volume.FindGcBlock | yaffs_guts.c:2716-2878 | the block picked may be collected; no file changes |
| Volume.Volume.GcProcessChunk | yaffs_guts.c:2459-2603 | one chunk in use is moved: every file keeps its contents |
| Volume.Volume.GcBlock | yaffs_guts.c:2605-2709 | collecting a block in part or whole keeps every file; a whole collection leaves nothing of the block on the log |
| Volume.Volume.CheckGc | yaffs_guts.c:2889-2983 | one round of collection, whatever it chooses, keeps every file |
| Volume.Volume.WrDataObj | yaffs_guts.c:3078-3152 | a chunk is written, noted in the file and its old version deleted; nothing else in the file or in others changes |
| Volume.Volume.UpdateOh | yaffs_guts.c:3323-3491 | a new header replaces the old one; file contents and sizes stay |
| Volume.Volume.WriteHoleMarker | yaffs_yaffs2.c:1086-1092 | a shrink header is written where a file is to be extended over a hole; its chunks stay as they are |
| Volume.Volume.DoFileWr | yaffs_guts.c:3582-3760 | the chunks that the range touches are mapped and hold all that the file has in them; the size grows to the end of the range; all other chunks and files stay as they are |
| Volume.Volume.HandleHole | yaffs_yaffs2.c:1013-1095 | nothing where there is no hole; else the hole is written as zeros, as by DoFileWr, or marked |
| Volume.Volume.WrFile | yaffs_guts.c:3762-3767 | the chunks that the write touches are mapped and hold all that the file has in them, and no chunk changes but those and perhaps the ones of a hole before the write |
| Volume.Volume.PruneChunks | yaffs_guts.c:3771-3819 | exactly the chunks of the file that start at or beyond the new size are dropped |
| Volume.Volume.ResizeFileDown | yaffs_guts.c:3821-3850 | both sizes are the new size; the chunks kept are those that start before it, a last one that reaches past it ends there, and no other has changed |
| Volume.Volume.ResizeFile | yaffs_guts.c:3852-3888 | the file is cut as by ResizeFileDown or extended as by HandleHole, no truncation is left under way, no other file changes |
| Volume.Volume.GenericObjDel | yaffs_guts.c:1721-1739 | an emptied file goes, and no other |
| Volume.Volume.DelFile | yaffs_guts.c:3953-3990 | a file is emptied and goes, and no other |
| Volume.Volume.CreateFile | yaffs_guts.c:2262-2268 | one empty file more |
| Volume.Volume.MountAgrees | yaffs_yaffs2.c:1534-1725 | between operations of the device the log gives back the files in memory |
| CacheStore.Cached | yaffs_guts.c:1593-1611 | as no chunk is cached twice, what a cache entry holds is what the file shows |
| CacheStore.FlushedView | yaffs_guts.c:1467-1486 | writing an entry back changes nothing that a file shows |
| Basics.PieceShare | yaffs_guts.c:3612-3656 | the part of a write that falls in its first chunk, and how much the chunk then holds: never less than it held of the file |
| CacheStore.CutOk | yaffs_guts.c:3771-3850 | cutting flash down to a size leaves a sound store of that size |
| CacheStore.ForgottenSeen | yaffs_guts.c:1641-1651 | giving up the cache entry of a chunk goes unseen exactly if the entry held nothing that flash does not |
| CacheStore.LosesBytes | yaffs_guts.c:3733-3743 | two bytes in the cache and nothing on flash: giving up the entry loses them |
| CacheStore.LostShows | yaffs_guts.c:3733-3743 | a chunk lost behind the bytes written always shows |
| CacheStore.SavedPastEnd | yaffs_guts.c:3733-3743 | nothing is lost where the file has ended |
| FileCache.Files.constructor | yaffs_guts.c:5001-5030 | an empty cache over empty flash is sound |
| FileCache.Files.NewFile | yaffs_guts.c:2020-2028 | a new file reads as zeros and changes nothing else |
| FileCache.Files.FindChunkCache | yaffs_guts.c:1593-1611 | the entry of a chunk is found exactly if there is one |
| FileCache.Files.FlushSingleCache | yaffs_guts.c:1467-1486 | a dirty entry goes to flash, or is dropped after it; the visible contents stay |
| FileCache.Files.FlushFileCache | yaffs_guts.c:1488-1506 | no entry of the file is dirty any more; the visible contents stay |
| FileCache.Files.GrabChunkCache | yaffs_guts.c:1549-1590 | a free entry if there is one, nothing changing; else the least recently used one, written back if dirty and given up; the visible contents stay and nothing is cached twice |
| FileCache.Files.UseCache | yaffs_guts.c:1614-1635 | the entry gets the next use count, and then has a larger one than all others if none was ahead of the counter; only use counts change |
| FileCache.Files.LoadChunkCache | yaffs_guts.c:3539-3549 | a chunk is brought into the cache; the visible contents stay |
| FileCache.Files.InvalidateChunkCache | yaffs_guts.c:1641-1651 | the entry of that chunk is dropped and no other |
| FileCache.Files.InvalidateWholeCache | yaffs_guts.c:1656-1668 | the entries of that file are dropped and no others |
| FileCache.Files.RdDataObj | yaffs_guts.c:3002-3018 | a chunk on flash is read, zeros where there is none |
| FileCache.Files.FileRd | yaffs_guts.c:3503-3580 | reading any range gives exactly the bytes of the flat array there, zeros past what was written, and changes nothing visible |
| FileCache.Files.WriteWhole | yaffs_guts.c:3733-3743 | a chunk written past the cache shows the new bytes, and nothing else changes; if the write fails its entry is given up, which goes unseen exactly if the entry held nothing that flash does not |
| FileCache.Files.WritePiece | yaffs_guts.c:3658-3743 | the part of a write that falls in one chunk, through the cache or not, changes just those bytes; if it fails nothing changes, except that past the cache the entry of the chunk is given up |
| FileCache.Files.WriteLoop | yaffs_guts.c:3600-3751 | the loop changes exactly the bytes it says it has written, in any number of chunks, unless it stops past the cache at a chunk of which the cache alone held bytes: that chunk is then as flash has it |
| FileCache.Files.DoFileWr | yaffs_guts.c:3582-3760 | writing changes exactly the bytes written, and the size grows to the end of them, unless a chunk is lost; that shows always, and happens only where the write covers the chunk whole, whole chunks bypass the cache, and the entry of the chunk held bytes, before the call, that flash did not |
| FileCache.Files.PruneChunks | yaffs_guts.c:3771-3819 | exactly the chunks that start at or beyond the new size go |
| FileCache.Files.ResizeFileDown | yaffs_guts.c:3821-3850 | what is left on flash is the old prefix and zeros |
| FileCache.Files.HandleHole | yaffs_yaffs2.c:1013-1095 | filling or marking a hole, even if filling fails half-way, changes no visible byte |
| FileCache.Files.WrFile | yaffs_guts.c:3762-3767 | writing at any offset, past the end or not, changes exactly the bytes written, with the one exception of DoFileWr |
| FileCache.Files.ResizeFile | yaffs_guts.c:3852-3888 | afterwards the file is its old prefix of the new size followed by zeros |
| FileCache.Files.PastEnd | yaffs_guts.c:3852-3888 | every byte at or past the end of a file reads as zero |
| ChunkBits.CountChunkBits | yaffs_bitmap.c:89-99 | the bytewise count is the number of bits set |
| ChunkBits.StillSomeChunks | yaffs_bitmap.c:76-87 | answers whether any bit is set |
| ChunkBits.SetBit | yaffs_bitmap.c:60-66 | sets that bit and no other, and the count rises by one if it was clear |
| ChunkBits.ClearBit | yaffs_bitmap.c:52-58 | clears that bit and no other, and the count falls by one if it was set |
| ChunkBits.CountIsSize | yaffs_bitmap.c:89-99 | the count of bits is the number of chunks marked |
| AllocState.RuntimeChecks | yaffs_verify.c:52-162 | the invariant gives all that the run-time checks look for: ranges, bitmap against pages in use, at most one block allocating and one collecting, counts of erased and checkpoint blocks, free chunks |
| AllocState.ClaimKeeps | yaffs_guts.c:380-393 | taking an empty block under a new sequence number keeps the invariant |
| AllocState.TakePageKeeps | yaffs_guts.c:424-444 | handing out a page keeps it; the page was free and is the only one newly in use |
| AllocState.SkipRestKeeps | yaffs_guts.c:470-481 | skipping the rest of a block keeps it |
| AllocState.ReleaseKeeps | yaffs_guts.c:3058-3067 | deleting a chunk keeps it and takes just that chunk out of use |
| AllocState.SoftDelKeeps | yaffs_guts.c:1257-1271 | soft deleting a chunk keeps it |
| AllocState.HardenKeeps | yaffs_guts.c:2510-2528 | counting a soft-deleted chunk out again before it is really deleted keeps it |
| AllocState.ErasedKeeps | yaffs_guts.c:2443-2454 | making an erased block empty keeps it |
| AllocState.RetiredKeeps | yaffs_guts.c:2434-2441 | retiring a block with its space keeps it |
| AllocState.SummaryChunkKeeps | yaffs_summary.c:158-160 | counting in a chunk of a summary keeps it |
| AllocState.SummaryClearedKeeps | yaffs_summary.c:304-308 | counting one out keeps it |
| AllocState.SummaryClearedBound | yaffs_summary.c:304-308 | the oldest dirty sequence number stays a lower bound exactly if the block is no older than it: the code does not check this |
| AllocState.BoundRestored | yaffs_guts.c:2605-2709 | deleting any chunk of the block restores the bound, and so does erasing the block; a collection that ends with neither leaves it broken exactly if the block is older |
| AllocState.BoundLost | yaffs_summary.c:304-308 | from an erased device of three blocks to a state in which the bound is broken |
| AllocState.CheckptErasedKeeps | yaffs_checkptrw.c:103-119 | erasing or losing a checkpoint block keeps it |
| AllocState.CheckptTakenKeeps | yaffs_checkptrw.c:298-305 | taking a block for the checkpoint keeps it |
| AllocState.ClosedKeeps | yaffs_checkptrw.c:456-458 | closing the stream settles the counters, and erased blocks stay at least zero |
| Allocator.Device.Fresh | yaffs_guts.c:2333-2377 | a device of erased blocks satisfies the invariant |
| Allocator.Device.CountFreeChunks | yaffs_guts.c:5167-5190 | the count over all blocks is the counter kept |
| Allocator.Device.CheckptErase | yaffs_checkptrw.c:88-125 | only checkpoint blocks change, each to empty or dead, and none is left |
| Allocator.Device.BlockBecameDirty | yaffs_guts.c:2380-2457 | a block without chunks is emptied or lost; no chunk in use changes anywhere |
| Allocator.Device.RetireBlock | yaffs_guts.c:591-628 | the block is dead and the counters have settled |
| Allocator.Device.FindAllocBlock | yaffs_guts.c:355-399 | the wrap-around search finds an empty block exactly if the erased count is positive |
| Allocator.Device.AllocChunk | yaffs_guts.c:401-451 | the next page of the open block, or of a newly claimed one, or none for want of space |
| Allocator.Device.SkipRestOfBlock | yaffs_guts.c:470-481 | no block is being written any more |
| Allocator.Device.ChunkDel | yaffs_guts.c:3020-3076 | the chunk is out of use, and with the last one the block is erased, unless it is being written or may hold shrink headers |
| Allocator.Device.SoftDelChunk | yaffs_guts.c:1257-1271 | the chunk is counted as free though its bit stays |
| Allocator.Device.SummaryWrite | yaffs_summary.c:146-172 | on success exactly the chunks set aside that the summary needs come into use; on failure a first part of them; no other chunk changes |
| Allocator.Device.SummaryAdd | yaffs_summary.c:246-274 | after the last data page the summary is written and the block left |
| Allocator.Device.HandleChunkWrError | yaffs_guts.c:217-253 | the chunk is given up and its block left; a block that stays is marked for collection, and for retirement if the chunk had been seen to be erased, and one so marked does not come back into use; no other chunk goes out of use |
| Allocator.Device.Marks | yaffs_guts.c:217-248 | a block is to be retired if it was already, if the chunk had been seen to be erased, or at more than three strikes; at most one strike between two erasures, kept across them |
| Allocator.Device.TryChunk | yaffs_guts.c:527-564 | whatever the erase check and the write do, the page is in use exactly on success |
| Allocator.Device.WriteNewChunk | yaffs_guts.c:483-585 | exactly one data page comes into use on success and none on failure, no chunk in use is lost, and with two data pages or more in a block there are at most two attempts more than erased and checkpoint blocks, even with no limit set |
| Allocator.Device.GcProcessChunk | yaffs_guts.c:2459-2603 | the chunk leaves its block, or on failure everything in the block stays; other blocks lose nothing |
| Allocator.Device.SummaryGc | yaffs_summary.c:293-310 | the summary chunks of that block go, if it has a summary, and nothing else |
| Allocator.Device.GcChunks | yaffs_guts.c:2645-2665 | the loop over chunks makes progress, and with no copy failed none before the next is in use; if a copy fails the chunk is still in use and the next one to look at lies behind it |
| Allocator.Device.GcBlock | yaffs_guts.c:2605-2709 | the block leaves the log exactly with its last chunk; a collection that goes well ends or progresses; if a copy fails the block stays full with that chunk left behind, and a data chunk left behind keeps the block from ever being finished |
| Allocator.Device.CalcOldestDirtySeq | yaffs_yaffs2.c:43-71 | finds the least sequence number of a full block with discarded pages |
| Allocator.Device.BlockOkForGc | yaffs_yaffs2.c:120-135 | a block with shrink headers is let through only if no full block with discarded pages is older |
| Allocator.Device.CheckptOpen | yaffs_checkptrw.c:213-268 | opens a write session exactly if more than the reserve is erased, and then with no checkpoint block left over; else nothing changes |
| Allocator.Device.CheckptFindErasedBlock | yaffs_checkptrw.c:127-159 | finds the next erased block from where the last search ended, exactly if there is one and more than the reserve is erased |
| Allocator.Device.CheckptFlushBuffer | yaffs_checkptrw.c:279-334 | goes on with the block begun, or takes one erased block more; fails, changing nothing, exactly if it needs one and finds none |
| Allocator.Device.CheckptWr | yaffs_checkptrw.c:336-364 | all bytes go in unless a flush finds no block; short of a full chunk nothing else changes; data blocks are untouched |
| Allocator.Device.CheckptClose | yaffs_checkptrw.c:433-467 | the counters settle and the erased count is at least zero |
| Allocator.Device.CheckpointSave | yaffs_yaffs2.c:847-981 | saving, complete or cut short anywhere, keeps the invariant and all data blocks |
| Summary.FitsInBlock | yaffs_summary.c:79-86 | the summary never needs more chunks than were set aside |
| Summary.WrittenHolds | yaffs_summary.c:146-167 | the chunks written hold the bytes, part by part, and the header |
| Summary.HeldIsCollected | yaffs_summary.c:201-229 | what the chunks hold is what is read back |
| Summary.UnflatFlat | yaffs_summary.c:40-44 | tags to bytes and back |
| Summary.DamageFound | yaffs_summary.c:101-116 | a summary with any one byte of its tags changed is rejected |
| Summary.SummaryStore.Init | yaffs_summary.c:73-99 | chunks are set aside at the end of each block; an erased device holds no summary |
| Summary.SummaryStore.SummarySum | yaffs_summary.c:101-116 | the 32-bit sum of the bytes |
| Summary.SummaryStore.SummaryWrite | yaffs_summary.c:118-176 | on success a summary of these tags is stored; only chunks set aside change |
| Summary.SummaryStore.SummaryRead | yaffs_summary.c:178-244 | accepts exactly when a summary with this sequence number is stored, and then gives its tags back |
| TnodeLeaf.StoredReadsBack | yaffs_guts.c:801-859 | a slot of any even width from 16 to 30, across words or not, reads back what was stored cut to the width |
| TnodeLeaf.StoredElsewhere | yaffs_guts.c:801-830 | the other fifteen slots keep what they held |
| TnodeLeaf.EmptySlots | yaffs_guts.c:772-784 | in a fresh leaf every slot is absent |
| TnodeLeaf.LoadTnode0 | yaffs_guts.c:801-830 | the words after the two masked updates are those with the slot stored |
| TnodeLeaf.GetGroupBase | yaffs_guts.c:832-859 | the slot read from one or two words, as the first chunk of its group |
| TnodeLeaf.GroupReadsBack | yaffs_guts.c:801-859 | storing a chunk and reading it gives its group base, which is not 0 |
| TnodeLeaf.GroupRoundsDown | yaffs_guts.c:855-856 | the group base is the chunk number rounded down to a multiple of the group size |
| TnodeLeaf.CalcShiftsCeiling | yaffs_guts.c:82-100 | the least number of bits that count up to the argument |
| TnodeLeaf.ChunkFits | yaffs_guts.c:4922-4966 | a chunk in range fits its slot and does not pack to 0 |
| TnodeLeaf.Geometry | yaffs_guts.c:4922-4966 | an accepted geometry has an even width from 16 to 30, and every chunk from the second block on fits and is not 0 when packed; without wide tnodes the width is 16 and the rest goes into the group |
| TnodeTree.UpIsShift | yaffs_guts.c:887-910 | the digits of a chunk number that the code shifts out name the nodes on its path |
| TnodeTree.TallEnough | yaffs_guts.c:885-895 | a tree that is not tall enough cannot hold the leaf |
| TnodeTree.GrownLinked | yaffs_guts.c:952-968 | a new top over the old keeps every node in its place |
| TnodeTree.HungLinked | yaffs_guts.c:975-1006 | a node hung below another keeps the rest |
| TnodeTree.TrimmedLinked | yaffs_guts.c:1849-1865 | a top with only a first child can be dropped |
| TnodeTree.UnhungJoined | yaffs_guts.c:1793-1826 | a node without children can be unlinked |
| TnodeTree.PutMaps | yaffs_guts.c:1124-1252 | storing a chunk in its leaf changes what that chunk maps to and nothing else |
| TnodeTree.Tree.FindTnode0 | yaffs_guts.c:869-910 | finds the leaf of a chunk exactly if the tree has it |
| TnodeTree.Tree.AddFindTnode0 | yaffs_guts.c:924-1017 | afterwards the leaf is there, the one passed in replaces it, all other leaves stay; failing for want of memory leaves every leaf as it was |
| TnodeTree.Tree.PruneWorker | yaffs_guts.c:1781-1826 | frees only leaves with nothing in them and nodes without children; with `del0` 0 it frees nothing |
| TnodeTree.Tree.Trim | yaffs_guts.c:1849-1865 | the tree ends no taller than it needs to be, with the same leaves |
| TnodeTree.Tree.PruneTree | yaffs_guts.c:1828-1868 | every leaf stays and the first-child spine is never broken |
| TnodeTree.Tree.FindChunkInFile | yaffs_guts.c:1065-1090 | the group of a chunk by the map, 0 if there is none |
| TnodeTree.Tree.PutChunkInFile | yaffs_guts.c:1124-1252 | the map changes at that chunk only, or not at all without memory |
| TnodeCheckpoint.PlacesAre | yaffs_yaffs2.c:576-600 | the recursive walk visits exactly the leaves below a node |
| TnodeCheckpoint.BaseIsNotEnd | yaffs_yaffs2.c:602-660 | no base offset reads as the end marker, swapped or not |
| TnodeCheckpoint.Checkpointer.CheckptTnodeWorker | yaffs_yaffs2.c:576-618 | writes one record for each leaf below a node |
| TnodeCheckpoint.Checkpointer.WrCheckptTnodes | yaffs_yaffs2.c:620-637 | the stream is a dump of the whole tree with its end marker |
| TnodeCheckpoint.Checkpointer.RdCheckptTnodes | yaffs_yaffs2.c:639-685 | reading a dump into a fresh tree gives exactly the leaves of the tree dumped, whatever the heights and the byte order |
| EccTable.TableIsParity | yaffs_ecc.c:28-68 | the table of 256 entries is the exclusive or of one entry per bit |
| EccTable.TableFlip | yaffs_ecc.c:28-68 | one bit changed in a byte changes its entry by that bit's column |
| EccTable.HweightIsWeight | yaffs_hweight.c:20-44 | the bit count table counts the bits |
| Ecc.CalcOther | yaffs_ecc.c:205-229 | the loop computes the column and line parities |
| Ecc.CorrectOther | yaffs_ecc.c:231-281 | the decision and the change made, as a function of data and both codes |
| Ecc.CalcFlip | yaffs_ecc.c:205-229 | a data bit in error changes the code by that bit's own part |
| Ecc.NoFlip | yaffs_ecc.c:231-246 | nothing wrong, nothing changed |
| Ecc.OneFlip | yaffs_ecc.c:231-281 | for data of any length any one bit in error, of data or code, is put right |
| Ecc.TwoFlips | yaffs_ecc.c:231-281 | any two different bits in error give -1 and leave the data, except a data bit with an unused code bit, which is corrected |
| Ecc256.EccCalc | yaffs_ecc.c:72-131 | the three code bytes of 256 bytes of data |
| Ecc256.EccCorrect | yaffs_ecc.c:135-200 | the decision and the change made, as a function |
| Ecc256.CalcFlip256 | yaffs_ecc.c:72-131 | a data bit in error changes the code by that bit's own part |
| Ecc256.OneFault | yaffs_ecc.c:135-200 | any one bit in error, of data or code, is put right |
| Ecc256.TwoFaults | yaffs_ecc.c:135-200 | any two different bits in error give -1 and leave the data, except a data bit with a spare code bit |
| Words.JoinSplit | yaffs_endian.h:21-27 | four bytes and the word they make determine each other |
| Words.SwapSwap | yaffs_endian.h:21-27 | swapping the byte order twice gives the word back |
| NameVal.WithoutValues | yaffs_nameval.c:82-98 | leaving out a record removes just that name from the map |
| NameVal.AppendValues | yaffs_nameval.c:101-144 | a record of a new name adds just that entry |
| NameVal.Deleted | yaffs_nameval.c:90-97 | shifting the rest down and clearing the end leaves the other records and an end that stops the walk |
| NameVal.Appended | yaffs_nameval.c:134-143 | a record with zeros behind it, as far as there is room, is found, and the walk stops after it; with no room at all behind it the walk stops before it |
| NameVal.Store.constructor | yaffs_nameval.c:63-80 | a cleared or an erased buffer holds no records |
| NameVal.Store.NvalFind | yaffs_nameval.c:33-61 | the place and size of a name's record exactly if it is there |
| NameVal.Store.NvalUsed | yaffs_nameval.c:63-80 | the extent of all the records |
| NameVal.Store.NvalDel | yaffs_nameval.c:82-98 | the name is gone, every other keeps its value, and a record that was lost for want of strict room is back; fails exactly if the name was not there |
| NameVal.DeletedShows | yaffs_nameval.c:90-97 | shifting the rest down and clearing the end brings back the record that ended where the buffer ends |
| NameVal.AppendedBytes | yaffs_nameval.c:134-143 | the three writes of a record leave one that is found, one that is not, or one cut off by the end of the buffer, and change exactly those bytes behind the buffer that they run over |
| NameVal.Store.NvalSet | yaffs_nameval.c:101-144 | the four outcomes, also with a record lost before; on success the map has that name set exactly if at least one byte is to spare once the old record is out, and else the name is lost; the others keep their values, and a lost record is back if an old one was taken out; the memory behind the buffer, byte for byte |
| NameVal.Store.RoomFor | yaffs_nameval.c:120-132 | the room falls short exactly if a record was lost, the name was there, and the new value is longer than the old |
| NameVal.Store.NvalGet | yaffs_nameval.c:146-184 | the value last set, its length, a range error or absence |
| HandleState.FreeFd | yaffsfs.c:293-317 | a free handle means a free descriptor, so opening never has to give a handle back for want of one |
| HandleState.FreeInode | yaffsfs.c:213-238 | a descriptor being opened always finds a free inode slot |
| HandleState.CountsFit | yaffsfs.c:86-104 | the counts fit the bit fields they are kept in |
| HandleState.HookedWhileOpen | yaffsfs.c:250-272 | an object is hooked to an inode exactly while some live descriptor is open on it |
| HandleState.TakenKeeps | yaffsfs.c:293-317 | a new handle with a new descriptor keeps the counts |
| HandleState.HookedKeeps | yaffsfs.c:1061-1091 | giving the descriptor its inode keeps the counts, the hooks and the sharing |
| HandleState.DoubledKeeps | yaffsfs.c:790-816 | one more handle for a descriptor keeps them |
| HandleState.DroppedKeeps | yaffsfs.c:342-376 | giving up a handle, and with the last one the descriptor and perhaps the inode, keeps them |
| Handles.Tables.constructor | yaffsfs.c:130-148 | empty tables satisfy the invariant |
| Handles.Tables.FreeHandle | yaffsfs.c:274-291 | the first handle not in use, if there is one |
| Handles.Tables.NewHandleAndFileDes | yaffsfs.c:293-317 | fails exactly if no handle is free |
| Handles.Tables.FindInodeIdForObject | yaffsfs.c:193-207 | the inode of an object exactly if it has one |
| Handles.Tables.GetInodeIdForObject | yaffsfs.c:213-238 | the object's own inode or a free one; there always is one |
| Handles.Tables.CountHandles | yaffsfs.c:240-248 | the number of live descriptors open on the object |
| Handles.Tables.PutInode | yaffsfs.c:250-272 | the object is let go with its last descriptor, and deleted then if it has no name |
| Handles.Tables.PutFileDes | yaffsfs.c:342-361 | the inode is let go with the last handle of the descriptor |
| Handles.Tables.PutHandle | yaffsfs.c:363-376 | the descriptor is let go with the last use of the handle |
| Handles.Tables.GetHandle | yaffsfs.c:325-334 | a live handle is used once more |
| Handles.Tables.Dup | yaffsfs.c:790-816 | succeeds exactly if the handle is live and another is free, and then names the same descriptor |
| Handles.Tables.ScanFds | yaffsfs.c:987-1006 | what the other descriptors on the object share and do |
| Handles.Tables.SharingDenied | yaffsfs.c:982-1016 | denies exactly if some other descriptor stands in the way |
| Handles.Tables.Open | yaffsfs.c:828-1110 | succeeds exactly if a handle is free and there is an object that nothing denies, whatever the flags ask for; the invariant, with sharing honoured between any two open descriptors on one object, holds after every call |
| Handles.Tables.Close | yaffsfs.c:1181-1207 | closes a live handle; an object is let go, and a nameless one deleted, only with the last descriptor |
| Hanging.ReachesAround | yaffs_guts.c:4438-4450 | no chain to the root leads through an object that hangs |
| Hanging.MovedKeeps | yaffs_guts.c:4452-4457 | moving a hanging object puts it in its place and leaves every other that is in its own |
| Hanging.InPlaceChain | yaffs_guts.c:4401-4460 | an object in its place is on a chain of at most 101 directories to a fixed one |
| Hanging.ChainNoCycle | yaffs_guts.c:4401-4460 | an object on such a chain is on no cycle of parents |
| Hanging.Volume.constructor | yaffs_guts.c:1332-1389 | any graph of parents, with the lists of children that go with it |
| Hanging.Volume.IsHanging | yaffs_guts.c:4421-4451 | the hundred-step walk answers exactly whether the object hangs |
| Hanging.Volume.AddObjToDir | yaffs_guts.c:1332-1389 | the object is in the list of its new parent and in no other |
| Hanging.Volume.FixHangingObjs | yaffs_guts.c:4401-4460 | after one pass over any graph of parents every object is on an acyclic chain to a fixed directory, objects that were have not moved, and all that moved are in lost and found |

## Left out

- Volume.Volume.DoFileWr: the size is raised chunk by chunk with the writes, where the code raises it once after the loop; contents of chunks are in `FileCache` and, along runs, in `LogContents`, not here.
- Volume.Volume.WriteHoleMarker: the marker and the new size are one step here and two statements in the code.
- Volume.Volume.WriteNewChunk: writes do not fail here, and there is no short-op cache; failed writes are in `Allocator`, the cache in `FileCache`.
- Volume.Volume.MountAgrees: not claimed in the middle of a truncation; `LogCollect.MountMidCut` and `LogCutSize.MountMidCutSize` say what holds then.
- Volume.Volume.FindGcBlock: which block is looked at, by dirtiness, priority and thresholds, is left open: the claims hold for any choice.
- Volume.Volume.CheckGc: when to collect, and how much, is left open in the same way.
- Volume.Volume.HandleHole: as for WriteHoleMarker, the size is raised with the marker.
- Mount.Scanner.ScanBackwards: without summaries (the counters of a scan with them are in `MountCounts`), shadowed renames, hard links, retyped objects and directories; a block is erased by the next steps rather than inside the scan.
- MountCounts.Counter.ScanBackwards: what the scan makes of each page is an argument here; which chunks are kept is proved in `Mount`. Blocks with a sequence number out of range stay unscanned and are not in the list.
- NameVal.Store.NvalSet: once a record has run past the buffer, which needs a lost record, what is seen is stated, and may be read; setting and deleting after that is not taken up.
- Allocator.Device.WriteNewChunk: with a single data page in a block, which takes summaries and blocks of two pages, it is taken up only with a limit on attempts: such a block can be erased and tried again, so the bound would be another one.
- Allocator.Device.GcBlock: what the tags and the object say of each chunk is an argument; finishing off soft-deleted files afterwards is left to further deletions.
- Allocator.Device.CheckptWr: counts bytes and flushes; what the bytes say is not modelled but for the trees.
- TnodeTree.Tree.AddFindTnode0: a tnode is as large as sixteen slots, as where a pointer takes four bytes; tnodes given back to the allocator are only forgotten.
- FileCache.Files.DoFileWr: the product (chunk_id - 1) * data_bytes_per_chunk is not cut to 32 bits, so files beyond 4 GB are not modelled; writes that may not use the reserve can fail, those that may use it succeed, and there is memory for tnodes.
- TnodeTree.Tree.FindChunkInFile: gives the group; looking through the group for the chunk whose tags match is not modelled.
- TnodeTree.Tree.PutChunkInFile: the choice between two chunks for one slot in a forward scan is not modelled; the backward scan is in `Mount`.
- TnodeLeaf.Geometry: with wide tnodes more than 2^30 chunks would take slots of 32 bits, whose mask the code does not define.
- Handles.Tables.Open: finding and creating the object, permissions and directory search contexts are arguments; threads interleaving at the lock are not modelled.
- Hanging.Volume.FixHangingObjs: a read-only device, where the pass does nothing, is not modelled.
- The checkpoint byte-stream reader: a missing statement after its tag test makes the header checked, and the offset reset, only when the tags are bad; checkpointed trees are modelled as records instead.
- Forced unmount (`yaffsfs_BreakDeviceHandles`), which resets the handles of every device.
- Flushing the whole cache of a device, and the exact least-recently-used order when the use counter wraps.
- Files unlinked while open, in the log model; the handle tables have them.
- Soft deletion in the log model: with YAFFS2 a file is cut to nothing before it is deleted. The allocator has it.
- YAFFS1 tags and spare layout, NAND drivers, bad block scanning, inband tags, tracing, time stamps, path parsing, symbolic links, directories and error numbers.
- Wrap-around of sequence numbers after 2^32 blocks, and of object numbers.
