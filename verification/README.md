# Verified models of QEMU core logic

Dafny models of the parts of this QEMU tree whose correctness is not visible in
any single function: live migration of RAM and disks, request merging and
completion in the block layer, committing an overlay, byte access on sectors,
AES with its key schedules and CBC, bitmap searches, buffered output, character
pipes and the bottom-half scheduler.  `dafny verify dfyconfig.toml` checks all
of it.

## What is proved

* **RAM migration** (`RamList`, `RamStream`, `RamRun`, `RamSaver`, `RamLoader`,
  `RamMigration`).  The saver and the loader are classes that write and parse the
  byte stream.  A step system of guest writes and page sends carries the
  invariant that a clean page is equal on the receiver that replays the stream,
  the CONTINUE records included.  `RamMigration.Migrate` puts it together.
* **Block migration** (`BlkMigModel`, `BlkMigInv`, `BlkMigStream`, `BlkMigRun`,
  `BlkMigClose`, `BlkMigSaver`, `BlkMigLoader`, `BlkMigration`, `BlkMigLost`,
  `DirtyBitmap`).  Writes land sector by sector and are marked dirty only when the
  driver has returned; reads capture sectors one at a time and complete later, in
  submission order for each device.  The flush of stage 3 stops when the rate
  limiter says so, and what then waits is freed, so convergence is not
  unconditional: `BlkMigClose` says exactly when it holds, `BlkMigration.Migrate`
  states it of the running code, and `BlkMigLost` runs a migration that loses a
  chunk.  `DirtyBitmap` shows that the word code of the bitmaps is the boolean
  marking used there.
* **Block layer** (`MultiwriteSpec`, `MultiwriteExact`, `Multiwrite`, `Commit`,
  `ByteAccess`).  Merging requests is not always faithful: a request contained in
  an earlier one cuts off its tail.  `MultiwriteExact.MergeExact` gives the exact
  condition and `ContainedRequestLoses` a list that fails.
* **AES** (`AesField`, `AesSpec`, `AesTables`, `AesKeySpec`, `Aes`, `AesBlock`,
  `AesCbc`, `AesCbcMode`, `AesKnown`).  The tables are functions of the S-box and the
  field product, as the comment at the head of `aes.c` defines them.  That the S-box
  is invertible follows from Fermat's theorem in GF(2^8).  `AesKnown` proves the
  examples of appendices A and B of FIPS 197.
* **Byte queues** (`CBuffer`, `CharPipe`, `BufferedSpec`, `BufferedExact`,
  `BufferedFile`).  The buffered file is a lossless queue for most but not all
  answers of its backend; `BufferedExact` gives the exact condition, on lengths and
  answers, for one put and for whole runs, and inputs that fail.
* **Bitmaps** (`Bits`, `Bitmap`).
* **Bottom halves** (`BottomHalfSpec`, `BottomHalf`).  The linked list is proved
  against a walk over values, and the promises are proved of that walk for every
  behaviour of the callbacks.

## How it is modelled

Words are natural numbers with explicit 64-bit limits in the bitmap and stream
code, and bit vectors in AES.  Clocks, rate limiters, drivers, backends, peers and
guest activity are parameters: sequences of answers or acts, over which every
contract is universally quantified.  A driver is an array of sectors whose calls
may fail; a failing write may leave anything in its own sectors.  Callbacks of
bottom halves are arbitrary finite programs that may poll recursively.

Places where the code differs from what its comments or names suggest, and the
model follows the code:

* `charpipehalf_poll` consults the can-read handler of its own half to decide
  whether to ask how much the peer can take; `charpipehalf_write` consults the
  one of the peer.
* `buffered_flush` and `buffered_put_buffer` treat a result of 0 as an error but
  record error 0, which is no error, and which overwrites an error recorded
  just before.
* `block_save_live` reports success of stage 3 whether or not its flush has emptied
  the queue that the clean-up then frees.
* A write request of no sectors marks a chunk dirty unless it points at the start
  of a chunk other than the first.
* The comment of `bdrv_aio_multiwrite` says that in the error case callbacks may
  run for some requests; the code runs none when it returns -1.
* `multiwrite_merge` says it drops the last sectors of the first request when two
  overlap; it drops them also where the second request does not reach.

## Model

| member | source | states |
|---|---|---|
| Bitmap.Ffsl | qemu/bitops.h:31-61 | the shift ladder returns the index of the lowest set bit of any non-zero word |
| Bitmap.Flsl | qemu/bitops.h:69-99 | the shift ladder returns the index of the highest set bit of any non-zero word |
| Bitmap.Ffz | qemu/bitops.h:107-110 | the lowest clear bit of any word that is not all ones |
| Bitmap.FindNextBit | qemu/bitops.c:21-64 | the least set index from `offset` on, or `size`, for every size and offset, partial first and last words included |
| Bitmap.NextBitLast | qemu/bitops.c:57-63 | the tail of the search: the bits of the last word beyond `size` are not looked at |
| Bitmap.FindNextZeroBit | qemu/bitops.c:70-113 | the least clear index from `offset` on, or `size` |
| Bitmap.NextZeroLast | qemu/bitops.c:106-112 | the tail of the zero search on a partial last word |
| Bitmap.FindLastBit | qemu/bitops.c:115-142 | the greatest set index below `size`, or `size` when no bit is set |
| Bitmap.BitmapSet | qemu/bitmap.c:160-178 | exactly the bits of [start, start+nr) become 1, every other bit of the map stays |
| Bitmap.BitmapClear | qemu/bitmap.c:180-198 | exactly the bits of [start, start+nr) become 0, every other bit stays |
| Bitmap.FindNextZeroArea | qemu/bitmap.c:214-237 | exact first fit: the least aligned start from which `nr` clear bits lie inside the map; a value above `size` if and only if there is none |
| Wire.Be64RoundTrip | qemu/savevm.c:802-832 | eight big-endian bytes read back as the number written, whatever follows them |
| Wire.BigEndianAt | qemu/savevm.c:794-806 | byte i of n is the digit of the number at the power n - 1 - i of 256 |
| Wire.NameRoundTrip | qemu/arch_init.c:364-366 | a counted identifier reads back as written, whatever follows it |
| Wire.PackedHeader | qemu/arch_init.c:387-391 | flags OR-ed into the low bits of an aligned offset come apart again with the two masks |
| RamList.AddrIdentifies | qemu/cpu-all.h:562-566 | in a list of disjoint page-aligned blocks a page address, and so a dirty flag, belongs to one page only |
| RamList.DistNext | qemu/arch_init.c:164-174 | stepping through the list visits every page once before it returns to where it started |
| RamStream.HeaderSplits | qemu/arch_init.c:388-391 | offset, CONTINUE flag and record kind packed in one word are recovered exactly |
| RamStream.ResolveRecord | qemu/arch_init.c:347-375 | with the receiver remembering the block the sender sent last, a CONTINUE record and an id-carrying one resolve to the same block and offset |
| RamStream.RecordReplay | qemu/arch_init.c:437-466 | loading one page record stores exactly the page of the sender in the block of the same name, remembers that block, and leaves the rest of the stream |
| RamStream.StrangerRefused | qemu/arch_init.c:368-374 | a record for a page of a block that the receiver does not have is not accepted |
| RamStream.SizeReplay | qemu/arch_init.c:393-435 | the block list of stage 1 is accepted by a receiver with the same blocks and changes nothing |
| RamStream.SyncExact | qemu/arch_init.c:399-434 | a list of names and lengths, as the sender encodes it, is accepted if and only if every name exists on the receiver with exactly that length |
| RamStream.SizeExact | qemu/arch_init.c:393-435 | the size record of version 4 is accepted, and the rest of the stream read on, under exactly that condition; otherwise it fails with -EINVAL |
| RamStream.EosReplay | qemu/arch_init.c:471-473 | the end record ends the section |
| RamStream.ReplayBySections | qemu/arch_init.c:387-471 | replaying a stream record by record is the same as calling the loader section by section |
| RamRun.StepKeeps | qemu/arch_init.c:117-179 | every step, a guest write or a `ram_save_block`, keeps: a page that is clean on the sender is identical on the receiver that has replayed the stream so far, and both remember the same block |
| RamRun.RunKeeps | qemu/arch_init.c:117-179 | the same over every run from any state in which it holds |
| RamRun.BegunReplays | qemu/arch_init.c:273-301 | the state after stage 1 satisfies it: everything is dirty and the stream so far is accepted |
| RamRun.CleanPagesArrive | qemu/arch_init.c:117-179 | after any run of guest writes and saves, the whole byte stream is accepted and every clean page has arrived |
| RamRun.Converges | qemu/arch_init.c:330-338 | if no page is dirty at the end of a run, all RAM of the receiver equals that of the sender |
| RamSaver.SendingCounts | qemu/arch_init.c:183-199 | sending the next dirty page lowers the count of dirty pages by exactly one |
| RamSaver.IsDupPage | qemu/arch_init.c:99-112 | the 32-bit comparison loop is true if and only if every byte of the page equals `ch` |
| RamSaver.Saver.MaskDirtyRange | qemu/cpu-all.h:579-592 | clears the given flags of exactly the pages of the range |
| RamSaver.Saver.GuestStore | qemu/cpu-all.h:573-577 | a store changes its page and sets its dirty flags; the migration invariant is kept |
| RamSaver.Saver.PutRecord | qemu/arch_init.c:139-157 | appends the record the receiver is specified against, with or without the block name; the result is 1 for a page whose bytes are all equal and the page size for every other |
| RamSaver.Saver.SendPage | qemu/arch_init.c:129-159 | the dirty flag is cleared, the record appended, and the history grows by this one save; the result counts the page as `PutRecord` does |
| RamSaver.Saver.RamSaveBlock | qemu/arch_init.c:117-179 | returns 0 if and only if no page is dirty; otherwise sends and cleans exactly the first dirty page in scan order from the last one, and returns 1 if all its bytes are equal, else the page size |
| RamSaver.Saver.RamSaveRemaining | qemu/arch_init.c:183-199 | the number of dirty pages |
| RamSaver.Saver.SortRamList | qemu/arch_init.c:234-253 | the list is sorted by offset and is a permutation of the old one |
| RamSaver.Saver.MarkAllDirty | qemu/arch_init.c:280-289 | every page is dirty |
| RamSaver.Saver.RamBytesTotal | qemu/arch_init.c:211-220 | the sum of the block lengths |
| RamSaver.Saver.PutBlockList | qemu/arch_init.c:294-300 | appends the size record with every name and length |
| RamSaver.Saver.BeginMigration | qemu/arch_init.c:273-301 | stage 1: sorted list, everything dirty, block list sent, nothing remembered |
| RamSaver.Saver.SaveWhileAllowed | qemu/arch_init.c:306-314 | exactly as many pages are saved as the rate limiter says go on, or all that are dirty if that is fewer; the result is the answer that stopped it, or 0 |
| RamSaver.Saver.SaveAll | qemu/arch_init.c:333-336 | the stage 3 loop terminates, the number of dirty pages being its measure, with no page dirty |
| RamSaver.Saver.FinishSection | qemu/arch_init.c:303-344 | the part common to all stages: as many pages are saved as the rate limiter says go on, and the section is closed unless it reported an error, which is then the result |
| RamSaver.Saver.RamSaveLive | qemu/arch_init.c:255-345 | all stages; stage 2 saves as many pages as the rate limiter says go on, and an error it reports is the result; after stage 3 no page is dirty and the section is closed; a negative stage or a failed bitmap sync sends nothing |
| RamSaver.Saver.Delivered | qemu/arch_init.c:330-340 | the stream a drained saver has written, replayed on a receiver with the same blocks, gives equal RAM |
| RamLoader.Loader.LookUp | qemu/arch_init.c:368-371 | the first block with that identifier, or none |
| RamLoader.Loader.LookUpAddr | qemu/arch_init.c:441-442 | version 3 streams: the block that holds the address |
| RamLoader.Loader.FindTarget | qemu/arch_init.c:347-375 | the static block pointer after the call, the target and the unread rest are those of the specification; a CONTINUE without a block fails |
| RamLoader.Loader.SyncBlocks | qemu/arch_init.c:399-434 | computes the list check of which `RamStream.SyncExact` says exactly what it accepts |
| RamLoader.Loader.Store | qemu/arch_init.c:449-465 | a page inside the block is replaced, nothing else; otherwise nothing changes |
| RamLoader.Loader.ReadPage | qemu/arch_init.c:437-465 | the page branch of a record; -EINVAL exactly when a compressed page has no block, and nothing is stored on any failure |
| RamLoader.Loader.LoadRecord | qemu/arch_init.c:387-470 | one turn of the loop does what the record specification says; a bad record leaves all RAM as it was |
| RamLoader.Loader.RamLoad | qemu/arch_init.c:377-474 | one section; on a bad record the RAM is what the records before it made of it and the result is the code of that failure; a section that starts with a block list naming a block the receiver does not have with that length returns -EINVAL and changes nothing; versions other than 3 and 4 are refused without touching anything |
| RamLoader.Loader.LoadStream | qemu/arch_init.c:377-474 | section after section, the loader computes the replay of the stream |
| RamMigration.RunGuest | qemu/arch_init.c:255-345 | guest stores between two sections keep the migration going, and the RAM is what it was with exactly those stores |
| RamMigration.Migrate | qemu/arch_init.c:255-474 | saver, guest and loader together: whatever the guest wrote and the rate limiter allowed, a migration that returns without error ends with equal RAM, namely the RAM at the start, sorted by address, with all the guest's stores; only the rate limiter can make it fail |
| BlkMigInv.StepValid | qemu/block-migration.c:186-270 | every step keeps the state well formed |
| BlkMigInv.StepKeeps | qemu/block-migration.c:186-447 | every step (a write landing, its notification, a submission, a sector captured, a completion, a send) keeps: a sector not dirty, not pending and not on its way is the same on the destination, and one on its way is covered by the last read of its chunk; sending past the queue keeps it if the queue is empty, and dropping a waiting chunk if it is dirty again |
| BlkMigStream.HeaderSplits | qemu/block-migration.c:657-661 | sector number and flag packed in one word are recovered exactly |
| BlkMigStream.CutFlatten | qemu/block-migration.c:692-695 | the bytes of a chunk cut back into its sectors |
| BlkMigStream.BlkReplay | qemu/block-migration.c:663-700 | loading a chunk record writes exactly its sectors on the named disk, a short last chunk included |
| BlkMigStream.BlkExact | qemu/block-migration.c:663-700 | a chunk is accepted if and only if the destination has a non-empty device of that name that reaches to its first sector |
| BlkMigStream.NoFlagRefused | qemu/block-migration.c:709-712 | a header without any of the three flags fails with -EINVAL |
| BlkMigStream.ProgressReplay | qemu/block-migration.c:701-708 | a progress record changes nothing |
| BlkMigStream.EosReplay | qemu/block-migration.c:709-717 | the end record ends the section |
| BlkMigStream.ReplayBySections | qemu/block-migration.c:657-717 | replay by record is replay by section |
| BlkMigRun.StepReplays | qemu/block-migration.c:86-100 | the bytes a step appends are loaded as exactly the delivery the step stands for |
| BlkMigRun.Arrives | qemu/block-migration.c:186-720 | for every run: its stream is accepted, and on the destination each sector holds what was last sent for it, or what it held before |
| BlkMigRun.RunKeeps | qemu/block-migration.c:186-489 | over every run up to the end of the last flush, what the destination has made of the stream satisfies the invariant |
| BlkMigClose.LateRun | qemu/block-migration.c:621-640 | after the last flush, dirty chunks sent past the queue, the clean-up and the end mark change on the destination exactly the chunks cleaned meanwhile, to the source's contents |
| BlkMigClose.CloseExact | qemu/block-migration.c:583-640 | stage 3 leaves the disks equal if and only if every chunk its flush left in the queue was dirty again or its sectors already stood on the destination |
| BlkMigClose.ConvergesExactly | qemu/block-migration.c:558-720 | over every finished run, for every answer of the rate limiter, although writes landed between any two steps and were marked dirty only afterwards: the stream is accepted, and every destination sector equals the source if and only if nothing the last flush left behind was lost |
| BlkMigClose.Converges | qemu/block-migration.c:558-720 | in particular if every chunk left waiting is dirty again, as when none is left |
| BlkMigClose.ForEveryDestination | qemu/block-migration.c:583-640 | a finished run makes every destination equal, whatever it held, if and only if each chunk left waiting was dirty again or had been sent before with its present contents: the source alone can tell |
| BlkMigSaver.Saver.GuestLand | qemu/block.c:1284-1311 | the driver has written a sector; it is not marked yet |
| BlkMigSaver.Saver.GuestNotify | qemu/block.c:1284-1311 | the chunks of the write are marked after the driver returned |
| BlkMigSaver.Saver.DriverCapture | qemu/block-migration.c:252-253 | an asynchronous read copies one sector at some moment before it completes |
| BlkMigSaver.Saver.ReadCb | qemu/block-migration.c:186-203 | the oldest read of a device joins the queue, its in-flight mark is cleared, the two counters move |
| BlkMigSaver.Saver.FinishHead | qemu/block-migration.c:389-391 | a read that is waited for captures all its sectors |
| BlkMigSaver.Saver.AioFlush | qemu/block-migration.c:389-391 | all reads have completed; nothing is submitted, nothing is lost |
| BlkMigSaver.Saver.SaveDeviceBulk | qemu/block-migration.c:205-270 | exactly the bulk step of the system: the chunk at the cursor is submitted, its dirty bits are cleared, the cursor advances; nothing if there is none; done exactly when the cursor reached the end |
| BlkMigSaver.Saver.SubmitBulkRead | qemu/block-migration.c:238-260 | the submission step of the bulk phase |
| BlkMigSaver.Saver.BulkOne | qemu/block-migration.c:340-347 | one device of the bulk phase: its next chunk is submitted, and it becomes complete exactly when its cursor is at the end |
| BlkMigSaver.Saver.SaveBulkedBlock | qemu/block-migration.c:332-368 | returns 0 only when the bulk phase of all devices is complete and then changes no chunk; otherwise the first incomplete device makes its bulk step |
| BlkMigSaver.Saver.PutProgressIfChanged | qemu/block-migration.c:353-365 | a progress record is written exactly when the percentage changed |
| BlkMigSaver.Saver.PutProgress | qemu/block-migration.c:361-362 | appends the progress record |
| BlkMigSaver.Saver.SendHead | qemu/block-migration.c:480-487 | sends the first waiting chunk |
| BlkMigSaver.Saver.FlushBlks | qemu/block-migration.c:464-494 | sends exactly as many waiting chunks, oldest first, as the rate limiter lets out, and counts them; the rest of the queue stays in order; the result is the answer that stopped it |
| BlkMigSaver.Saver.ResetDirtyCursor | qemu/block-migration.c:370-377 | every dirty cursor is 0 |
| BlkMigSaver.Saver.SkipClean | qemu/block-migration.c:388-437 | the scan waits for in-flight chunks, skips exactly clean chunks, and stops at the first dirty one or at the end |
| BlkMigSaver.Saver.SubmitDirtyRead | qemu/block-migration.c:405-420 | the asynchronous branch: submitted, marked in flight, dirty bits cleared |
| BlkMigSaver.Saver.SyncSend | qemu/block-migration.c:421-432 | the synchronous branch: read, sent past whatever waits in the queue, dirty bits cleared |
| BlkMigSaver.Saver.SaveDeviceDirty | qemu/block-migration.c:379-439 | handles the next dirty chunk of a device or reports that there is none, in stage 3 whether or not the queue is empty |
| BlkMigSaver.Saver.OneDeviceDirty | qemu/block-migration.c:455-458 | one device of the loop over devices: without reads in flight the number of dirty chunks falls unless the device is over |
| BlkMigSaver.Saver.SaveDirtyBlock | qemu/block-migration.c:449-462 | 0 only if the cursors of all devices are past the end; otherwise one chunk was handled |
| BlkMigSaver.Saver.Stage2 | qemu/block-migration.c:593-610 | terminates for every rate limit and keeps the run invariant; when it ends the rate is reached, or the bulk phase is over and the scan for dirty chunks has reached the end of every device |
| BlkMigSaver.Saver.Stage3 | qemu/block-migration.c:621-627 | terminates with no chunk dirty on any device, whatever waits in the queue |
| BlkMigSaver.Saver.PutEos | qemu/block-migration.c:640-640 | appends the end record |
| BlkMigSaver.Saver.CleanUp | qemu/block-migration.c:549-553 | every chunk still waiting is dropped, one step each; nothing reaches the stream |
| BlkMigSaver.Saver.RemainingDirty | qemu/block-migration.c:496-506 | the number of dirty chunks of all devices |
| BlkMigSaver.Saver.Stage2Completed | qemu/block-migration.c:508-531 | true if and only if the bulk phase is over and nothing is dirty or the rest fits the downtime |
| BlkMigSaver.Saver.FinishAll | qemu/block-migration.c:621-640 | stage 3 after its flush: the dirty loop, the clean-up and the two records make the run a finished one |
| BlkMigSaver.Saver.BlockSaveLive | qemu/block-migration.c:558-643 | all stages for every answer of the rate limiter; in stage 2 it reads on until the rate is reached or nothing is left to read; the result is 1 if and only if the stage is 2, the bulk phase is over and nothing is dirty or the rest fits the downtime, and then every device has been read to its end; an error the limiter reports abandons the migration and frees the queue; stage 3 ends a finished run whose last flush left exactly the chunks the limiter did not let out |
| BlkMigSaver.Saver.Delivered | qemu/block-migration.c:621-640 | the stream of a finished saver is accepted, and gives equal disks if and only if nothing the last flush left behind was lost |
| BlkMigLoader.Loader.LookUp | qemu/block-migration.c:669-674 | the disk of that name, or none |
| BlkMigLoader.Loader.LoadChunk | qemu/block-migration.c:663-700 | the chunk branch, with the cached length of the previous device; a chunk right at the end of the device writes nothing, one beyond it fails |
| BlkMigLoader.Loader.LoadRecord | qemu/block-migration.c:657-716 | one turn of the loop does what the record specification says, unknown flags and devices included |
| BlkMigLoader.Loader.BlockLoad | qemu/block-migration.c:645-720 | one section |
| BlkMigLoader.Loader.LoadStream | qemu/block-migration.c:645-720 | the loader computes the replay of the stream |
| BlkMigration.Perform | qemu/block-migration.c:186-203 | one act of guest or driver between two sections is exactly its step of the system, if it is enabled |
| BlkMigration.Environment | qemu/block-migration.c:186-203 | any sequence of guest writes, notifications, captures and completions between two sections does exactly those steps; the disks are what they were with the writes that landed |
| BlkMigration.StageThree | qemu/block-migration.c:583-720 | stage 3 and the loading of the whole stream, for every answer of the rate limiter: which chunks the flush left, and that the disks are equal if and only if none of them was lost |
| BlkMigration.Migrate | qemu/block-migration.c:558-720 | saver, guest, driver and loader together, with stage 3 entered on the answer 1 of a stage 2 call: it completes unless no call gives that answer, a read is outstanding or a write half done when stage 3 begins, or the rate limiter reports an error; the source has its disks at the start with all the guest's writes, and the destination has the same if and only if nothing the last flush left behind was lost |
| BlkMigLost.StageThreeLoses | qemu/block-migration.c:583-627 | the failing run: one clean chunk waits, the rate limit is reached when stage 3 begins; the migration reports success, the stream is accepted, and the destination does not have the source's contents |
| DirtyBitmap.SetAioInflight | qemu/block-migration.c:152-172 | the word loop changes exactly the bits of the chunks of the range |
| DirtyBitmap.AioInflight | qemu/block-migration.c:140-150 | the bit of the chunk, and 0 past the end of the device |
| DirtyBitmap.RangeIsMark | qemu/block.c:1097-1123 | a range of bits set in words is the boolean marking the migration model uses |
| DirtyBitmap.BlockDriverState.constructor | qemu/block.c:3031-3050 | tracking starts with no chunk dirty and a count of 0 |
| DirtyBitmap.BlockDriverState.SetDirtyBitmap | qemu/block.c:1097-1123 | the word loop marks exactly the chunks of the range, a range of no sectors included, and the count stays the number of dirty chunks |
| DirtyBitmap.BlockDriverState.MarkOne | qemu/block.c:1106-1122 | one chunk; skipping the update of a bit that already has its value changes nothing |
| DirtyBitmap.BlockDriverState.GetDirty | qemu/block.c:3052-3063 | the mark of the chunk, and false past the end of the disk |
| DirtyBitmap.BlockDriverState.Writev | qemu/block.c:1284-1311 | a refused request changes nothing; an accepted one marks its chunks whatever the driver returned, so every sector that changed lies in a dirty chunk |
| DirtyBitmap.WriteTracked | qemu/block.c:1302-1304 | a change confined to the range of the request is covered by the marks of the request |
| Multiwrite.IovecCopy | qemu/cutils.c:178-214 | appends exactly the bytes [skip, skip+size) of the source list as far as it goes |
| MultiwriteSpec.TakeBytes | qemu/cutils.c:178-214 | the elements taken hold the first `size` bytes; empty elements are dropped and the last one is cut |
| Multiwrite.SortRequests | qemu/block.c:2284-2311 | sorted by start sector and a permutation |
| MultiwriteSpec.JoinFacts | qemu/block.c:2338-2364 | the merged request starts where the first does, ends where the second does, and stays consistent |
| MultiwriteSpec.JoinAt | qemu/block.c:2338-2364 | byte by byte: the second request where it writes, else the first one before the start of the second |
| MultiwriteSpec.KeptApart | qemu/block.c:2316-2336 | overlapping and exactly sequential requests are merged: two neighbours of the result touch only where IOV_MAX keeps them apart |
| MultiwriteSpec.StepValue | qemu/block.c:2316-2371 | one turn keeps the value of every byte it does not drop |
| MultiwriteSpec.LosslessPreserved | qemu/block.c:2305-2374 | if no byte is dropped for good, the merged requests write what the sorted ones write, whatever the IOV_MAX cut-offs |
| MultiwriteSpec.DropsAreCuts | qemu/block.c:2318-2347 | what the loop cuts off the request kept last, read off the two requests concerned |
| MultiwriteExact.LossShows | qemu/block.c:2344-2347 | a byte dropped for good shows on a disk for some payload: the last request that writes it is marked and its byte is gone |
| MultiwriteExact.MergeExact | qemu/block.c:2305-2374 | merging preserves what is written for every payload and disk if and only if it is lossless: no request that touches the one before it, and is not kept apart by IOV_MAX, ends before that one does, unless the bytes so dropped are written again later |
| MultiwriteExact.AscendingLossless | qemu/block.c:2305-2374 | lossless when every sorted request ends no earlier than all before it |
| MultiwriteExact.ContainedRequestLoses | qemu/block.c:2344-2347 | the counterexample: four sectors and then the second of them again lose the last two |
| Multiwrite.Combine | qemu/block.c:2338-2362 | builds the merged request |
| Multiwrite.MergeTurn | qemu/block.c:2316-2371 | one turn of the compaction in place, the IOV_MAX test included |
| Multiwrite.MultiwriteMerge | qemu/block.c:2305-2374 | the array is compacted to the merge of a sorted permutation; consistency is kept and, if lossless, so is what is written |
| Multiwrite.FirstNegativeIs | qemu/block.c:2273-2275 | the error kept is 0 if and only if no result is negative, and otherwise the negative result with none before it |
| Multiwrite.ResultsWell | qemu/block.c:2445-2466 | no result counted is negative if and only if every request was accepted and none that completed early failed |
| Multiwrite.MultiwriteCB.UserCb | qemu/block.c:2253-2265 | every callback once, in order, with the recorded error |
| Multiwrite.MultiwriteCB.Cb | qemu/block.c:2267-2282 | the error is the first negative result so far; the callbacks run and the block is freed exactly when the count reaches 0 |
| Multiwrite.MultiwriteCB.CompleteAll | qemu/block.c:2267-2282 | completions that arrive while something is still counted never run the callbacks |
| Multiwrite.SubmitAll | qemu/block.c:2442-2466 | the submission loop with the dummy request counted: fails exactly when the first submission is refused; else the counter is what is in flight |
| Multiwrite.AioMultiwrite | qemu/block.c:2390-2476 | the requests offered to the driver are the merge of a sorted permutation, up to the first refusal; all of them write what the sorted requests write if the merge is lossless; for every pattern of acceptances, refusals and early completions a first refusal fails all requests and runs no callback, and otherwise the callbacks have run if and only if everything submitted has completed |
| Multiwrite.SetErrors | qemu/block.c:2471-2473 | the error field of every request |
| Multiwrite.WholeRun | qemu/block.c:2253-2476 | over a whole run each callback runs exactly once, after the last submitted request and the dummy, with the earliest negative result; the error is 0 if and only if every request was accepted and none failed |
| Commit.ShadowedUnseen | qemu/block.c:924-937 | writes to the backing image under allocated sectors are not seen through the overlay |
| Commit.EmptiedUnseen | qemu/block.c:939-942 | once all of the overlay is copied, any part of it can go unseen |
| Commit.Image.IsAllocated | qemu/block.c:925-925 | the driver contract: a uniform run of at least one sector |
| Commit.Image.Read | qemu/block.c:927-930 | what a reader of the overlay sees |
| Commit.Image.WriteBase | qemu/block.c:932-935 | a failing write may leave anything, but only in its own sectors |
| Commit.Image.CopyRun | qemu/block.c:925-936 | changes only shadowed sectors, and on success the run is copied; it succeeds if the reads and writes do and the backing image is long enough |
| Commit.Image.CommitAll | qemu/block.c:921-952 | what a reader sees is unchanged at a read failure, at a write failure, at every turn and after the overlay was emptied; on success the backing image holds all of it; with good answers and a long enough backing image it succeeds |
| ByteAccess.Device.Read | qemu/block.c:1258-1271 | whole sectors inside the device, or an error |
| ByteAccess.Device.Write | qemu/block.c:1284-1311 | whole sectors; a failing write touches no other sector |
| ByteAccess.Device.Pread | qemu/block.c:1137-1180 | success returns exactly the bytes [offset, offset+count), for every alignment of both ends; with a good driver and a range inside the device it succeeds |
| ByteAccess.Device.ReadPart | qemu/block.c:1151-1160 | a part of one sector behind what was read so far |
| ByteAccess.Device.WriteEdge | qemu/block.c:1196-1207 | read, change, write back: exactly the part of the sector changes |
| ByteAccess.Device.Pwrite | qemu/block.c:1182-1229 | success changes exactly the bytes [offset, offset+count); on an error no byte outside them changes unless a driver write failed, and then none outside the sectors that hold a byte of the request |
| ByteAccess.Device.PwriteHead | qemu/block.c:1190-1207 | the partial first sector |
| ByteAccess.Device.PwriteWhole | qemu/block.c:1209-1218 | the whole sectors in the middle |
| ByteAccess.Device.PwriteTail | qemu/block.c:1220-1227 | the partial last sector |
| AesField.TimesCommutes | qemu/aes.c:47-57 | the field product the tables are built from commutes |
| AesField.TimesAssociates | qemu/aes.c:47-57 | and associates |
| AesField.TimesRight | qemu/aes.c:47-57 | and distributes over addition |
| AesField.Fermat | qemu/aes.c:47-57 | every field element is its own 256th power, taken as eight squarings |
| AesField.InverseIsInverse | qemu/aes.c:47-57 | every element but 0 has an inverse, and inverting twice is the identity |
| AesField.InverseIs | qemu/aes.c:47-57 | one product that is 1 determines the inverse |
| AesField.SBoxInverts | qemu/aes.c:47-57 | the S-box and its inverse undo each other, for all 256 bytes, without a table |
| AesSpec.MixColumnInverts | qemu/aes.c:47-57 | the matrix of the decryption tables inverts that of the encryption tables |
| AesSpec.InvMixOfKeyed | qemu/aes.c:853-876 | InvMixColumns distributes over the key addition, which is why round keys can be transformed beforehand |
| AesSpec.InvRoundUndoes | qemu/aes.c:1171-1227 | an inverse round under the transformed key undoes a round |
| AesSpec.DecipherUndoes | qemu/aes.c:1076-1261 | the inverse cipher under the inverted schedule undoes the cipher, for every schedule and every block |
| AesTables.PackRoundTrip | qemu/aes.c:43-44 | bytes packed into a word come back, and words repacked are the same |
| AesTables.EncRoundWords | qemu/aes.c:980-1036 | a table round is SubBytes, ShiftRows, MixColumns and AddRoundKey |
| AesTables.EncLastWords | qemu/aes.c:1038-1069 | the masked last round is SubBytes, ShiftRows and AddRoundKey |
| AesTables.DecRoundWords | qemu/aes.c:1171-1227 | a decryption table round is InvSubBytes, InvShiftRows, InvMixColumns and AddRoundKey |
| AesTables.DecLastWords | qemu/aes.c:1229-1260 | the masked last decryption round |
| AesTables.InvMixWord | qemu/aes.c:856-860 | the nested table lookup on a round key word is InvMixColumns |
| AesKeySpec.RconIs | qemu/aes.c:722-726 | the table of round constants is the powers of x |
| AesKeySpec.SubRotWord | qemu/aes.c:757-764 | the masked lookups are SubWord of the rotated word |
| AesKeySpec.SubWord | qemu/aes.c:813-818 | the masked lookups are SubWord |
| AesKeySpec.FilledIsSchedule | qemu/aes.c:731-827 | words that follow the recurrence are the round keys of section 5.2 of FIPS 197 |
| Aes.AesKey.LoadKey | qemu/aes.c:752-755 | the first words are the key bytes, big-endian |
| Aes.AesKey.Expand128 | qemu/aes.c:757-772 | one turn of the 128-bit loop |
| Aes.AesKey.Expand192 | qemu/aes.c:777-787 | the first four words of a turn of the 192-bit loop |
| Aes.AesKey.Finish192 | qemu/aes.c:791-793 | the two words that follow unless the turn is the last |
| Aes.AesKey.Expand256 | qemu/aes.c:799-809 | the first four words of a turn of the 256-bit loop |
| Aes.AesKey.Finish256 | qemu/aes.c:813-823 | the four words after the middle substitution |
| Aes.AesKey.SetEncryptKey | qemu/aes.c:731-827 | -1, -2 or 0 as the arguments demand; on 0 the first 4*(rounds+1) words are exactly the schedule and the rest is untouched; on failure nothing changes |
| Aes.AesKey.SwapRoundKeys | qemu/aes.c:848-851 | two round keys are exchanged, the rest kept |
| Aes.AesKey.ReverseRoundKeys | qemu/aes.c:846-852 | the round keys are in reverse order |
| Aes.AesKey.MixRoundKey | qemu/aes.c:855-875 | one round key goes through InvMixColumns |
| Aes.AesKey.MixRoundKeys | qemu/aes.c:853-876 | all round keys but the first and the last do |
| Aes.AesKey.SetDecryptKey | qemu/aes.c:832-878 | the schedule of section 5.3.5 of FIPS 197 |
| AesBlock.EncryptWords | qemu/aes.c:901-1069 | the two-rounds-a-turn table loop computes the matrix cipher, for all three round counts |
| AesBlock.DecryptWords | qemu/aes.c:1167-1260 | the same loop over the decryption tables computes the equivalent inverse cipher |
| AesBlock.Encrypt | qemu/aes.c:885-1070 | sixteen bytes at the output become the cipher of the sixteen input bytes, the buffers overlapping or not |
| AesBlock.Decrypt | qemu/aes.c:1076-1261 | sixteen bytes at the output become the inverse cipher of the input |
| AesBlock.BlockRoundTrip | qemu/aes.c:1076-1261 | on bytes, the two block functions are inverse |
| AesBlock.RoundTrip | qemu/aes.c:731-1261 | for every key of 128, 192 or 256 bits and every block: set both keys, encrypt, decrypt, and the block is back |
| AesKnown.SBoxKnown | qemu/aes.c:325-390 | known entries of the S-box: 0x00, 0x01, 0x53 and 0xff go to 0x63, 0x7c, 0xed and 0x16 |
| AesKnown.ExpansionKnown | qemu/aes.c:757-772 | all words of the 128-bit key expansion in appendix A.1 of FIPS 197 |
| AesKnown.Expansion192Known | qemu/aes.c:777-787 | the first word that follows the 192-bit key of appendix A.2 of FIPS 197 |
| AesKnown.Expansion256Known | qemu/aes.c:799-818 | the five words that follow the 256-bit key of appendix A.3 of FIPS 197, the middle substitution included |
| AesKnown.ScheduleKnown | qemu/aes.c:731-772 | the round keys of that 128-bit key, from its bytes |
| AesKnown.CipherKnown | qemu/aes.c:885-1070 | the block of appendix B of FIPS 197 under that key enciphers to the block given there |
| AesCbc.CbcRoundTrip | qemu/aes.c:1265-1314 | for every length, a partial last block included, decrypting from the same vector gives the plaintext back |
| AesCbc.CbcFilled | qemu/aes.c:1286-1294 | a partial last block is enciphered as if it were filled up with zero bytes, and leaves the same vector |
| AesCbc.CbcSplit | qemu/aes.c:1277-1285 | cutting at a block boundary and carrying the vector gives the same ciphertext and the same vector |
| AesCbc.CbcDecipherMore | qemu/aes.c:1296-1312 | decrypting one more block, or the tail, extends the plaintext |
| AesCbcMode.EncryptOne | qemu/aes.c:1278-1294 | one block or the padded tail: ciphertext at the output, and the same in the vector |
| AesCbcMode.CbcEncrypt | qemu/aes.c:1276-1294 | the output is the chained ciphertext of the whole input and the vector its last block, in place or not |
| AesCbcMode.DecryptOne | qemu/aes.c:1297-1312 | one block or the tail |
| AesCbcMode.CbcDecrypt | qemu/aes.c:1295-1313 | the output is the plaintext, in place or not; after whole blocks the vector is the last ciphertext block |
| AesCbcMode.CbcThereAndBack | qemu/aes.c:1265-1314 | a buffer encrypted and decrypted in place has its bytes back, for every key and length |
| BottomHalfSpec.WalkKeeps | qemu/async.c:63-73 | whatever the callbacks do, to any depth of nested polls, nothing linked moves or is unlinked by a walk, what is deleted stays so, and what is pending stays so until it is run, cancelled or deleted |
| BottomHalfSpec.WalkHandles | qemu/async.c:63-73 | every bottom half pending when a walk starts has been run, cancelled or deleted when it ends |
| BottomHalfSpec.WalkSurplus | qemu/async.c:71-71 | in a walk every act is performed exactly as often as the callbacks that are called ask for it, nested polls included |
| BottomHalfSpec.QuietWalk | qemu/async.c:63-73 | when no callback interferes, exactly the pending ones are called, newest first, the j-th with the j-th callback, each once, and the result says whether one of them was not idle |
| BottomHalfSpec.ProgrammeGood | qemu/async.c:44-121 | over every program of creations, schedules, cancellations, deletions and polls, with any callbacks: nothing runs after it was deleted, nothing runs more often than it was scheduled, and each is linked once |
| BottomHalf.BhContext.New | qemu/async.c:44-53 | a new bottom half at the front, neither scheduled nor deleted; everything linked stays linked |
| BottomHalf.BhContext.Schedule | qemu/async.c:102-110 | scheduled and not idle, unless it already was scheduled; nothing else changes |
| BottomHalf.BhContext.ScheduleIdle | qemu/async.c:94-100 | scheduled and idle, unless it already was scheduled; nothing else changes |
| BottomHalf.BhContext.Cancel | qemu/async.c:112-115 | not scheduled; nothing else changes |
| BottomHalf.BhContext.Delete | qemu/async.c:117-121 | marked deleted and not scheduled, still linked; nothing else changes |
| BottomHalf.BhContext.Do | qemu/async.c:44-121 | each kind of action, a nested poll included, has its effect on the linked list that `BottomHalfSpec` gives it, and on the bottom half it is for |
| BottomHalf.BhContext.RunCallback | qemu/async.c:71-71 | a callback is started only on a node that is linked and not deleted; the call is logged and exactly its acts are performed, in order |
| BottomHalf.BhContext.Visit | qemu/async.c:66-71 | a node about to run loses both flags, and then its callback is called |
| BottomHalf.BhContext.Turn | qemu/async.c:63-73 | one turn of the loop; the next pointer saved before the callback names a node that is still linked after it |
| BottomHalf.BhContext.WalkList | qemu/async.c:63-73 | the loop over the linked list computes the walk, which calls the k-th pending node it reaches with the k-th callback |
| BottomHalf.BhContext.PollBhs | qemu/async.c:55-92 | at any nesting depth the poll computes the walk and returns 1 if and only if a node that was not idle was run; every node pending at the start has been run, cancelled or deleted; nested polls unlink nothing, the outermost unlinks exactly the deleted nodes |
| BottomHalf.BhContext.Run | qemu/async.c:44-121 | any program over the list keeps what `BottomHalfSpec.ProgrammeGood` says of its log |
| BottomHalf.BhContext.RemoveDeleted | qemu/async.c:77-89 | the list becomes its undeleted nodes in order, well linked |
| BottomHalf.BhContext.Unlink | qemu/async.c:82-84 | one node is taken out through the link that points to it |
| CBufferRing.RingAppend | qemu/cbuffer.c:87-112 | bytes stored at the write position join the end of the queue, across the wrap-around |
| CBufferRing.RingDrop | qemu/cbuffer.c:123-147 | advancing the read position drops the front of the queue |
| CBufferRing.CBuffer.Write | qemu/cbuffer.c:80-114 | as many bytes as fit join the end of the queue, in order |
| CBufferRing.CBuffer.Read | qemu/cbuffer.c:116-149 | up to `len` bytes are taken off the front |
| CBufferRing.CBuffer.ReadPeek | qemu/cbuffer.c:151-164 | a piece in place that is the front of the queue; empty only if the queue is |
| CBufferRing.CBuffer.ReadStep | qemu/cbuffer.c:167-180 | drops that many bytes, at most all |
| CBufferRing.CBuffer.WritePeek | qemu/cbuffer.c:51-67 | room in place behind the queue; none only if it is full |
| CBufferRing.CBuffer.WriteStep | qemu/cbuffer.c:69-77 | the count grows, clamped to the size |
| CBufferRing.CBuffer.Produce | qemu/cbuffer.c:51-77 | peek, store and step append to the queue |
| CharPipe.BipPool.Alloc | qemu/charpipe.c:44-60 | an empty buffer from the free list or a new one |
| CharPipe.BipPool.Free | qemu/charpipe.c:62-67 | the buffer at the front of the free list |
| CharPipe.BipBuffer.Put | qemu/charpipe.c:137-137 | what fits joins the ring of the buffer |
| CharPipe.BipBuffer.Peek | qemu/charpipe.c:190-190 | the front of the ring in one piece, up to the end of the array |
| CharPipe.BipBuffer.Step | qemu/charpipe.c:197-197 | drops bytes off the ring of the buffer |
| CharPipe.CharPipeHalf.constructor | qemu/charpipe.c:202-216 | nothing waits, nothing delivered |
| CharPipe.CharPipeHalf.WriteDirect | qemu/charpipe.c:105-125 | a prefix goes straight to the peer: all of it, or what its answers grant up to the first 0 |
| CharPipe.CharPipeHalf.AddBuffer | qemu/charpipe.c:145-148 | an empty buffer at the end of the chain changes no waiting byte |
| CharPipe.CharPipeHalf.PutNext | qemu/charpipe.c:136-149 | fills the last buffer and adds one if something is left |
| CharPipe.CharPipeHalf.Append | qemu/charpipe.c:130-149 | everything is queued behind what waits |
| CharPipe.CharPipeHalf.Write | qemu/charpipe.c:94-151 | accepts its full length; delivered bytes followed by the waiting ones grow by exactly the data; nothing overtakes what waits; buffers come only from this half, the pool or the allocator |
| CharPipe.CharPipeHalf.DropFirst | qemu/charpipe.c:171-178 | an empty first buffer goes to the front of the free list, no byte is lost |
| CharPipe.CharPipeHalf.SendFirst | qemu/charpipe.c:190-197 | a piece is handed over and dropped from the ring: as much as is asked for and lies in one piece |
| CharPipe.CharPipeHalf.Poll | qemu/charpipe.c:154-199 | delivered bytes followed by the waiting ones are unchanged; without a can-read handler on this half everything is delivered; with one, no more than the answers grant up to the first 0, and, unless nothing is left, at least a byte for each of them |
| CharPipe.CharPipeHalf.Close | qemu/charpipe.c:79-91 | the free list grows by exactly the buffers of the chain, in the order they are freed |
| CharPipe.CharPipeHalf.BufferWrite | qemu/charpipe.c:292-341 | the same for a char buffer: one try on the endpoint, the rest is queued |
| CharPipe.CharPipeHalf.BufferPoll | qemu/charpipe.c:344-382 | pieces are offered until the endpoint takes less than it was offered; order and bytes are kept |
| CharPipe.CharPipeHalf.Offer | qemu/charpipe.c:370-380 | one offer, with the result of the endpoint clamped as the code does |
| CharPipe.DoOne | qemu/charpipe.c:42-199 | an operation on one half leaves the bytes and the chains of all others alone, although all share one free list |
| CharPipe.RunAll | qemu/charpipe.c:42-199 | over every run of writes and polls on any number of halves with one free list, the bytes each half has delivered followed by those waiting are the concatenation of the writes to it, and no buffer is ever in two chains or in a chain and on the free list |
| BufferedSpec.FlushKeeps | qemu/buffered_file.c:71-108 | a flush never changes the stream, whatever the backend answers, and what it leaves waiting depends only on lengths and answers |
| BufferedSpec.PutLoopKeeps | qemu/buffered_file.c:129-152 | the put loop passes on a prefix, as long as the answers and the rate limit say, leaves what waits alone, and drops the rest exactly when it is refused |
| BufferedSpec.PutExactly | qemu/buffered_file.c:110-169 | for every backend and every payload: a put appends its bytes to the stream if and only if it drops none and what it passes on commutes with what it passes by |
| BufferedSpec.PutInOrder | qemu/buffered_file.c:110-169 | a put that is not refused, and passes no byte on while the flush has left some behind, appends its bytes to the stream whatever they are |
| BufferedSpec.TickInOrder | qemu/buffered_file.c:241-261 | a tick keeps the stream whatever the backend answers |
| BufferedSpec.WillingTick | qemu/buffered_file.c:241-261 | with a backend that takes something of every offer, a tick renews the allowance and sends all that waits |
| BufferedSpec.WillingPut | qemu/buffered_file.c:110-169 | and a put sends what waited and then its own bytes until the rate limit is passed; past the limit it sends none of them |
| BufferedSpec.LosslessFifo | qemu/buffered_file.c:47-169 | while no error is recorded and every put is in order, accepted bytes followed by the buffer are all puts in order, over every run of puts, ticks and rate changes, short writes, freezes and refusals |
| BufferedExact.PutExact | qemu/buffered_file.c:110-169 | a put appends its bytes whatever they are if and only if its loop is not refused, and passes none on unless the flush has emptied the buffer: a condition on lengths and answers |
| BufferedExact.LosslessExact | qemu/buffered_file.c:47-169 | a run that records no error is a lossless queue for all bytes put if and only if each of its puts is in order |
| BufferedExact.WrongUnnoticed | qemu/buffered_file.c:82-147 | a put goes wrong without an error exactly when its loop is answered 0, even right after the flush recorded an error, or when the flush is answered 0 with bytes left and the loop then passes some on |
| BufferedExact.LosslessUnlessZero | qemu/buffered_file.c:47-169 | until the first error the file is a lossless queue if no answer met so far was 0 |
| BufferedExact.ZeroReorders | qemu/buffered_file.c:95-98 | a backend that returns 0 to a flush lets later bytes overtake the buffer, without an error |
| BufferedExact.ZeroDrops | qemu/buffered_file.c:142-147 | a backend that returns 0 to a put loses the bytes, without an error |
| BufferedExact.ZeroHidesError | qemu/savevm.c:488-491 | a 0 in the put loop overwrites the error that the flush before it recorded, and the bytes are lost |
| BufferedFile.QEMUFileBuffered.constructor | qemu/buffered_file.c:263-291 | an empty file with the limit per tenth of a second |
| BufferedFile.QEMUFileBuffered.Append | qemu/buffered_file.c:47-69 | the data is added and always fits the capacity |
| BufferedFile.QEMUFileBuffered.FlushBuffer | qemu/buffered_file.c:71-108 | the loop with its offset computes the flush |
| BufferedFile.QEMUFileBuffered.PutBuffer | qemu/buffered_file.c:110-169 | the loop computes the put; the result is the earlier error, -EINVAL exactly when bytes are dropped, or the size |
| BufferedFile.QEMUFileBuffered.RateLimit | qemu/buffered_file.c:200-216 | error, stop or go on |
| BufferedFile.QEMUFileBuffered.RateTick | qemu/buffered_file.c:241-261 | a new allowance and a flush unless frozen |
| BufferedFile.QEMUFileBuffered.Close | qemu/buffered_file.c:171-192 | for every backend: without an error everything buffered has been accepted, in order |
| BufferedFile.RunAndClose | qemu/buffered_file.c:47-192 | a run and then the close, for every backend: without an error the backend has the stream of the run, which is all puts in order if each of them was in order |

## Left out

- RamSaver.Saver.RamSaveLive: bandwidth, expected time and the downtime decision are a boolean parameter.
- RamLoader.Loader.RamLoad: on a failure the static block is not stated, only the RAM; madvise is not modelled; the page size is fixed at 4096 bytes.
- BlkMigSaver.Saver.BlockSaveLive: an enabled migration without `shared_base` and without read errors; stage 3 needs no reads submitted, which the source asserts, and the bulk phase over, of which its comment says that it is known for sure; the error of the file is the one the rate limiter reports; the downtime decision is a parameter; of `blk_mig_cleanup` only the freeing of the queue is modelled.
- BlkMigSaver.Saver.SaveDeviceBulk: bitmaps are boolean sequences here; the word code is proved equal to them in `DirtyBitmap`.
- BlkMigration.Migrate: same-device reads complete in submission order, since bulk reads are not marked in the in-flight bitmap.
- DirtyBitmap.BlockDriverState.constructor: tracking is on for the life of the object; switching it off is not modelled.
- DirtyBitmap.BlockDriverState.Writev: the device has at least one sector; a write of no sectors to an empty one would count a chunk that does not exist.
- MultiwriteSpec.LosslessPreserved: gap filling through `bdrv_merge_requests` is left out, since what a gap may hold is driver knowledge; each vector must hold exactly its sectors.
- Multiwrite.SortRequests: any sort will do; the C library's `qsort` itself is not modelled.
- Commit.Image.CommitAll: the medium, backing and read-only checks and the reopening of the backing file before and after the loop are not modelled.
- ByteAccess.Device.Write: dirty tracking and growable files are not modelled here.
- AesCbcMode.CbcDecrypt: nothing is stated about the vector after a partial tail; input and output are the same range or different buffers.
- BottomHalf.BhContext.PollBhs: the wake-up of the running CPU is not modelled; a callback reaches bottom halves that are linked, not freed ones.
- CharPipe.CharPipeHalf.Poll: with a can-read handler the exact number of bytes depends on where each ring wraps around, which `SendFirst` states for one piece.
- CharPipe.CharPipeHalf.Write: the peer does not write to the same half while it is being written to; running out of memory is not modelled.
- BufferedSpec.LosslessFifo: the put-ready notification is not modelled.
- BufferedFile.QEMUFileBuffered.Close: the backend's own close, the timer and freeing are not modelled.
- Opening, probing, snapshotting and reopening images, driver registration, monitor commands, the coroutine back ends, `aio.c`, the unrolled AES rounds, `slow_bitmap_*`, KVM dirty logging and everything outside the files cited above are not part of this model.
