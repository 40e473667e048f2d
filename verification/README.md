# Model of the stateful code of a Qualcomm IPQ boot loader

The project models the parts of the boot loader that keep state, and proves what
they are for. Devices (flash arrays, memory, the DMA engine, the SPI wire, secondary
cores) are abstract classes that may fail or interleave at will; the drivers are
methods that follow the C code branch by branch, proved against functions and
predicates that say what the code is supposed to achieve.

- **Crash dump stream writers** (`EmmcWriter`; `NandFlash`, `NandPlan`, `NandCut`,
  `NandRoute`, `NandHeld`, `NandWriter`): chunks of any size are collected into blocks or pages and
  padded with 0xFF. On eMMC a successful session leaves exactly that stream, however it is
  cut into chunks, and nothing else changes. On NAND the writer skips bad blocks, erases
  each block it enters and never leaves its partition; what it leaves for any bad blocks,
  prior contents and chunks is a pure plan, and the stream reads back if and only if the
  plan says so. Unless the device fails, sessions succeed exactly if there is room.
- **Dump container** (`DumpContainer`, `MemDump`, `DumpStream`, `NvmemDump`, `NandSite`,
  `NandDump`, `NandClean`, `NandLoss`): header, dumps and index list read back as the dump table, with
  every dump in a region of its own before the list. The commit point: in every state of
  a run the target has no header or a complete container. It holds for every run into
  memory that stays below 4 GiB and for every run into an eMMC partition. For a run into
  a NAND partition that succeeds it holds if and only if a condition on chunk lengths and
  bad blocks holds, which can be checked before the run; otherwise the run leaves a
  header and no container. A run that does not succeed leaves no header; on NAND that is
  said of runs in which the chip does not fail.
- **NOR block write** (`NorBlk`): read, modify, erase, write over large sectors is one
  array splice.
- **BAM descriptor ring** (`BamRing`): write pointer and event register agree for ever;
  the engine consumes what was produced, in order; and the life cycle of a channel.
- **SPI FIFO transfer** (`GeniSpi`): packing and unpacking over any number of polls.
- **CRC** (`BitFold`, `CrcTable`, `Crc32`): the table-driven loop is bit-serial division
  by the generator of clause 3.2.9 of IEEE 802.3, most significant bit first, from zero.
- **Two-bank upgrade** (`BootConfig`), **partition read** (`PartitionRead`),
  **multi-core command** (`MultiCore`), **mtdparts string** (`MtdParts`),
  **dump splitting** (`SplitDump`), **crash record walk** (`TlvWalk`).

`Common`, `Bytes`, `Bits`, `Positions` and `FlashCells` hold what these share.

Where the code does not do what its callers might expect, the model keeps the code and
the theorems say exactly when it does:

- The NAND writer writes the last piece of a call whole. A piece runs over its block end
  exactly if it starts inside a block, is at most a block long and does not fit (`Fits`).
  Its overhang is programmed over the next block without an erase, and lost if that block
  is bad: on an erased partition a stream reads back if and only if every such overhang
  lands in a good block, and otherwise a reader gets at least a page less, so that the
  last record of the list ends in erased cells. Two dumps of 100 KiB with one bad block are lost in this way by a
  run that reports success (`LosesData`).
- A NAND partition without bad blocks must be larger than the header block and the padded
  stream; one that they fill exactly is refused.
- The memory dump adds the total to the end address, so it refuses dumps that would fit:
  a table below 4 GiB succeeds exactly if the dumps counted twice and the list fit.
  The recorded total, in 32 bits, is where the list ends exactly if that is before 4 GiB.
  From there on the check may pass although the list does not end in the region; it is
  then copied to the memory behind it.
- The flash dump writes its index list before it checks the size. Once the list is
  flushed, the first block behind the partition holds a part of it if and only if dumps
  and list do not fit.
- The NOR writer uses its scratch buffer although the guard on the allocation was false,
  exactly when the range starts at a sector and has a whole number of sectors.
- A descriptor batch as long as the ring is accepted, written and never announced. A
  descriptor beyond the ring size replaces the next one that the engine would read, and
  a batch that fills the ring together with what was unread is not seen by the engine.
- A DMA channel has its write pointer in the wrong ring exactly if a request succeeded
  while it was enabled and it has not been disabled since. A ring size of zero is accepted.
- An SPI error that is seen in the same poll as a clean completion is lost, and a
  transfer that has used up its polls returns success: the counter has wrapped around
  when it is compared with zero.
- After a send with flags that are refused the ring holds one descriptor less than is
  announced.
- The loader, unlike the tool, wants the crc to be non-zero. For every record there is a
  value of its last field that makes the crc zero, and a clean state from which the loader
  comes to select a half-written bank.
- The crash record walk copies record data to 512 bytes on the stack; it runs over them
  exactly if it comes to a longer record of a kind that it copies.
- A partition read of at most one block is right only if it ends strictly inside its
  first block or is whole blocks from the start; otherwise it returns the beginning of
  the next block. A read that is not whole blocks from the start also reads the block
  of the byte behind its end, so that a range on the disk is refused exactly if it ends
  with the last block and is not whole blocks from the start. Only negative counts are taken for
  failures: a short read that comes back empty delivers what was in the block buffer.
- The wait for secondary cores to power down ends well exactly if one of its first five
  rounds leaves no core; it panics in its sixth round even if all of them are off by then.
- A NOR partition after a NAND one is printed under the NAND device.
- More than 256 pieces of a split dump repeat names.

## Model

| member | source | states |
|---|---|---|
| EmmcWriter.Mmc.BlockWrite | arch/arm/mach-ipq/cmd_crashdump.c:2145-2186 | a multi-block write completes any prefix of its blocks and each completed block is a state in which power may fail |
| EmmcWriter.EmmcWriter.Init | arch/arm/mach-ipq/cmd_crashdump.c:2043-2056 | a session starts at a block with an empty stream and its own buffer |
| EmmcWriter.EmmcWriter.WriteData | arch/arm/mach-ipq/cmd_crashdump.c:2110-2197 | the stream grows by the chunk; on success the complete blocks of the stream are on the disk and the carry, shorter than a block, is in the buffer; success or not, nothing outside the blocks that the stream needs has changed in any state |
| EmmcWriter.EmmcWriter.Spill | arch/arm/mach-ipq/cmd_crashdump.c:2135-2161 | filling up the carry block and writing it keeps the stream in place |
| EmmcWriter.EmmcWriter.PutRest | arch/arm/mach-ipq/cmd_crashdump.c:2162-2196 | whole blocks go out in one write, the rest becomes the carry |
| EmmcWriter.EmmcWriter.Deinit | arch/arm/mach-ipq/cmd_crashdump.c:2062-2104 | on success the disk is the old disk with exactly ceil(n/blocksize) blocks replaced by the stream padded with 0xFF; on failure this call changed nothing; at most one new state |
| EmmcWriter.StoreAll | arch/arm/mach-ipq/cmd_crashdump.c:2043-2197 | for every cutting of data into chunks the outcome depends only on their concatenation, and in every state the disk differs from the old one only inside its blocks; unless the device fails the session succeeds exactly if the blocks are on the disk |
| EmmcWriter.StoredReadsBack | arch/arm/mach-ipq/cmd_crashdump.c:2062-2104 | reading the blocks back gives the data and then only 0xFF |
| NandFlash.NandFlash.Erase | arch/arm/mach-ipq/cmd_crashdump.c:1802-1809 | an erase of a block start sets a good block to 0xFF unless the chip fails, and touches no other block; every state is recorded with the operation that led to it |
| NandFlash.NandFlash.Write | arch/arm/mach-ipq/cmd_crashdump.c:1811-1832 | a program can only clear bits and may run over a block end; it fails only if the chip does, or for an illegal range |
| NandWriter.NandWriter.SkipBad | arch/arm/mach-ipq/cmd_crashdump.c:1781-1794 | the offset moves to the first good block, to the partition end at most, and what was written still reads back as before |
| NandWriter.NandWriter.EnterBlock | arch/arm/mach-ipq/cmd_crashdump.c:1780-1809 | a block is erased when it is entered; unless the chip fails this fails exactly if the rest does not end strictly inside the partition |
| NandWriter.NandWriter.Piece | arch/arm/mach-ipq/cmd_crashdump.c:1811-1832 | the position after a piece, and that everything reads back exactly if it did before and the cells take the piece |
| NandWriter.NandWriter.Round | arch/arm/mach-ipq/cmd_crashdump.c:1780-1833 | each pass strictly reduces what remains and follows the plan of the call |
| NandWriter.NandWriter.CheckAndWrite | arch/arm/mach-ipq/cmd_crashdump.c:1758-1835 | with any bad-block map, prior contents and failures: unless the chip fails the call succeeds exactly if the plan finds room; then it is at the position of the plan, and the good blocks hold the old stream and the data exactly if the plan says so; all operations stay in the partition |
| NandPlan.PieceDone | arch/arm/mach-ipq/cmd_crashdump.c:1811-1832 | what the good blocks hold after a piece reads back exactly if it did before and the cells take the piece: erased cells take anything, others what needs no bit set; what runs over goes to the next block without an erase |
| NandPlan.LostHolds | arch/arm/mach-ipq/cmd_crashdump.c:1825-1832 | data for a bad block is lost |
| NandPlan.ProgramStores | arch/arm/mach-ipq/cmd_crashdump.c:1825-1832 | programming stores the data exactly if no bit has to be set |
| NandPlan.PieceSince | arch/arm/mach-ipq/cmd_crashdump.c:1758-1835 | a piece keeps the session in the partition and, while nothing ran over a block end, in erased cells of good blocks |
| NandWriter.NandWriter.WriteData | arch/arm/mach-ipq/cmd_crashdump.c:1924-1999 | the calls and the page buffer are those of the stream with the chunk added; unless the chip fails it succeeds exactly if the calls find room |
| NandWriter.NandWriter.Deinit | arch/arm/mach-ipq/cmd_crashdump.c:1883-1920 | the rest is padded with 0xFF to a page and written |
| NandWriter.StoreAll | arch/arm/mach-ipq/cmd_crashdump.c:1758-1999 | for every bad-block map, prior contents and sequence of chunks: erases and programs stay in the partition, and if no piece runs over a block end only erased cells of good blocks are programmed; unless the chip fails the session succeeds exactly if there is room; then the good blocks read as the concatenated chunks padded with 0xFF if and only if the plan says so |
| NandCut.FlushJoins | arch/arm/mach-ipq/cmd_crashdump.c:1924-1999 | however a stream is cut into chunks, the calls write it padded with 0xFF to whole pages |
| NandRoute.CallFits | arch/arm/mach-ipq/cmd_crashdump.c:1811-1830 | a call runs over a block end exactly if it starts inside a block, is at most a block long and does not fit |
| NandRoute.CallLensOf | arch/arm/mach-ipq/cmd_crashdump.c:1938-1996 | the lengths of the calls depend only on the lengths of the chunks |
| NandRoute.RouteTells | arch/arm/mach-ipq/cmd_crashdump.c:1758-1999 | chunk lengths and bad blocks decide before a session whether there is room, where it ends and what runs over; on an erased partition it reads back if and only if everything that runs over lands in a good block |
| DumpContainer.HeaderReads | arch/arm/mach-ipq/cmd_crashdump.c:67-74 | a stored header shows the magic numbers and reads back its count, total and list offset |
| DumpContainer.WipedHasNoMagic | arch/arm/mach-ipq/cmd_crashdump.c:1425-1427 | a first byte of 0xFF is no magic |
| DumpContainer.EntryReads | arch/arm/mach-ipq/cmd_crashdump.c:61-65 | a stored record reads back its name, offset and size, the integers aligned behind the name field, whatever the rest of that field holds |
| DumpContainer.EntryPut | arch/arm/mach-ipq/cmd_crashdump.c:2464-2469 | filling in a record leaves the earlier records alone |
| DumpContainer.CollectedNext | arch/arm/mach-ipq/cmd_crashdump.c:2462-2488 | taking one more dump keeps all earlier dumps and records in place |
| DumpContainer.RegionsApart | arch/arm/mach-ipq/cmd_crashdump.c:2462-2488 | the regions that a reader finds are in bounds, aligned and pairwise disjoint |
| DumpContainer.SlotIsProduct | arch/arm/mach-ipq/cmd_crashdump.c:2739-2741 | record n starts at n times the record size |
| DumpContainer.ContainerReads | arch/arm/mach-ipq/cmd_crashdump.c:2721-2749 | with header, list and dumps in place a reader gets the same names and bytes in the same order from regions that lie apart before the list, and the recorded total is where the list ends |
| DumpContainer.TotalRight | arch/arm/mach-ipq/cmd_crashdump.c:67-74 | a header whose total was cut to 32 bits records the end of the list exactly if that is before 4 GiB |
| DumpContainer.ErasedRecord | arch/arm/mach-ipq/cmd_crashdump.c:61-65 | a list whose last byte is an erased cell, or is not there, names a dump that is not there |
| MemDump.MemDump.Begin | arch/arm/mach-ipq/cmd_crashdump.c:1424-1440 | the header is filled with 0xFF and nothing else changes; after the wipe, and in every state of it, there is no header |
| MemDump.MemDump.DumpOne | arch/arm/mach-ipq/cmd_crashdump.c:2461-2489 | a dump is taken exactly if its aligned end is inside the region; otherwise memory is unchanged |
| MemDump.MemDump.Finish | arch/arm/mach-ipq/cmd_crashdump.c:2721-2749 | the header is stored exactly if the size check passes, after the list, and below 4 GiB the region then reads back as the dumps; in no state before is there a header |
| MemDump.Run | arch/arm/mach-ipq/cmd_crashdump.c:2654-2749 | commit point over a whole run: it succeeds exactly if the end of the dumps and the size of dumps and list, in 32 bits, together stay within the limit, and exactly then there is a header; no state but the last shows one; if it fails or stays below 4 GiB, every state has no container or all of it with disjoint, aligned regions, and nothing beyond the region changes; whatever the size, after a success header and list are where they belong, nothing behind region and list has changed, and the list leads to every dump |
| MemDump.CompletesMeans | arch/arm/mach-ipq/cmd_crashdump.c:2727-2735 | the size check in numbers: twice the end of the dumps less the start of the region, and the records, less whole multiples of 4 GiB, stay within the limit |
| MemDump.NextIsLeast | arch/arm/mach-ipq/cmd_crashdump.c:2485-2488 | each dump starts at the first aligned address behind the header or the dump before it |
| MemDump.StoredTotal | arch/arm/mach-ipq/cmd_crashdump.c:2727-2748 | the header of a run that succeeded leads to the list, and its total is where the list ends exactly if that is before 4 GiB |
| MemDump.ListPastLimit | arch/arm/mach-ipq/cmd_crashdump.c:2727-2741 | there is a table that passes the check and whose list does not end in the region |
| MemDump.TooFar | arch/arm/mach-ipq/cmd_crashdump.c:2471-2476 | one dump that does not fit decides that the table does not complete |
| MemDump.CheckIsStrict | arch/arm/mach-ipq/cmd_crashdump.c:2727-2735 | there is a table that would fit and is refused |
| MemDump.WideCompletes | arch/arm/mach-ipq/cmd_crashdump.c:2727-2735 | there is a table of more than 4 GiB that passes the check |
| NvmemDump.NvmemDump.DumpOne | arch/arm/mach-ipq/cmd_crashdump.c:2491-2521 | a dump that ends inside the partition is appended to the stream with its record; the first block stays as it was; it fails only if the check does, the device does or there is no room |
| NvmemDump.NvmemDump.FinishStream | arch/arm/mach-ipq/cmd_crashdump.c:2757-2770 | the list follows the dumps and everything is flushed behind the first block |
| NvmemDump.NvmemDump.Commit | arch/arm/mach-ipq/cmd_crashdump.c:2772-2801 | the header is written only after the size check, as one block write |
| NvmemDump.Run | arch/arm/mach-ipq/cmd_crashdump.c:2654-2802 | commit point over a whole run on an erased eMMC partition with failing writes: the header is there exactly if the run committed, then all of it lies inside the partition and reads back as the table; every state has no container or all of it; only the blocks that the dump needs changed; unless the device fails the run commits exactly if dumps and list fit, and flushes exactly if the dumps fit and the disk has the blocks |
| NvmemDump.DiskCommits | arch/arm/mach-ipq/cmd_crashdump.c:2752-2802 | stream behind the first block and header in it are a container that reads back |
| NvmemDump.FirstBlockKept | arch/arm/mach-ipq/cmd_crashdump.c:1442-1469 | while only later blocks are written no state shows a header |
| NvmemDump.BehindPartition | arch/arm/mach-ipq/cmd_crashdump.c:2757-2783 | once dumps and list are flushed, the first block behind the partition holds a part of them if and only if they do not fit |
| NvmemDump.ListOverruns | arch/arm/mach-ipq/cmd_crashdump.c:2757-2783 | there is a table whose dumps fit and whose list is written over that block |
| NandSite.Locate | arch/arm/mach-ipq/cmd_crashdump.c:1216-1249 | the first good block of the partition, and the number of bytes that a reader of its good blocks gets; it fails exactly if there is no good block |
| NandSite.DumpToPartition | arch/arm/mach-ipq/cmd_crashdump.c:1190-1249 | from partition to dump: without a good block nothing is written; otherwise the outcome is that of the run at the site that was found, checked against the number of good bytes |
| NandHeld.PlanLags | arch/arm/mach-ipq/cmd_crashdump.c:1758-1999 | of a session on an erased partition a reader gets all of it if everything that ran over landed in a good block, and otherwise at least a page less |
| NandHeld.BlankBehind | arch/arm/mach-ipq/cmd_crashdump.c:1758-1835 | behind the position of a session on an erased partition a reader finds erased cells only |
| NandDump.NandDump.DumpOne | arch/arm/mach-ipq/cmd_crashdump.c:2491-2521 | a dump that passes its check becomes the next chunk of the session and the next record; it fails only if the chip does, the check fails or there is no room |
| NandDump.NandDump.FinishStream | arch/arm/mach-ipq/cmd_crashdump.c:2757-2770 | the list is the last chunk; unless the chip fails the flush succeeds exactly if the plan finds room |
| NandDump.StreamStates | arch/arm/mach-ipq/cmd_crashdump.c:2757-2770 | in no state of the session of dumps and list is there a header |
| NandDump.HeaderTouchesFirst | arch/arm/mach-ipq/cmd_crashdump.c:2785-2801 | in every state of the header session only the first good block has changed |
| NandDump.HeaderStates | arch/arm/mach-ipq/cmd_crashdump.c:2785-2801 | of the header session no state but the last shows a header, and that has no header or the whole header page |
| NandDump.HeaderSound | arch/arm/mach-ipq/cmd_crashdump.c:2785-2801 | the header page makes a stream that reads back a container |
| NandDump.HeaderSpoilt | arch/arm/mach-ipq/cmd_crashdump.c:2785-2801 | the header page makes a stream that is short no container |
| NandDump.Run | arch/arm/mach-ipq/cmd_crashdump.c:2654-2802 | a whole run on an erased NAND partition with any bad blocks and failing operations: unless the chip fails it succeeds exactly if Completes holds; after a success a reader gets the table if and only if everything that ran over a block end landed in a good block, and otherwise finds a header and no container; if it did, every state on the way has no container or all of it; no state but the last shows a header, and a run that failed although the chip did not leaves none; only blocks from the first good one to the partition end ever change |
| NandClean.CleanRun | arch/arm/mach-ipq/cmd_crashdump.c:2654-2802 | on an erased partition without bad blocks behind the first good one a run loses nothing, and what decides its success is that a block and the stream, padded to whole pages, are less than the partition; with an empty table, that a page is |
| NandClean.CleanSession | arch/arm/mach-ipq/cmd_crashdump.c:1758-1835 | without bad blocks a session finds room exactly if it ends before the last byte of the partition |
| NandLoss.SomeChip | arch/arm/mach-ipq/cmd_crashdump.c:1216-1249 | there is an erased partition of five blocks, the third one bad, with the first block and the size that the search finds |
| NandLoss.TableFate | arch/arm/mach-ipq/cmd_crashdump.c:1811-1830 | with two dumps of 100 KiB and the third block bad all checks pass and data is lost |
| NandLoss.LosesData | arch/arm/mach-ipq/cmd_crashdump.c:2654-2802 | that run succeeds whatever the dumps contain, and leaves a header and no readable container |
| SplitDump.SplitBinDump | arch/arm/mach-ipq/cmd_crashdump.c:1550-1578 | the entries added are the pieces of the region, as many as adding succeeds for |
| SplitDump.PiecesTile | arch/arm/mach-ipq/cmd_crashdump.c:1556-1576 | pieces descend without gap or overlap from the end to the start of the region, all but the last of the split size and none empty or longer, with numbers descending to the given one modulo 256 |
| SplitDump.PiecesRestore | arch/arm/mach-ipq/cmd_crashdump.c:1550-1578 | the pieces put together are the region |
| SplitDump.NumbersDistinct | arch/arm/mach-ipq/cmd_crashdump.c:1558-1564 | the names are distinct if and only if there are at most 256 pieces |
| TlvWalk.Cursor.ExtractInfo | arch/arm/mach-ipq/cmd_crashdump.c:739-750 | a header is read exactly if it lies strictly inside the buffer |
| TlvWalk.Cursor.ExtractData | arch/arm/mach-ipq/cmd_crashdump.c:759-774 | data is copied exactly if it ends strictly inside, the cursor moves past the record, and the copy runs over the buffer exactly if the record is longer |
| TlvWalk.ListedHead | arch/arm/mach-ipq/cmd_crashdump.c:739-774 | on a well-formed list the strict bounds accept every record, and what is read is the next record |
| TlvWalk.InfoReads | arch/arm/mach-ipq/cmd_crashdump.c:885-931 | a record of start, size and crash type gives an entry with exactly these, its size taken from memory for two kinds, and is wanted by kind and crash mask |
| TlvWalk.OverrunsIs | arch/arm/mach-ipq/cmd_crashdump.c:865-872 | when the module walk overruns: some record of kind 4 to 8 has more than 512 bytes, and the wanted records before it do not exceed the room |
| TlvWalk.ModuleStep | arch/arm/mach-ipq/cmd_crashdump.c:870-936 | one record of the module walk: the cursor moves past it, the entry, if any, is the one that the record asks for, and the 512-byte buffer is overrun exactly by a longer record of a kind that is copied |
| TlvWalk.WalkModules | arch/arm/mach-ipq/cmd_crashdump.c:865-988 | the walk overruns its buffer if and only if it comes to a record longer than 512 bytes of a kind that it copies before adding fails; otherwise it tries to add exactly the wanted records in order until adding fails, or ends with -EINVAL at the INVALID record; on any buffer it ends and reads only inside |
| TlvWalk.WalkOne | arch/arm/mach-ipq/cmd_crashdump.c:937-988 | the walk for one type: what the first match names for its type, -EINVAL if there is none, and an overrun if and only if that record is longer than 512 bytes |
| TlvWalk.SourceReads | arch/arm/mach-ipq/cmd_crashdump.c:941-971 | a record of start and size: for the kernel log the size is read from memory, for a page table it is the number itself; the system name is the data of its record |
| TlvWalk.FirstIs | arch/arm/mach-ipq/cmd_crashdump.c:937-987 | the match is the first record of its type |
| NorBlk.NextPart | drivers/misc/qti_nor_blk.c:96-114 | the part of the range that one pass handles: inside one sector, up to its end or the end of the range, without a backup exactly for a whole sector with more to follow |
| NorBlk.UpdateSector | drivers/misc/qti_nor_blk.c:116-131 | read, patch, erase and write replace exactly the chunk and keep the rest of the sector |
| NorBlk.WriteLoop | drivers/misc/qti_nor_blk.c:92-143 | the loop ends; with nothing left the flash is the old flash spliced with the source; other sectors are never touched |
| NorBlk.Bwrite | drivers/misc/qti_nor_blk.c:60-144 | when the block count is returned the flash equals the old flash with exactly the range replaced; unless the device fails it is returned if the sectors are there; every erase is one aligned sector and every program goes to erased cells; the scratch buffer is used without allocation if and only if the range is aligned whole sectors |
| NorBlk.Bread | drivers/misc/qti_nor_blk.c:36-58 | a read returns the range, and fails only if the device does or the range is not there |
| NorBlk.WriteThenRead | drivers/misc/qti_nor_blk.c:36-144 | a write followed by a read: the same range gives what was written, a range beside it what was there before |
| Bits.Ispow2Accepts | drivers/dma/bam_dma.c:140-143 | the unsigned test accepts exactly zero and the powers of two |
| Bits.AndMask | drivers/dma/bam_dma.c:258-260 | masking with a power of two less one is the remainder |
| BamRing.SplitTiles | drivers/dma/bam.c:346-367 | the descriptors of a buffer are adjacent, not empty, within the length limit, cover it exactly, and only the last carries the flags |
| BamRing.BamPipe.constructor | drivers/dma/bam.c:155-222 | a fresh pipe has both counters at zero and nothing produced |
| BamRing.BamPipe.EngineStep | drivers/dma/bam.c:249-276 | the engine reads the next descriptor unless it has reached the event register; what it has read stays a prefix of what was produced |
| BamRing.BamPipe.AddOne | drivers/dma/bam.c:386-446 | a descriptor is written exactly if its arguments are legal and its flags have neither both bits of 0x06 nor both of 0x48; it overwrites nothing unread while fewer than the ring size are unread, and otherwise replaces the next that the engine would read |
| BamRing.FlagsRefused | drivers/dma/bam.c:410-422 | flags are refused exactly for both lock bits, 2 and 4, or for both 8 and 0x40 |
| BamRing.FewerFlags | drivers/dma/bam.c:410-422 | a single flag is accepted, and so are fewer flags than accepted ones |
| BamRing.BamPipe.GenEvent | drivers/dma/bam.c:249-276 | a batch shorter than the ring becomes readable while the ring is not full; if it fills the ring the engine sees nothing; one as long as the ring is refused |
| BamRing.BamPipe.AddAll | drivers/dma/bam.c:346-367 | the splitting loop produces exactly the descriptors of the buffer while the engine runs; a refused descriptor is counted all the same |
| BamRing.BamPipe.AddDesc | drivers/dma/bam.c:321-376 | with at most size-1 outstanding, what the engine has consumed and has still to consume grows by exactly the descriptors of the buffer; a batch as long as the ring succeeds and is lost |
| BamRing.BamPipe.IndexAgreement | drivers/dma/bam.c:155-446 | after any sequence of calls 8 times the write index is the event register plus 8 times what was added and not announced, modulo 8 times the size |
| BamRing.BamPipe.Drain | drivers/dma/bam_dma.c:167-211 | the engine catches up with the event register, whatever was asked for; if nothing written was left to announce it has then consumed exactly what was produced |
| BamRing.DmaChannel.Request | drivers/dma/bam_dma.c:356-377 | a request fails on a channel in use, and otherwise brings a new ring |
| BamRing.DmaChannel.Enable | drivers/dma/bam_dma.c:397-497 | enabling succeeds exactly on a requested, disabled channel with a ring size of zero or a power of two of at most 32767, and yields an empty ring |
| BamRing.DmaChannel.Disable | drivers/dma/bam_dma.c:499-517 | disabling succeeds exactly on a requested, enabled channel |
| BamRing.DmaChannel.Free | drivers/dma/bam_dma.c:379-395 | freeing succeeds exactly on a requested channel |
| BamRing.CallAnswers | drivers/dma/bam_dma.c:356-517 | the result of every call, from the calls before it: in use means requested and not freed since, enabled means enabled by a holder and not disabled by one since |
| BamRing.TornIsIncoherent | drivers/dma/bam_dma.c:356-517 | after any sequence of requests, frees, enables and disables the write pointer is in the wrong ring if and only if a request succeeded while the channel was enabled and it has not been disabled since |
| BamRing.DmaChannel.Send | drivers/dma/bam_dma.c:519-596 | the return code for every channel number, state, argument and flags; on a coherent channel the counts of what was added and announced, one less added if the flags are refused; with legal flags and room the stream grows by exactly the descriptors of the buffer, all consumed if the wait ended with the engine caught up; a buffer of as many as the ring has is accepted and not sent |
| GeniSpi.PackUnpack | drivers/spi/spi-geni-qcom.c:457-467 | bytes packed into words unpack to the same bytes |
| GeniSpi.Transfer.PackWord | drivers/spi/spi-geni-qcom.c:459-466 | up to four bytes in a word, the rest zero |
| GeniSpi.Transfer.HandleTx | drivers/spi/spi-geni-qcom.c:442-476 | the words written so far are those of the bytes sent so far, a call sends as much as surely has room, and the FIFO never overflows |
| GeniSpi.Transfer.ReadWords | drivers/spi/spi-geni-qcom.c:509-521 | n bytes of the FIFO words go to the buffer and nothing else in it changes |
| GeniSpi.Transfer.HandleRx | drivers/spi/spi-geni-qcom.c:478-522 | the available bytes, but no more than wanted, are appended to what was received; without a buffer every word is drained |
| GeniSpi.Transfer.LoopStep | drivers/spi/spi-geni-qcom.c:490-521 | over a looped wire the next bytes received are the next bytes to be sent |
| GeniSpi.GotMore | drivers/spi/spi-geni-qcom.c:490-521 | what has been received is what counts of the words read, in order, up to what was wanted |
| GeniSpi.Transfer.Isr | drivers/spi/spi-geni-qcom.c:524-585 | a poll that finds the receive FIFO ready takes exactly what is in it, as far as wanted, and without a buffer drains it; one that finds room sends exactly what surely has room; otherwise both stay; done is complete if and only if both remainders are zero, and overrides an error of the same poll |
| GeniSpi.Transfer.Run | drivers/spi/spi-geni-qcom.c:737-810 | for any number of polls and any device behaviour: what is left to send and to receive follows from what the polls saw; the first poll with an error or a completion ends the transfer, with an error exactly if a completion came while something was left or an error came without one, and without either all polls are used; the return code tells an error only; a clean completion means that the words written carry the whole transmit buffer, that the receive buffer has the bytes that counted of the words read, in order, and over a looped wire that the buffers are equal |
| GeniSpi.RxLeftIs | drivers/spi/spi-geni-qcom.c:478-522 | everything wanted has come exactly if the polls that found the FIFO ready saw as many bytes |
| GeniSpi.TxLeftIs | drivers/spi/spi-geni-qcom.c:442-476 | what is left to send after any number of calls |
| CrcTable.TableIsShift8 | arch/arm/mach-ipq/common.c:76-141 | every table entry is eight shift steps of its index |
| Crc32.ByteStep | arch/arm/mach-ipq/common.c:75-75 | one table lookup is eight bit-serial steps |
| Crc32.CrcBe | arch/arm/mach-ipq/common.c:155-166 | the loop computes the bit-serial remainder of every message |
| Crc32.CrcLoop | tools/sysupgrade.c:1996-2006 | the same for the tool's copy with any table of the stated entries |
| Crc32.ByteStepBijection | arch/arm/mach-ipq/common.c:75-75 | a byte step is a bijection on the register |
| Crc32.CrcXor | arch/arm/mach-ipq/common.c:155-166 | the CRC is linear over exclusive or on messages of equal length |
| Crc32.CrcDetectsBurst | arch/arm/mach-ipq/common.c:155-166 | any change confined to 32 consecutive bits changes the CRC |
| Crc32.WordDetected | arch/arm/mach-ipq/common.c:155-166 | messages that differ in at most four consecutive bytes have different codes |
| Crc32.BurstDetected | arch/arm/mach-ipq/common.c:155-166 | the same for bit strings of any length |
| Crc32.UndoFromZero | arch/arm/mach-ipq/common.c:155-166 | at most 32 bits lead to a zero register from zero only if they are all zero |
| BitFold.FoldLinear | arch/arm/mach-ipq/common.c:155-166 | linear steps make a linear fold |
| BitFold.FoldBijection | arch/arm/mach-ipq/common.c:155-166 | invertible steps make every string a bijection on the register |
| BootConfig.BootFile.InvalidateBootconfig | tools/sysupgrade.c:2047-2103 | a record whose crc does not match is refused and kept; what is written passes the next check |
| BootConfig.CrcProtects | tools/sysupgrade.c:2064-2072 | a valid record changed in exactly one field before the crc, whichever it is, is accepted neither by the tool nor by the loader |
| BootConfig.SumOfFile | tools/sysupgrade.c:2064-2065 | the crc of a record is the code of the first 24 bytes of its file |
| BootConfig.ToolWrites | tools/sysupgrade.c:1973-2091 | every field of what the tool writes for a valid record, for every argument |
| BootConfig.SelectedIs | arch/arm/mach-ipq/common.c:1045-1095 | the bank that the loader chooses for every record and mode |
| BootConfig.MarkedIsAvoided | arch/arm/mach-ipq/common.c:1071-1090 | outside of try mode the loader stays off a bank that a valid record marks |
| BootConfig.SelectedIsComplete | arch/arm/mach-ipq/common.c:1045-1095 | in every state of every run the loader stays off the incomplete bank, except exactly when the crc is zero, bank B is active and A is incomplete |
| BootConfig.DirtyBankSelected | arch/arm/mach-ipq/common.c:1045-1095 | whatever the other fields are, there is a clean state with bank B active from which begin and a first write lead to that exception |
| BootConfig.TornRecord | arch/arm/mach-ipq/common.c:1045-1062 | a record that the loader refuses is harmful exactly if bank A is incomplete, which needs B active |
| BootConfig.RunKeepsInv | tools/sysupgrade.c:1977-2103 | every run from a clean state keeps the record valid and the active bank complete |
| BootConfig.BeginTwice | tools/sysupgrade.c:2073-2086 | beginning again changes nothing |
| BootConfig.FlipsOnce | tools/sysupgrade.c:1977-2103 | begin and commit flip the bank; a second commit does not |
| BootConfig.OnlyCommitsFlip | tools/sysupgrade.c:1977-2103 | after any run the bank has flipped once for each commit that took effect |
| BootConfig.ZeroSumExists | arch/arm/mach-ipq/common.c:204-238 | for every record some value of the last field makes a record that the tool accepts and the loader refuses |
| BootConfig.OwnCodeClears | arch/arm/mach-ipq/common.c:155-166 | a message followed by its own code has code zero |
| PartitionRead.ReadLarge | arch/arm/mach-ipq/common.c:1635-1668 | a read of more than one block delivers the range for any offset; unless a read fails or comes short it succeeds exactly if the block of its end is there |
| PartitionRead.ReadSmall | arch/arm/mach-ipq/common.c:1649-1668 | a read of at most one block delivers the range if it ends strictly inside, else the beginning of the next block; a read that comes short delivers the stale buffer and succeeds |
| PartitionRead.GetPartitionData | arch/arm/mach-ipq/common.c:1606-1676 | unless a block read fails or comes short the call succeeds exactly if the blocks it reads are there; then it delivers the range asked for when Handled holds, and otherwise the beginning of the block after the first |
| PartitionRead.RefusedAtTheEnd | arch/arm/mach-ipq/common.c:1606-1668 | of the ranges on the disk exactly those are refused that end with its last block and are not whole blocks from the start |
| PartitionRead.RefusedExample | arch/arm/mach-ipq/common.c:1606-1668 | there is a range on a disk that would be delivered right and is refused |
| PartitionRead.NotHandled | arch/arm/mach-ipq/common.c:1606-1668 | whenever Handled fails there is a disk on which the result is wrong |
| MultiCore.StepsRunOn | arch/arm/mach-ipq/cmd_ipq.c:1675-1682 | a core's flag means that its result is there for good, however far it runs on |
| MultiCore.Machine.Others | arch/arm/mach-ipq/cmd_ipq.c:1675-1682 | any interleaving of the other cores keeps the protocol invariant |
| MultiCore.Machine.BringUp | arch/arm/mach-ipq/cmd_ipq.c:1752-1773 | a core is started only when all before it are up; it fails only if starting fails or five seconds have passed and the core has not come up |
| MultiCore.Machine.Collect | arch/arm/mach-ipq/cmd_ipq.c:1775-1790 | the verdict taken for a core is that of the result it stored before raising its flag, and it is taken exactly when the flag was seen in some round |
| MultiCore.Machine.PowerDown | arch/arm/mach-ipq/cmd_ipq.c:1792-1807 | with the core states seen in each round, a second each: the wait ends well if and only if one of the first five rounds leaves no core, and panics in the sixth otherwise |
| MultiCore.SixthRoundIsLate | arch/arm/mach-ipq/cmd_ipq.c:1792-1807 | there is a schedule in which all cores are off in the sixth round and the wait does not end well |
| MultiCore.Machine.FreeAll | arch/arm/mach-ipq/cmd_ipq.c:1809-1811 | stacks are freed when every core is off |
| MultiCore.Machine.Run | arch/arm/mach-ipq/cmd_ipq.c:1694-1828 | for any number of cores, failures and interleavings: a stack is freed only when the command completes with all cores off, after at most five seconds of waiting for each core and five more; a core is reported as failed exactly if its command returned -1; it panics only if a core could not be started, had not come up when five seconds had passed, or was not seen off in five rounds |
| MtdParts.ScaledReads | arch/arm/mach-ipq/fdt_fixup.c:495-503 | scaling to M or K loses nothing |
| MtdParts.UnitIs | arch/arm/mach-ipq/fdt_fixup.c:495-503 | a size is printed in M or K exactly if it is a larger whole number of them |
| MtdParts.NumberReads | arch/arm/mach-ipq/fdt_fixup.c:505-506 | printed numbers read back |
| MtdParts.EntryReads | arch/arm/mach-ipq/fdt_fixup.c:495-508 | one entry reads back with exact size, offset and name |
| MtdParts.ToMtdparts | arch/arm/mach-ipq/fdt_fixup.c:383-515 | the loop prints the text of the table with the NAND header once and removes one character at the end |
| MtdParts.RoundTrip | arch/arm/mach-ipq/fdt_fixup.c:383-515 | parsing the printed string gives exactly the partitions in range, in order, with exact size, offset and name |
| MtdParts.ItemsAreEntries | arch/arm/mach-ipq/fdt_fixup.c:466-493 | every item comes from a partition of the table, one to the end of the device ends there, each ends within the limit of its own flash, and every partition that does gives one |
| MtdParts.DevicesRight | arch/arm/mach-ipq/fdt_fixup.c:457-463 | the devices come back right if and only if no partition in range that is not on NAND follows one that is |
| MtdParts.LastCharacter | arch/arm/mach-ipq/fdt_fixup.c:505-514 | the character removed is a comma exactly if the device printed last has an entry, otherwise its colon |

## Left out

- NandWriter.StoreAll: chunk lengths are below 2^32 less a page, as the code adds them in 32 bits; a session starts at a block boundary; what bad blocks contain is not modelled, nor chips whose reads fail.
- EmmcWriter.StoreAll: chunk lengths are below 2^32 less a block; after a failed write the lost chunk is not modelled further than that nothing outside its blocks changed.
- MemDump.Run: the header copy is one step; from 4 GiB on the total is wrong, and only a reader that compares it is known to find no container; 64-bit address sums do not wrap, and a table has fewer than 2^32 dumps where its header is read.
- NvmemDump.Run: sizes are below 4 GiB, and the partition has at least one block; the command that erases the partition is the starting assumption that its first block shows no magic.
- NandDump.Run: sizes are below 4 GiB, the header is shorter than a page; the command that erases the partition is the starting assumption that its good blocks are blank. Partition sizes are 32-bit, as in the code.
- DumpContainer.EntryReads: the number of bytes for a name is a parameter, since the header that defines DUMP_NAME_STR_MAX_LEN is not part of this model; longer names, which are cut, are not modelled.
- NorBlk.Bwrite: byte offsets are below 2^31, where the code's int arithmetic does not overflow; sector sizes are powers of two and multiples of the block size.
- BamRing.DmaChannel.Send: of an incoherent channel only the return code is stated, not where the descriptors go; address bits beyond the descriptor field and lengths beyond 16 bits are not cut off; receiving goes through the same ring and is not repeated.
- GeniSpi.Transfer.Run: FIFO words are 32 bits; DMA mode and error recovery are left out.
- BootConfig.SelectedIsComplete: the values of the status and bank constants, and that the bank written is the one marked as not to be used and is committed only when complete, are assumptions about callers; try mode is off.
- MtdParts.RoundTrip: the buffer is large enough; names and the device id contain no delimiters; flash types for which no range is checked are not modelled.
- MultiCore.Machine.Run: the wait for completion has a bound on polls as a parameter, since the code waits for ever; memory for the stacks is always available and ctrl-c is not pressed.
- TlvWalk.WalkModules: the text of names and the crash type heuristics are left out, and what the code does after it has overrun its buffer.
- PartitionRead.GetPartitionData: only the eMMC path, with memory for its block buffer.
- Timeouts, cache maintenance, barriers, endianness macros and allocation failures.
- TFTP, USB, ext4 and gzip dump paths, environment parsing, printing, and commands run as strings.
- The SPI NOR crash dump writer: one erase and write per chunk, without state of its own.
- Fuse, secure-boot and firmware authentication commands: wrappers over code that is not part of this model.
- GPT header patching, image packing scripts and ELF or certificate parsing: straight-line field access.
