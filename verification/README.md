# A verified model of the vesper kernel

vesper is a small RISC-V kernel. This project models its four stateful parts in Dafny and proves what they promise:

- **Memory** (`PageFrame`, `ZeroedPages`, `Sv39*`, `BootMap`, `BootRoom`, `BootCode`, `Bits`). A first-fit page allocator
  over a byte table with TAKEN and LAST bits, and three-level Sv39 page tables that live in pages taken from it. The tables
  are shown to stay a tree of distinct pages the allocator counts as taken. From that follow what `map` does to every
  address, that building and tearing down restores the allocator, and that the software walk agrees with the translation
  algorithm of section 4.3.2 of the RISC-V Privileged Architecture (version 20211203), instantiated for Sv39 in section
  4.4. Boot's identity mapping is one application, with the number of free pages it needs.
- **Files** (`Minix3`, `Minix3Proofs`, `Minix3Exact`, `Minix3Walk`, `Minix3Faithful`, `Minix3Safe`, `Minix3Wrong`,
  `Minix3Trail`, `Minix3Index`, `Minix3Reader`, `Minix3Fs`, `Minix3Layout`, `Drive`, `Scratch`). The Minix 3 reader with
  its four zone walks, against the flat file that the block map describes, up to the read system call: what is copied, which
  blocks are asked for, and which pages are taken and given back on the way. The on-disk format is written out as bytes, and
  the reader is shown to decode it.
- **Disk** (`Virtqueue`, `Virtio*`, `BlockDevice`, `DiskBlocks`). The block driver and its device as one transition system
  over a split virtqueue (VIRTIO 1.1, sections 2.6 and 5.2.6), with all interleavings of concurrent calls, interrupts and
  device steps.
- **Processes** (`TrapVector`, `ProcessTable`, `Machine`, `TrapHandler`, `TrapPath`, `Scheduler`, `SchedulerRuns`,
  `SchedulerFair`). The trap vector, the handler's dispatch, system calls and the round-robin scheduler as a machine whose
  runs are studied; one trap through vector and handler is shown to be a step of it.

Code that updates memory in place is modelled by classes and loops (`PageFrames`, `Heap`, `Ram`, `FileReader`, `Buffers`,
`BlockDrive`, `VirtQueue`, `Device`, `Hart`, `Processes`, `Handler`, `Core`). Each method is proved equal to a function on values,
and the theorems are about those functions and about runs built from them.

## How to read the model

- What hardware and formats fix is stated in their own numbers and not in the constants of the code: the device's side of
  the queue and its sectors, the cause words and the width of an instruction, the permission bits of an entry, the byte
  order and the records of the file system, the words of a trap frame.
- Physical memory is a map from page numbers to 512 entries below 2^64. Bit operations are defined on naturals in `Bits`;
  `Sv39Code` proves the source's masks and shifts equal to the arithmetic that `Sv39` uses.
- A page index is an index into the allocator's table. The table counts pages over the whole heap although the pages start
  behind it, so its last indices name addresses past the heap's end. `RunInsideHeap` gives the exact bound, `Deallocate`
  refuses such addresses as the source does, and theorems that free pages carry the bound.
- An assertion, `expect` or panic of the source is an outcome (`Panic`, `Panicked`, `Abort`, a false answer of
  `Deallocate`), not a precondition; only `Allocate` requires a nonzero count, which all callers pass.
- In the driver's transition system the steps are: a call takes a request page (`Begin`), takes three descriptors or gives
  up (`Claim`), publishes (`Submit`), and returns once the status byte has changed (`Finish`); one round of the drain loop
  (`Ack`), by a polling call or by an interrupt; the device fetches a head, moves data, writes the status, returns the head
  (`Fetch`, `Transfer`, `Answer`, `Push`); and the rest of the kernel (`Other`). The device keeps to VIRTIO: it returns each
  head it was given once, moves data before it writes the status, never writes 0xff as status, and touches only what the
  descriptors it follows name. Otherwise it is free, in particular in the order in which it works on several requests.
  `DeviceSafe` shows that it can always follow its descriptors, so the guard `Visible` excludes nothing.
  Buffers of calls in flight do not overlap unless the device writes to neither, and other code leaves them alone.
- The file system sees the disk through `BlockDrive`: a block read takes a request page from the allocator, while the
  caller's scratch buffers are held, and gives it back. Without a page the read fails; a page past the heap end is the
  allocator's panic. `BlockReadDelivers` is why a successful read may be taken to deliver the block. The ghost field `log`
  records the blocks asked for and nothing reads it.
- `Log` in that system and `serial`, `serials` in the machine are histories that no step reads.
- A trap is one step of the machine, since traps do not nest. `Hart` keeps the frames in word memory and `Handler` as values;
  `Core` holds both and proves that they agree (`Backs`).

## Where the code does not do what one would expect

- **File reads with holes.** A zero data zone sets the file offset to the end of its block even when that block lies before
  the window, so a read can start over at an earlier block and run past the output (`HoleBeforeWindow`, a whole family of
  files). A missing pointer block moves only the block position, and the next present block makes the source subtract a
  larger offset from a smaller one (`MissingSingle`, `UnderflowExists`). These endings are the outcomes `Overrun` and
  `Underflow`. `ReadSafeIff` says for every file exactly when a read ends in neither, and `ReadFaithfulIff` exactly when it
  returns the window; a short read of a sparse file is safe without being faithful.
- **A missing double-indirect pointer** does not move the walk on, so everything behind the triple-indirect pointer is taken
  to lie 65536 blocks too early (`MissingDouble`). `ReadFaithfulIff` covers these files too: from the missing range on,
  every block of the window must be present and share its zone with the block 65536 further on (`OutOfStep`). Otherwise a
  read there that takes its whole window returns the bytes of those blocks (`ReadShifted`, `WrongBlock`).
- **Output lengths of 2^32 and more** are truncated; `WantExact` says exactly when this is harmless.
- **`v2p` and the standard** differ on leaves whose frame is not aligned to the leaf's size and on write-only leaves;
  `WalkAgreesIff` and `LeafPteConforms` are exact, `HistoryAgrees` is exact over whole histories, and
  `MisalignedSuperpage` and `WriteOnlyLeaf` are inputs.
- **`deallocate` in the middle of a run** frees only the tail and leaves the table malformed; `FreeExact` is exact.
- **Process stacks** are not given back on exit, and a spawn without a free slot uses up a number and a stack.

## Model

| member | source | states |
|---|---|---|
| `PageFrame.RunsPartition` | src/mm/alloc/page_frame.rs:25-54 | The runs decoded from the bits are pairwise disjoint, nonempty, inside the table, and cover exactly the taken pages |
| `PageFrame.FirstFit` | src/mm/alloc/page_frame.rs:84-91 | The answer is the lowest start of enough consecutive free pages, and there is none exactly when no such start exists |
| `PageFrame.MarkRunAddsRun` | src/mm/alloc/page_frame.rs:92-96 | Marking a free window adds exactly that run to the decoded runs and keeps the table well formed |
| `PageFrame.FreeRemovesRun` | src/mm/alloc/page_frame.rs:116-134 | Freeing from a run's start clears that run and no other, and stops at its end |
| `PageFrame.FreeExact` | src/mm/alloc/page_frame.rs:116-134 | Freeing ends without a panic exactly for taken pages, and leaves a well-formed table exactly for the start of a run |
| `PageFrame.FreeUndoesAllocate` | src/mm/alloc/page_frame.rs:84-134 | Freeing what was just allocated restores the table byte for byte |
| `PageFrame.GapIsFreeWindow` | src/mm/alloc/page_frame.rs:88-90 | A window is free in the bits exactly when no live run overlaps it |
| `PageFrame.StepRefines` | src/mm/alloc/page_frame.rs:84-134 | One allocate or valid free on the bits is the same step on the abstract map of live runs, with the same answer |
| `PageFrame.HistoryRefines` | src/mm/alloc/page_frame.rs:84-134 | After any sequence of allocates and valid frees the decoded runs are the abstract live runs, answers included |
| `PageFrame.PageUp` | src/mm/alloc/page_frame.rs:76-80 | The next page boundary at or above an address |
| `PageFrame.PagesFollowTable` | src/mm/alloc/page_frame.rs:61-81 | One descriptor for every 4096 bytes of heap; pages of 4096 bytes from the first boundary behind the descriptors |
| `PageFrame.RunInsideHeap` | src/mm/alloc/page_frame.rs:61-81 | No run overlaps the table; with a page-aligned heap end a run lies in the heap exactly below a stated index |
| `PageFrame.PageFrames.constructor` | src/mm/alloc/page_frame.rs:67-81 | One descriptor for every 4096 bytes of heap, all cleared, no live runs |
| `PageFrame.PageFrames.Allocate` | src/mm/alloc/page_frame.rs:84-100 | First fit on the table in place: the address, the new bits and the new run, or nothing and no change |
| `PageFrame.PageFrames.Mark` | src/mm/alloc/page_frame.rs:92-96 | TAKEN on the whole run, LAST on its final page, nothing else |
| `PageFrame.PageFrames.Deallocate` | src/mm/alloc/page_frame.rs:116-134 | Succeeds exactly for addresses between the first page and the heap end with a run to clear; removes that run |
| `Sv39.RegionDigits` | src/mm/paging/sv39/map.rs:20-24 | The three 9-bit fields are the base-512 digits of the region number of an address |
| `Sv39.PathUnique` | src/mm/paging/sv39/map.rs:34-47 | Two addresses that reach the same table agree in every field above its level, and the table has that level |
| `Sv39Map.BranchPteFacts` | src/mm/paging/sv39/map.rs:36-45 | The pointer entry the mapper writes reads back as a branch to the same table |
| `Sv39Map.LeafPteFacts` | src/mm/paging/sv39/map.rs:28-56 | The leaf entry reads back as a valid leaf whose address is the frame with low bits cleared plus the offset |
| `Sv39Map.LinkTableRel` | src/mm/paging/sv39/map.rs:36-42 | A table taken on demand is a fresh zeroed page outside the tree, linked from one entry, nothing else changed |
| `Sv39Map.MapTranslates` | src/mm/paging/sv39/map.rs:15-57 | After `map` the whole region of the leaf translates linearly to the frame, every other address as before, and the tables are again a tree of distinct taken pages |
| `Sv39Map.MapSucceeds` | src/mm/paging/sv39/map.rs:34-47 | A call that meets no leaf on its way succeeds when one page in RAM is free for every missing table |
| `Sv39Unmap.MapAllCorrect` | src/mm/paging/sv39/map.rs:15-57 | Over any sequence of calls, each address is decided by the last call that covers it, else by the old tables |
| `Sv39Unmap.HistoryNeverFaults` | src/mm/paging/sv39/map.rs:98-128 | After any history of calls the walk stays among the tables for every address |
| `Sv39Unmap.UnmapReleasesAll` | src/mm/paging/sv39/map.rs:61-96 | `unmap` frees exactly the tables below the root, touches no other descriptor or page, and leaves only the root's leaves mapped |
| `Sv39Unmap.BuildAndTearDown` | src/mm/paging/sv39/map.rs:15-96 | Any history of maps on a zeroed root that overwrites no branch, followed by `unmap`, restores the descriptor table and leaves only level-2 leaves |
| `Sv39Standard.ComposeIsLeafAddr` | src/mm/paging/sv39/map.rs:113-118 | On a conforming leaf the standard's field-wise composition gives the software walk's address |
| `Sv39Standard.WalkAgreesIff` | src/mm/paging/sv39/map.rs:98-128 | On every tree and canonical address the software walk and the standard's algorithm agree exactly when the leaf met conforms |
| `Sv39Standard.LeafPteConforms` | src/mm/paging/sv39/map.rs:28-56 | A leaf written by `map` conforms exactly when write permission comes with read permission and the frame is aligned to the leaf's size |
| `Sv39Standard.HistoryAgrees` | src/mm/paging/sv39/map.rs:98-128 | After any history of calls both walks agree on a canonical address exactly when the last call that covers it, if any, conforms |
| `Sv39Standard.MisalignedSuperpage` | src/mm/paging/sv39/map.rs:111-118 | A gigabyte leaf over the second page is accepted and answered by the walk, rounded down, and faults under the standard |
| `Sv39Standard.WriteOnlyLeaf` | src/mm/paging/sv39/map.rs:16-18 | A leaf that may only be written is accepted and answered, and faults under the standard |
| `Sv39Code.VpnFieldIs` | src/mm/paging/sv39/map.rs:20-24 | Shift and mask extract the virtual page number of a level |
| `Sv39Code.FlagBits` | src/mm/paging/sv39/types.rs:39-59 | The bit tests for valid and leaf are the arithmetic ones |
| `Sv39Code.TableAddrIs` | src/mm/paging/sv39/map.rs:43-46 | Masking the flags and shifting gives the address of the next table |
| `Sv39Code.BranchBits` | src/mm/paging/sv39/map.rs:39-41 | The pointer entry built with shift and or is the arithmetic one |
| `Sv39Code.LeafWordIs` | src/mm/paging/sv39/map.rs:28-56 | The leaf built from three shifted fields and flags is page number times 1024 plus flags with VALID forced |
| `Sv39Code.LeafPhysIs` | src/mm/paging/sv39/map.rs:113-118 | Mask and or compose the physical address of a superpage |
| `Sv39Code.Ram.ZeroedPage` | src/mm/alloc/page_frame.rs:104-110 | One page taken first fit and zeroed, or the reason why not |
| `Sv39Code.Ram.Descend` | src/mm/paging/sv39/map.rs:34-47 | One step down, growing a missing table in place |
| `Sv39Code.Ram.Map` | src/mm/paging/sv39/map.rs:15-57 | The loop over levels on real entries ends as the specified mapper does, including its panics |
| `Sv39Code.Ram.Resolve` | src/mm/paging/sv39/map.rs:101-128 | The walk with a cursor computes the specified translation |
| `Sv39Code.Ram.FreePage` | src/mm/paging/sv39/map.rs:66-69 | A table's page given back to the allocator, or a panic |
| `Sv39Code.Ram.UnmapTable` | src/mm/paging/sv39/map.rs:80-91 | The inner loop releases every table below a level-1 table and clears the entries |
| `Sv39Code.Ram.UnmapBelow` | src/mm/paging/sv39/map.rs:77-93 | The tables below and then the level-1 table itself |
| `Sv39Code.Ram.Unmap` | src/mm/paging/sv39/map.rs:61-96 | The outer loop ends as the specified tear-down does |
| `BootMap.PageDown` | src/boot/entry.rs:18-21 | The page boundary at or below an address |
| `BootMap.LastWriterRange` | src/mm/paging/sv39/map.rs:132-138 | An identity range decides exactly the addresses of its pages, each by its own page's call |
| `BootMap.SectionsApart` | src/lds/virt.lds:18-52 | Rounded outward, text, rodata and the writable rest share no page, nor do the device windows with RAM |
| `BootMap.BootWriters` | src/boot/entry.rs:62-84 | The last of boot's calls to cover an address is one of its own section, whatever the rounding |
| `BootMap.SectionPermissions` | src/boot/entry.rs:62-84 | Text gets the read-execute flags, rodata read-only, everything writable read-write |
| `BootMap.BootIdentity` | src/boot/entry.rs:55-84 | After boot's calls exactly the intended addresses translate, each to itself, with the intended flags |
| `BootMap.BootBits` | src/boot/entry.rs:60-84 | After boot, over the entry the walk finds, bit by bit: text is readable and executable, rodata only readable, data, bss, stack, heap and the windows at 0x10000000 to 0x10008fff readable and writable; all are valid 4 KiB leaves over their own page with A set, D exactly where W is, U and G clear |
| `BootMap.WriteXorExecute` | src/boot/entry.rs:62-84 | After boot no page is both writable and executable |
| `BootRoom.MapWithRoom` | src/mm/paging/sv39/map.rs:34-47 | With a free page for every missing table a call succeeds and takes no more than those |
| `BootRoom.MapAllSucceeds` | src/mm/paging/sv39/map.rs:15-57 | Small calls in any order succeed with one free page per table missing for the first and per table a call can need beyond its predecessor |
| `BootRoom.BootClimb` | src/boot/entry.rs:66-84 | Boot's calls need four tables and one more for every 2 MiB and 1 GiB boundary inside RAM |
| `BootRoom.BootSucceeds` | src/boot/entry.rs:55-84 | With that many free pages in RAM none of boot's calls stops |
| `BootRoom.BootMaps` | src/boot/entry.rs:55-84 | Then boot ends with exactly the sections and devices mapped, each address to itself |
| `BootCode.MapAllConcat` | src/boot/entry.rs:66-84 | Making calls one section after the other is making them in one sequence, up to the first that stops |
| `BootCode.IdMapRange` | src/mm/paging/sv39/map.rs:132-138 | The loop over pages ends as the sequence of its calls does; unaligned bounds, and flags without R, W and X for a nonempty range, panic before anything is written |
| `BootCode.MapSection` | src/boot/entry.rs:32-39 | A section rounded outward is mapped after what came before, or panics on flags that make no leaf |
| `BootCode.MapKernel` | src/boot/entry.rs:55-84 | The eight sections in order amount to the sequence `BootIdentity` and `BootBits` are about |
| `Minix3Proofs.LeavesPrefix` | src/fs/minix3/fs.rs:139-222 | Below a pointer of any depth, the walk meets the blocks in order as long as their pointers are there |
| `Minix3Proofs.FilePrefix` | src/fs/minix3/fs.rs:126-222 | The four walks together meet the first blocks of the file in order, with the zones the block map gives |
| `Minix3Proofs.CopyContiguous` | src/fs/minix3/fs.rs:87-124 | Copying consecutive blocks takes the window part of each nonzero one, in order, and stops at the window's end |
| `Minix3Index.SparseRead` | src/fs/minix3/fs.rs:69-225 | With all pointer blocks present and no hole before the window, the output is the concatenated window parts of the nonzero blocks, no longer than the request; the data blocks asked for are those, once each and in order, and the pointer blocks those above them |
| `Minix3Trail.FileTrailData` | src/fs/minix3/fs.rs:94-124 | For every file, unless the read goes wrong, the data blocks asked for are exactly the zones of the chunks copied, in order |
| `Minix3Index.FileTrailIndex` | src/fs/minix3/fs.rs:139-222 | The pointer blocks asked for are those above the blocks up to the end of the window, each once and parents first |
| `Minix3Proofs.PartsAreBytes` | src/fs/minix3/fs.rs:112-122 | The parts of present blocks are the file's bytes |
| `Minix3Proofs.DenseRead` | src/fs/minix3/fs.rs:69-225 | With all blocks present the read returns exactly the requested slice of the concatenated blocks, across all four walks |
| `Minix3Proofs.WantExact` | src/fs/minix3/fs.rs:70-76 | The request is the smaller of output length and rest of the file, exactly unless the length's truncation bites |
| `Minix3Exact.EventsExactIff` | src/fs/minix3/fs.rs:87-124 | A copy over blocks in order is exact if and only if the window is covered and holes before it do no harm |
| `Minix3Walk.FileEventsSorted` | src/fs/minix3/fs.rs:126-222 | The walk meets block positions in strictly increasing order, for every file |
| `Minix3Walk.MetHas` | src/fs/minix3/fs.rs:126-222 | Every block whose pointers are there is met, at its own position or, without a double-indirect pointer, 65536 blocks before it |
| `Minix3Walk.MetOnly` | src/fs/minix3/fs.rs:126-222 | Nothing else is met |
| `Minix3Walk.ReadExactIff` | src/fs/minix3/fs.rs:69-225 | For every file, the chunks cover exactly the window if and only if a block is met at each position of it and holes before it reach up to it without a present block between |
| `Minix3Faithful.FaithfulBytes` | src/fs/minix3/fs.rs:112-122 | Chunks that cover the window from the right blocks are that slice of the flat file |
| `Minix3Faithful.InStep` | src/fs/minix3/fs.rs:158-189 | With a double-indirect pointer, or in windows before its range, the condition is that the blocks of the window are present and holes before it reach up to it |
| `Minix3Faithful.OutOfStep` | src/fs/minix3/fs.rs:186-189 | Elsewhere every block of a faithful window shares its zone with the block 65536 further on |
| `Minix3Faithful.ReadFaithfulIff` | src/fs/minix3/fs.rs:69-225 | For every file and window, the read is the slice of the flat file if and only if the positions are covered as above and the block met at each is the one that belongs there or shares its zone |
| `Minix3Safe.WalkSafeIff` | src/fs/minix3/fs.rs:87-124 | Over any walk in order, a copy goes wrong if and only if a block follows a gap or the blocks from the first hole or window block on hold more than the output |
| `Minix3Safe.ReadSafeIff` | src/fs/minix3/fs.rs:69-225 | The same for every file and window: exactly when a read ends in neither overrun nor underflow |
| `Minix3Safe.OverrunNeedsHole` | src/fs/minix3/fs.rs:94-97 | A read that runs past its output has met a hole before its window |
| `Minix3Wrong.HoleBeforeWindow` | src/fs/minix3/fs.rs:94-97 | On every file whose first block is a hole and whose second and third are present, a one-block read of the third runs past the output |
| `Minix3Wrong.MissingSingle` | src/fs/minix3/fs.rs:98-112 | On every file with all seven direct blocks, no single-indirect pointer and a first block behind the double-indirect one, every read that starts in the missing range ends in underflow |
| `Minix3Wrong.UnderflowExists` | src/fs/minix3/fs.rs:98-112 | A concrete file and read of that kind |
| `Minix3Walk.MissingDouble` | src/fs/minix3/fs.rs:158-189 | Without a double-indirect pointer the triple-indirect blocks are placed 65536 blocks too early |
| `Minix3Wrong.ReadShifted` | src/fs/minix3/fs.rs:158-222 | Without a double-indirect pointer, every read from behind its range that takes its whole window returns the bytes of the file 65536 blocks further on |
| `Minix3Wrong.WrongBlock` | src/fs/minix3/fs.rs:158-222 | On every such file with all blocks before the range, reading the first missing block returns the block 65536 further on |
| `Drive.BlockDrive.Read` | src/drivers/virtio/device.rs:295-380 | A block read takes a request page and gives it back: the block, a failure without a page, or the panic exactly for a page past the heap end; the block is logged and the table as before |
| `Drive.RoomForRequest` | src/drivers/virtio/device.rs:309-311 | One free page below the heap end is enough for a request |
| `Minix3Reader.FileReader.Copy` | src/fs/minix3/fs.rs:87-124 | The closure's three branches on the shared state, with underflow and overrun as outcomes, and the block it asks for |
| `Minix3Reader.FileReader.Transfer` | src/fs/minix3/fs.rs:112-122 | The bytes land behind those already written and nothing else changes |
| `Minix3Reader.FileReader.Load` | src/fs/minix3/fs.rs:227-237 | A pointer block into its scratch buffer, asked for once |
| `Minix3Reader.FileReader.LoadPtr` | src/fs/minix3/fs.rs:147-147 | A pointer from a scratch buffer, which `PointerDecodes` shows to be the number written there |
| `Minix3Layout.PointerDecodes` | src/fs/minix3/fs.rs:142-147 | Of a block that holds 256 numbers below 2^32, each in four bytes least significant first, the reader gets back each |
| `Minix3Layout.PointersWritten` | src/fs/minix3/fs.rs:142-147 | Conversely every block is the writing of the 256 pointers read from it |
| `Minix3Layout.BlockMap` | src/fs/minix3/fs.rs:126-222 | The zone of every block of a file, and whether its pointers are there, in the numbers of the format: 7 direct, 256, 65536 and 16777216 behind the three pointers, each pointer a little-endian word |
| `Minix3Reader.FileReader.WalkDirect` | src/fs/minix3/fs.rs:126-137 | The seven direct zones |
| `Minix3Reader.FileReader.WalkSingle` | src/fs/minix3/fs.rs:139-152 | The loop below a single-indirect pointer |
| `Minix3Reader.FileReader.WalkDouble` | src/fs/minix3/fs.rs:158-184 | The two loops below a double-indirect pointer, skipping missing pointer blocks |
| `Minix3Reader.FileReader.WalkTriple` | src/fs/minix3/fs.rs:186-222 | The three loops below a triple-indirect pointer |
| `Minix3Reader.FileReader.Walk` | src/fs/minix3/fs.rs:126-224 | The nested loops with shared position, offset and output end exactly as the walk computed from the block tree, having asked for exactly the blocks computed; the allocator's table is as before unless a request page lies past the heap end |
| `Scratch.PagesFor` | src/fs/minix3/blocks.rs:21-25 | The least number of pages, at least one, that holds the bytes |
| `Scratch.DropLast` | src/fs/minix3/blocks.rs:38-45 | Dropping the last buffer taken goes back exactly one allocation |
| `Scratch.Buffers.New` | src/fs/minix3/blocks.rs:21-25 | One more page, first fit |
| `Scratch.Buffers.Drop` | src/fs/minix3/blocks.rs:38-45 | Dropping all buffers restores the table of entry, unless a page lies past the heap end |
| `Scratch.BuffersWereFree` | src/fs/minix3/blocks.rs:21-25 | The pages of buffers in hand were free on entry, so a refused one was a free page past the heap end |
| `Scratch.RoomBeside` | src/fs/minix3/fs.rs:82-85 | With buffers in hand the rest of the room is still there |
| `Minix3Fs.InodeRecord` | src/fs/minix3/fs.rs:37-62 | A record never straddles a block, is the 64 bytes at its flat offset, different numbers are disjoint, nothing overflows 64 bits |
| `Minix3Layout.InodeDecodes` | src/fs/minix3/inode.rs:14-24 | Of the record's fields packed one after the other the reader gets back size and ten zones |
| `Minix3Layout.SuperDecodes` | src/fs/minix3/super_block.rs:5-19 | Of the superblock's fields packed one after the other the reader gets back the counts and the magic |
| `Minix3Layout.ImageFound` | src/fs/minix3/fs.rs:21-62 | On every disk that holds a boot block, a superblock, the two maps, the inode records and data in this order, the reader finds exactly the inodes written, each under its number, if the magic is 0x4d5a, and none otherwise |
| `Minix3Fs.TakeBuffers` | src/fs/minix3/fs.rs:82-85 | All scratch buffers, or those already taken are returned |
| `Minix3Fs.ReadFile` | src/fs/minix3/fs.rs:69-225 | Under that condition the output begins with exactly the requested slice and the count is its length; in every case the result and the blocks asked for are those computed and the rest of the output is untouched. The allocator's table is as before, and five free pages below the heap end exclude a panic: four buffers and a request; a panic needs a free page past the heap end |
| `Minix3Fs.Mount` | src/fs/minix3/fs.rs:21-34 | The superblock of block 1 by its magic, or why not; block 1 and no other is asked for; the allocator's table as before, with two free pages no panic |
| `Minix3Fs.ReadInode` | src/fs/minix3/fs.rs:43-62 | Exactly the numbers 1 to ninodes, the record at its flat offset; exactly the block of that offset is asked for; the allocator's table as before, with two free pages no panic |
| `Minix3Fs.AnswerIff` | src/process/syscall.rs:32-41 | Every read that does not go wrong gives a count, and none that does, unless a block read failed first |
| `Minix3Fs.ReadNumbered` | src/process/syscall.rs:33-41 | Inode and file: an empty window answers zero and leaves the output alone, any other read answers as its walk went, and zero otherwise only when memory or the drive failed |
| `Minix3Fs.SysRead` | src/process/syscall.rs:26-43 | The system call end to end: no such inode or an empty window answer zero and leave the output alone, any other read answers as its walk went, with the slice of the file under the condition above, and zero otherwise only when memory or the drive failed; block 1, the inode's block and the file's are asked for in this order; the allocator's table as before, with five free pages no panic |
| `Virtqueue.ThreeFree` | src/drivers/virtio/device.rs:103-122 | The three lowest free descriptors, or none exactly when fewer than three are free |
| `Virtqueue.PublishedWalk` | src/drivers/virtio/device.rs:329-352 | A published request is followed head, data, status, and ends there |
| `Virtqueue.BacklogStep` | src/drivers/virtio/device.rs:414-419 | Each round of the drain shortens the wrapped distance to the device's index by one |
| `Virtqueue.VirtQueue.constructor` | src/drivers/virtio/device.rs:39-49 | All descriptors free, no requests, indices zero |
| `Virtqueue.VirtQueue.AllocDescChain` | src/drivers/virtio/device.rs:103-122 | Takes the three lowest free descriptors or puts back what it took |
| `Virtqueue.VirtQueue.FreeDescChain` | src/drivers/virtio/device.rs:124-134 | Frees exactly the descriptors met from the head, up to the end of the chain or the panic at an index outside the table |
| `Virtqueue.ChainDecided` | src/drivers/virtio/device.rs:124-134 | A chain is over within as many descriptors as the table has, or goes round for ever |
| `Virtqueue.VirtQueue.PublishChain` | src/drivers/virtio/device.rs:329-360 | Three descriptors, the request slot, one ring slot and the index change, nothing else |
| `Virtqueue.VirtQueue.Round` | src/drivers/virtio/device.rs:416-432 | One round: the device's index as it stands is compared, and one entry consumed |
| `Virtqueue.VirtQueue.Pending` | src/drivers/virtio/device.rs:414-434 | The loop ends at the device's index with every entry in between consumed, also those the device returns between the rounds |
| `Virtqueue.QuietDrain` | src/drivers/virtio/device.rs:414-434 | With a quiet device that is the plain drain of the backlog |
| `VirtioKeeps.Windows` | src/drivers/virtio/device.rs:355-360 | Neither ring ever holds more than two unconsumed entries |
| `VirtioKeeps.DeviceSees` | src/drivers/virtio/device.rs:309-352 | As long as a request is unanswered, the device finds through the descriptor table exactly what the call wrote |
| `VirtioKeeps.FetchHead` | src/drivers/virtio/device.rs:355-360 | What the device reads at its own index modulo eight is the oldest submission it has not seen |
| `VirtioKeeps.AckIs` | src/drivers/virtio/device.rs:414-432 | The entry consumed is the oldest return, its chain ends, and exactly its three descriptors become free |
| `VirtioCalls.RetireIs` | src/drivers/virtio/device.rs:95-101 | Giving a request page back never trips the allocator |
| `VirtioCalls.FinishQuiet` | src/drivers/virtio/device.rs:369-377 | Once the status has changed the device has no further business with the request |
| `VirtioCalls.StepKeeps` | src/drivers/virtio/device.rs:295-434 | Every step of driver, device and surrounding kernel keeps the ownership invariant |
| `VirtioCalls.AlwaysInv` | src/drivers/virtio/device.rs:295-434 | The ownership invariant holds in every state of every run |
| `VirtioTheorems.OutstandingIsChain` | src/drivers/virtio/device.rs:350-360 | A head is outstanding exactly while it is submitted and unfetched, in the device's hands, or returned and unconsumed |
| `VirtioTheorems.ChainsDisjoint` | src/drivers/virtio/device.rs:324-360 | Every outstanding chain has three distinct descriptors and shares none with another |
| `VirtioTheorems.FreeExactly` | src/drivers/virtio/device.rs:103-134 | A descriptor is free exactly when no outstanding chain and no claim holds it |
| `VirtioTheorems.AtMostTwo` | src/drivers/virtio/device.rs:103-122 | At most two chains are outstanding, counting claims |
| `VirtioTheorems.NeverRewritten` | src/drivers/virtio/device.rs:350-352 | No step of any run rewrites a descriptor of an outstanding chain, also when its call has long returned |
| `VirtioTheorems.IndicesTell` | src/drivers/virtio/device.rs:414-419 | Comparing wrapped indices tells each side exactly whether and how much work is waiting |
| `VirtioTheorems.RingsAreQueues` | src/drivers/virtio/device.rs:355-360 | Wrapped indices modulo eight behave as two unbounded first-in first-out queues; no unconsumed slot is overwritten |
| `VirtioTheorems.PendingDrains` | src/drivers/virtio/device.rs:414-434 | A drain ends, consumes exactly the backlog, frees exactly its descriptors and touches nothing else |
| `VirtioDrain.WorkedKeeps` | src/drivers/virtio/device.rs:414-419 | To the driver, any steps of the device only append returns to the used ring |
| `VirtioDrain.DrainsAmid` | src/drivers/virtio/device.rs:414-434 | From every reachable state and whatever the device does before each reading of its index, `Pending` can go on to its end, consumes exactly the returns that were waiting and those added, and frees exactly their descriptors |
| `VirtioTheorems.DeviceSafe` | src/drivers/virtio/device.rs:295-380 | In every run, whatever the device has still to touch is a live request page of a waiting call with that call's buffer |
| `VirtioTheorems.FreedAfterLastAccess` | src/drivers/virtio/device.rs:369-378 | When a call frees its page, no head the device has still to work on leads there |
| `VirtioTheorems.StepConserves` | src/drivers/virtio/device.rs:309-327 | Apart from other code, no step changes the allocator's table outside the request pages in flight |
| `VirtioTheorems.BlockOpConserves` | src/drivers/virtio/device.rs:295-380 | Between two moments without calls in flight the driver leaves the allocator's table unchanged, on every way of returning |
| `VirtioDisk.StepMeans` | src/drivers/virtio/device.rs:287-380 | Every step is a step of a disk with atomic operations, or none |
| `VirtioDisk.RefinesDisk` | src/drivers/virtio/device.rs:287-412 | Every run is a run of the atomic disk |
| `VirtioDisk.BlockOpAtomic` | src/drivers/virtio/device.rs:287-380 | A call that answers true took effect in one step while in flight, at its offset rounded down to 512 bytes, so at the offset itself when that is a multiple: the buffer holds the disk's bytes of that moment there, or the disk got the buffer's there and nowhere else |
| `DiskBlocks.DiskFixed` | src/drivers/virtio/device.rs:287-289 | A run whose calls only read never changes the disk |
| `DiskBlocks.ReadDelivers` | src/drivers/virtio/device.rs:287-289 | In every such run a read of any length from a multiple of 512 that answers true leaves the disk's bytes at that offset in the buffer |
| `DiskBlocks.BlockReadDelivers` | src/drivers/virtio/device.rs:287-289 | So a read of 1024 bytes at 1024 times a block number leaves that block of the disk in the buffer, which is what the file system relies on |
| `DiskBlocks.Served` | src/drivers/virtio/device.rs:295-380 | From every fresh queue there is a run in which a request that fits is carried out and its call returns true |
| `BlockDevice.StartIsThreeSteps` | src/drivers/virtio/device.rs:309-360 | The code before the wait is the call's three steps of the transition system |
| `BlockDevice.RefusedIsTwoSteps` | src/drivers/virtio/device.rs:324-327 | Without descriptors the request page is back in the allocator |
| `BlockDevice.Device.Launch` | src/drivers/virtio/device.rs:324-360 | Descriptors claimed and the request published, or the queue untouched |
| `BlockDevice.Device.Start` | src/drivers/virtio/device.rs:295-365 | Read-only refusal, page, descriptors, publication; the request page holds type 1 for a write and 0 for a read, the offset's 512-byte sector, the buffer and 0xff; a refusal leaves allocator and queue as they were |
| `BlockDevice.Device.Complete` | src/drivers/virtio/device.rs:376-378 | The answer is the status, and the page goes back |
| `TrapVector.LoadSave` | src/arch/riscv64/asm/trap.S:21-66 | Restoring from the frame just saved gives back every register |
| `TrapVector.Hart.Enter` | src/arch/riscv64/asm/trap.S:21-51 | Through the swaps with mscratch, x1 to x31 end up in the frame, no other word changes, the handler gets pc, frame and trap stack |
| `TrapVector.Hart.SaveLow` | src/arch/riscv64/asm/trap.S:26-31 | x1 to x30 in their slots |
| `TrapVector.Hart.Leave` | src/arch/riscv64/asm/trap.S:53-66 | All registers come from the frame mscratch points at, the pc from the handler |
| `ProcessTable.Scan` | src/process/table.rs:111-121 | The runnable slot nearest behind the start, going round, or none exactly when none is runnable |
| `ProcessTable.Schedule` | src/process/table.rs:101-125 | The choice is the nearest runnable slot after the running one, and only the running one's resume address is saved |
| `ProcessTable.FirstEmpty` | src/process/table.rs:84-91 | The lowest empty slot |
| `ProcessTable.Processes.constructor` | src/process/table.rs:45-51 | Empty table, next number 1 |
| `ProcessTable.Processes.Pick` | src/process/table.rs:101-125 | The loop over offsets makes the specified choice |
| `ProcessTable.Processes.ExitCurrent` | src/process/table.rs:129-136 | The running process's slot is emptied and nobody is running |
| `ProcessTable.Processes.SpawnKernel` | src/process/table.rs:63-92 | Zeroed stack, number, lowest slot; pc at the entry, x2 just past the two stack pages, every other register zero; each failure with what it has already used up |
| `ZeroedPages.Heap.Zallocate` | src/mm/alloc/page_frame.rs:102-110 | The lowest free window, its pages zeroed and no others |
| `TrapHandler.Handler.Install` | src/arch/riscv64/trap.rs:73-90 | A zeroed trap stack of four pages; its top, 16384 bytes up, satp and hart number in the boot frame, the top for later processes, mscratch at the boot frame |
| `TrapHandler.Handler.TakeAccessFault` | src/arch/riscv64/trap.rs:56-59 | Whether an access fault was stepped over, and the flag cleared |
| `TrapHandler.Handler.Current` | src/arch/riscv64/trap.rs:103-110 | The frame mscratch points at |
| `TrapHandler.Handler.SetReturn` | src/process/syscall.rs:32-42 | Only a0 of the trapped frame changes |
| `TrapHandler.Handler.Tick` | src/arch/riscv64/trap.rs:120-132 | The scheduler's choice, mscratch and resume address follow it |
| `TrapHandler.Handler.ExitAndSwitch` | src/process/syscall.rs:44-60 | Exit, then the next process or the parking loop |
| `TrapHandler.Handler.DoRead` | src/process/syscall.rs:26-43 | Inode, size and offset from the frame, cut to 32 bits; answer and buffer are those of the file read, the allocator's table as before. With five free pages, or none past the heap end, there is no answer only if the walk over the file goes wrong; with five and a reliable drive exactly then |
| `TrapHandler.Handler.DoSyscall` | src/process/syscall.rs:21-66 | Dispatch on a0, result in a0, resume behind the ecall; only a read touches the buffer and the disk, and only a read may not come back, under the same condition |
| `TrapHandler.Handler.MTrap` | src/arch/riscv64/trap.rs:103-183 | Dispatch on the cause word: ticks, services, ecalls, skipped faults, panics; a read does not come back under the same condition; access faults, and nothing else, set the flag |
| `Machine.DispatchTable` | src/arch/riscv64/trap.rs:103-183 | The dispatch in numbers, over every 64-bit cause word: interrupt 7 is a tick, 3 and 11 resume where they struck, exceptions 5, 7, 12, 13 and 15 resume four bytes further, 8 and 9 are calls, of which 63 puts the answer in x10, 93 exits and any other returns; all the rest panic |
| `TrapVector.Hart.Return` | src/arch/riscv64/asm/trap.S:51-54 | After the handler only a0 and mscratch are known |
| `TrapPath.FrameWord` | src/arch/riscv64/trap_frame.rs:9-15 | A frame in word memory: registers from word 0, floating-point registers from 32, satp at 64, the trap stack at 65, the hart number at 66 |
| `TrapPath.DispatchFrames` | src/arch/riscv64/trap.rs:103-183 | Apart from the answer of a read the handler writes no frame |
| `TrapPath.EnteredArgs` | src/process/syscall.rs:26-31 | A read's inode, offset and size are the interrupted x12, x15 and x14, cut to 32 bits |
| `TrapPath.Core.Save` | src/arch/riscv64/asm/trap.S:21-51 | On the way in, word memory holds the frames of the kernel with the interrupted registers saved, and the handler begins with the trap's words in x10 to x14 and, in every state the invariant allows, x2 on the trap stack |
| `TrapPath.Core.Restore` | src/arch/riscv64/asm/trap.S:53-66 | On the way out, word memory holds the frames the handler left, and the registers are those of the frame it chose |
| `TrapPath.Core.OneTrap` | src/arch/riscv64/asm/trap.S:21-66 | A trap through the vector, the handler and the vector again, over word memory with all frames, is the machine's trap step, parking included; the handler begins on the trap stack; a read answers for the inode, offset and size in x12, x15 and x14; the trap is lost exactly on a panic or a read that does not come back |
| `Scheduler.TickPointed` | src/arch/riscv64/trap.rs:120-132 | After a tick mscratch points at the frame of the process that runs, or still at the boot frame |
| `Scheduler.ExitSlots` | src/process/syscall.rs:44-60 | An exit empties one slot and changes no other; its pc is stored nowhere |
| `Scheduler.StepKeeps` | src/process/table.rs:63-136 | Every step keeps: current slot occupied and running, mscratch at its frame, own stacks, numbers from serials |
| `Scheduler.AlwaysInv` | src/process/table.rs:63-136 | That invariant holds in every state of every run |
| `SchedulerRuns.StacksApart` | src/process/table.rs:63-92 | In every run live processes have disjoint stacks of taken pages |
| `SchedulerRuns.PidsApart` | src/process/table.rs:75-75 | With fewer than 65536 numbers issued, live numbers are distinct and nonzero |
| `SchedulerRuns.ExitTransparent` | src/process/syscall.rs:44-60 | An exit leaves every survivor's registers and pc as they were |
| `SchedulerRuns.StepTransparent` | src/arch/riscv64/trap.rs:103-183 | Unless a process itself moves on, no step changes its registers or pc, whether it keeps running, is preempted, waits, or is resumed |
| `SchedulerRuns.EcallReturns` | src/process/syscall.rs:21-66 | After a returning ecall the pc is four further; a call 63 has the answer in x10, and no other register changes |
| `SchedulerRuns.FaultReturns` | src/arch/riscv64/trap.rs:151-177 | A process whose fault 5, 7, 12, 13 or 15 is stepped over lives on with all registers and the pc four further |
| `SchedulerRuns.SpawnedStarts` | src/process/table.rs:63-92 | In every run a spawned process first runs at its entry, with x2 just past the two pages that are its stack, the first that fitted, and zero in every other register |
| `SchedulerRuns.Transparent` | src/arch/riscv64/asm/trap.S:21-66 | Over any stretch of any run without own moves a process's registers and pc stay the same |
| `SchedulerRuns.PreemptedResumes` | src/process/table.rs:94-125 | A process preempted by the timer finds all registers and the pc unchanged when it next runs |
| `SchedulerFair.TickChoice` | src/process/table.rs:111-121 | A tick chooses the nearest runnable slot behind the running one |
| `SchedulerFair.WaitingStep` | src/process/table.rs:101-136 | Each choice of another is paid for by the distance that is left, or by an exit |
| `SchedulerFair.WaitingLeft` | src/process/table.rs:101-136 | Choices of others plus those still possible never exceed the first distance plus 15 per exit |
| `SchedulerFair.BoundedWaiting` | src/process/table.rs:101-136 | While a process is not chosen, at most 15 times (exits plus one) choices of others happen, whatever is spawned |
| `SchedulerFair.Turns` | src/process/table.rs:101-125 | Since the last choice of a process, another one has been chosen once or not yet, by its position |
| `SchedulerFair.StrictRotation` | src/process/table.rs:101-125 | Without exits, between two consecutive choices of one process every other that lives throughout is chosen exactly once |

## Left out

- UART, console, panic output, PLIC registers, the escape-sequence automaton and the CLINT timer registers: device I/O without an invariant.
- `setup_block_device`, `bus::probe` and the entropy device: the model starts from a configured queue.
- Device selection in `block_op` and the slot and status checks of `pending_by_irq`: they only decide whether a call or a drain takes place.
- The ELF loader, directory entries and the shell: no other part of the kernel relies on a property of theirs.
- Boot assembly, PMP, `mret` into S-mode, TLB and memory fences, compiler reordering.
- Interrupts inside one round of the drain loop, inside the descriptor scan, inside a publication, inside a spawn or inside one call of the allocator: these are single steps of the models, although the source runs the last two in S-mode with timer interrupts deliverable.
- Liveness of the device: a call that is never answered never returns.
- Floating-point registers and per-process `satp`, which the trap vector neither saves nor switches.
- The guarded MMIO accesses that ask for the access-fault flag.
- Stack reclamation: the source does not free stacks on exit, so nothing is claimed.
- `log_zone_size` and the superblock's block size, which the reader ignores; blocks are 1024 bytes.
- The tests of `cur_offset >= end` before each zone of the reader: they cannot succeed, since a copy that reaches the end already leaves the walk.
- `used` entries carry only the head; the length the device reports is not read by the driver.
- Virtqueue.VirtQueue.FreeDescChain: requires a chain that does not go round, because the source's loop never ends on one that does; `AckIs` shows that no run provides one.
- TrapHandler.Handler.MTrap: the service of an external interrupt is a step that resumes where it struck; the claim at the PLIC and the console input behind it are device I/O.
- Machine: a spawn's stack pages are taken to be RAM, and a file read's effect on memory is not part of it; `answer` stands for the returned count, which `TrapPath.Core.OneTrap` ties to the file. The buffer of a read is kept apart from the frames.
