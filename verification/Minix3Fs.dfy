/** The file-system handle: mounting, inodes by number, and whole file reads with their scratch pages. */
module Minix3Fs {
  import opened PageFrame
  import opened Scratch
  import opened Minix3
  import opened Minix3Proofs
  import opened Minix3Reader
  import opened Minix3Trail
  import opened Minix3Safe
  import opened Minix3Faithful
  import opened Drive

  datatype FsError = OutOfMemory | BlockReadFailed | BadMagic | InodeOutOfRange
  /** `Panicked` is the allocator refusing a scratch page back, `Underflow` and `Overrun` the two ways
      a read goes wrong. */
  datatype ReadResult = Copied(count: nat) | Error(error: FsError) | WentUnder | WentOver | Panicked
  datatype Lookup<T> = Found(value: T) | NotFound(error: FsError) | LookupPanic

  const MAGIC: nat := 0x4d5a
  const INODE_SIZE: nat := 64

  // ---------------------------------------------------------------- on-disk records

  function Le16(b: seq<byte>, at: nat): nat
    requires at + 2 <= |b|
  {
    var b0: int, b1: int := b[at], b[at + 1];
    b0 + 0x100 * b1
  }

  function Le32(b: seq<byte>, at: nat): (r: nat)
    requires at + 4 <= |b|
    ensures r < 0x1_0000_0000
  {
    Le16(b, at) + 0x1_0000 * Le16(b, at + 2)
  }

  datatype SuperBlock = SuperBlock(ninodes: nat, imapBlocks: nat, zmapBlocks: nat, magic: nat)

  function ParseSuper(b: seq<byte>): (sb: SuperBlock)
    requires |b| >= 32
    ensures sb.ninodes < 0x1_0000_0000 && sb.imapBlocks < 0x1_0000 && sb.zmapBlocks < 0x1_0000
  {
    SuperBlock(Le32(b, 0), Le16(b, 6), Le16(b, 8), Le16(b, 24))
  }

  function ParseInode(b: seq<byte>): (n: Inode)
    requires |b| == INODE_SIZE
    ensures InodeOk(n)
  {
    Inode(Le32(b, 8), [Le32(b, 24), Le32(b, 28), Le32(b, 32), Le32(b, 36), Le32(b, 40), Le32(b, 44), Le32(b, 48),
                       Le32(b, 52), Le32(b, 56), Le32(b, 60)])
  }

  /** The device as one flat sequence of bytes. */
  function DiskSlice(disk: Disk, a: nat, n: nat): seq<byte> {
    seq<byte>(n, i requires 0 <= i < n => disk((a + i) / BLOCK)[(a + i) % BLOCK])
  }

  function InodeTable(sb: SuperBlock): nat { (2 + sb.imapBlocks + sb.zmapBlocks) * BLOCK }

  function InodeOffset(sb: SuperBlock, num: nat): nat
    requires num > 0
  {
    InodeTable(sb) + (num - 1) * INODE_SIZE
  }

  function InodeBlock(sb: SuperBlock, num: nat): nat
    requires num > 0
  {
    InodeOffset(sb, num) / BLOCK
  }

  /** A record never straddles a block, lies where the flat layout says, fits 64-bit offsets, and
      different numbers have disjoint records. */
  lemma InodeRecord(disk: Disk, sb: SuperBlock, num: nat, other: nat)
    requires sb.ninodes < 0x1_0000_0000 && sb.imapBlocks < 0x1_0000 && sb.zmapBlocks < 0x1_0000
    requires 0 < num <= sb.ninodes && 0 < other <= sb.ninodes
    ensures var off := InodeOffset(sb, num); var within := off % BLOCK;
      && within + INODE_SIZE <= BLOCK && off + INODE_SIZE < 0x1_0000_0000_0000_0000
      && disk(off / BLOCK)[within..within + INODE_SIZE] == DiskSlice(disk, off, INODE_SIZE)
    ensures num != other ==>
      || InodeOffset(sb, num) + INODE_SIZE <= InodeOffset(sb, other)
      || InodeOffset(sb, other) + INODE_SIZE <= InodeOffset(sb, num)
  {
    hide InodeOffset, DiskSlice;
    OffsetIs(sb, num);
    OffsetIs(sb, other);
    SliceInBlock(disk, InodeOffset(sb, num));
  }

  lemma OffsetIs(sb: SuperBlock, num: nat)
    requires sb.ninodes < 0x1_0000_0000 && sb.imapBlocks < 0x1_0000 && sb.zmapBlocks < 0x1_0000 && 0 < num <= sb.ninodes
    ensures InodeOffset(sb, num) == InodeTable(sb) + (num - 1) * INODE_SIZE
    ensures InodeOffset(sb, num) % INODE_SIZE == 0 && InodeOffset(sb, num) + INODE_SIZE < 0x1_0000_0000_0000_0000
  {
    var x := (2 + sb.imapBlocks + sb.zmapBlocks) * 16 + (num - 1);
    assert InodeOffset(sb, num) == x * INODE_SIZE;
  }

  /** A 64-byte record at a multiple of 64 lies within one block. */
  lemma SliceInBlock(disk: Disk, off: nat)
    requires off % INODE_SIZE == 0
    ensures off % BLOCK + INODE_SIZE <= BLOCK
    ensures disk(off / BLOCK)[off % BLOCK..off % BLOCK + INODE_SIZE] == DiskSlice(disk, off, INODE_SIZE)
  {
    var z, within := off / BLOCK, off % BLOCK;
    assert within % INODE_SIZE == 0 && within + INODE_SIZE <= BLOCK;
    forall i | 0 <= i < INODE_SIZE
      ensures DiskSlice(disk, off, INODE_SIZE)[i] == disk(z)[within..within + INODE_SIZE][i]
    {
      InBlock(z, off + i);
    }
  }

  // ---------------------------------------------------------------- operations

  /** Take `k` scratch buffers, or return those already taken and report what went wrong. */
  method TakeBuffers(frames: PageFrames, k: nat) returns (b: Buffers, error: Option<ReadResult>)
    requires frames.Valid()
    modifies frames.table
    ensures fresh(b) && b.frames == frames
    ensures error.None? ==> b.Valid() && b.entry == old(frames.table[..]) && |b.starts| == k
    ensures error.Some? ==> error.value == Error(OutOfMemory) || error.value == Panicked
    ensures error == Some(Panicked) ==> FreeBeyond(frames.layout, old(frames.table[..]))
    ensures error == Some(Error(OutOfMemory)) ==> frames.table[..] == old(frames.table[..]) && frames.Valid()
    ensures old(RoomFor(frames, k)) ==> error.None? && forall i :: 0 <= i < k ==> b.addrs[i] < frames.layout.HeapEnd()
  {
    b := new Buffers(frames);
    ghost var t := frames.table[..];
    ghost var lucky := RoomFor(frames, k);
    ghost var room: nat := 0;
    if lucky {
      room :| HasRoom(frames.layout, t, k, room);
    }
    for j := 0 to k
      modifies b`addrs, b`starts, frames.table
      invariant b.Valid() && b.entry == t && |b.starts| == j
      invariant lucky ==> forall i :: 0 <= i < j ==> b.starts[i] < room
    {
      ghost var was := b.starts;
      var ok := b.New();
      if !ok {
        var back := b.Drop();
        return b, if back then Some(Error(OutOfMemory)) else Some(Panicked);
      }
      assert forall i :: 0 <= i < j ==> b.starts[i] == was[i];
    }
    error := None;
  }

  /** What a finished walk means for the caller. */
  function Outcome(step: Step, written: nat): ReadResult {
    match step
    case Go => Copied(written)
    case Stop => Copied(written)
    case Failed => Error(BlockReadFailed)
    case Underflowed => WentUnder
    case Overran => WentOver
    case Crashed => Panicked
  }

  /** The caller learns how the walk went. */
  predicate Answered(r: ReadResult) { !r.Error? && r != Panicked }

  /** The zones asked for are those computed, or the first of them when the call broke off. */
  ghost predicate Logged(was: seq<nat>, now: seq<nat>, zones: seq<nat>, done: bool) {
    was <= now <= was + zones && (done ==> now == was + zones)
  }

  /** There is nothing to read: the offset is at or behind the end of the file, or no bytes are asked for. */
  predicate EmptyWindow(n: Inode, offset: nat, cap: nat) { offset >= n.size || Want(n, offset, cap) == 0 }

  /** The zones a read of a file asks for. */
  ghost function Asks(disk: Disk, n: Inode, offset: nat, cap: nat): seq<nat>
    requires InodeOk(n)
  {
    if EmptyWindow(n, offset, cap) then []
    else Zones(FileTrail(disk, n, More(offset, []), offset + Want(n, offset, cap), cap))
  }

  /** Copy up to `out.Length` bytes of a file from `offset` on. Unless a block read fails or memory
      runs out, the result is the one computed for the walk: the count, the bytes, an untouched rest of the
      output, and the blocks asked for. Whatever happens short of a panic, the allocator's table is as before. */
  method ReadFile(drive: BlockDrive, n: Inode, offset: nat, out: array<byte>) returns (r: ReadResult)
    requires drive.frames.Valid() && InodeOk(n) && out as object != drive.frames.table
    modifies drive`log, drive.frames.table, out
    ensures r != Panicked ==> drive.frames.table[..] == old(drive.frames.table[..]) && drive.frames.Valid()
    ensures r == Panicked ==> FreeBeyond(drive.frames.layout, old(drive.frames.table[..]))
    ensures old(RoomFor(drive.frames, 4)) ==> r != Error(OutOfMemory)
    ensures old(RoomFor(drive.frames, 5)) ==> r != Panicked && (drive.reliable ==> r != Error(BlockReadFailed))
    ensures r.Error? ==> r.error == OutOfMemory || r.error == BlockReadFailed
    ensures EmptyWindow(n, offset, out.Length) ==> r == Copied(0) && out[..] == old(out[..])
    ensures !EmptyWindow(n, offset, out.Length) && Answered(r) ==>
      Reported(drive.disk, ReadChunks(drive.disk, n, offset, out.Length), old(out[..]), out[..], r)
    ensures Logged(old(drive.log), drive.log, Asks(drive.disk, n, offset, out.Length), Answered(r))
    ensures old(RoomFor(drive.frames, 5)) && drive.reliable && GoodWindow(drive.disk, n, offset, out.Length) ==>
      FlatRead(drive.disk, n, offset, old(out[..]), out[..], r)
  {
    hide ReadChunks, FileEvents, FileTrail, CopyAll, Reported, RoomIn, WellFormed, InodeOk, GoodWindow, FlatRead, Zones;
    hide FreeBeyond;
    GoodFacts(drive.disk, n, offset, out.Length);
    FewerWillDo(drive.frames.layout, drive.frames.table[..], 5, 4);
    if offset >= n.size {
      return Copied(0);
    }
    var want := Want(n, offset, out.Length);
    if want == 0 {
      return Copied(0);
    }
    ReadChunksIs(drive.disk, n, offset, out.Length);
    ghost var before := out[..];
    r := ReadScoped(drive, n, offset, offset + want, out);
    if Answered(r) && GoodWindow(drive.disk, n, offset, out.Length) {
      GoodIsFlat(drive.disk, n, offset, before, out[..], r);
    }
  }

  /** The file is sound where it is read: the condition under which reads are faithful. */
  ghost predicate GoodWindow(disk: Disk, n: Inode, offset: nat, cap: nat)
    requires InodeOk(n)
  {
    && offset < n.size && Want(n, offset, cap) > 0
    && Readable(disk, n, offset, offset + Want(n, offset, cap))
  }

  lemma GoodFacts(disk: Disk, n: Inode, offset: nat, cap: nat)
    requires InodeOk(n)
    ensures GoodWindow(disk, n, offset, cap) ==> offset < n.size && Want(n, offset, cap) > 0
  {
  }

  /** The answer is the number of bytes asked for, and the output begins with that slice of the flat file. */
  ghost predicate FlatRead(disk: Disk, n: Inode, offset: nat, before: seq<byte>, after: seq<byte>, r: ReadResult)
    requires InodeOk(n)
  {
    && offset < n.size && |after| == |before|
    && var want := Want(n, offset, |before|);
    && r == Copied(want) && want <= |after| && offset + want <= MAX_BLOCKS * BLOCK
    && after == FileSlice(disk, n, offset, offset + want) + before[want..]
  }

  lemma GoodIsFlat(disk: Disk, n: Inode, offset: nat, before: seq<byte>, after: seq<byte>, r: ReadResult)
    requires InodeOk(n) && GoodWindow(disk, n, offset, |before|)
    requires Reported(disk, ReadChunks(disk, n, offset, |before|), before, after, r)
    ensures FlatRead(disk, n, offset, before, after, r)
  {
    var end := offset + Want(n, offset, |before|);
    assert Window(n, offset, |before|, end);
    hide ReadChunks, Readable, Window, Faithful, FileSlice, Bytes, Length, InodeOk, Reported;
    ReadFaithfulIff(disk, n, offset, |before|, end);
    var p := ReadChunks(disk, n, offset, |before|);
    FaithfulBytes(disk, n, p, offset, end);
    ReportedFull(disk, p, before, after, r);
  }

  lemma ReportedFull(disk: Disk, p: Progress, before: seq<byte>, after: seq<byte>, r: ReadResult)
    requires p.Full? && Reported(disk, p, before, after, r)
    ensures Delivered(disk, p.chunks, before, after, r)
  {
  }

  /** A nonempty window, with the four scratch buffers taken before and returned after. */
  method ReadScoped(drive: BlockDrive, n: Inode, offset: nat, end: nat, out: array<byte>) returns (r: ReadResult)
    requires drive.frames.Valid() && InodeOk(n) && offset < end && out as object != drive.frames.table
    modifies drive`log, drive.frames.table, out
    ensures r != Panicked ==> drive.frames.table[..] == old(drive.frames.table[..]) && drive.frames.Valid()
    ensures r == Panicked ==> FreeBeyond(drive.frames.layout, old(drive.frames.table[..]))
    ensures old(RoomFor(drive.frames, 4)) ==> r != Error(OutOfMemory)
    ensures old(RoomFor(drive.frames, 5)) ==> r != Panicked && (drive.reliable ==> r != Error(BlockReadFailed))
    ensures r.Error? ==> r.error == OutOfMemory || r.error == BlockReadFailed
    ensures Answered(r) ==>
      Reported(drive.disk, CopyAll(More(offset, []), FileEvents(drive.disk, n), end, out.Length), old(out[..]), out[..],
               r)
    ensures Logged(old(drive.log), drive.log, Zones(FileTrail(drive.disk, n, More(offset, []), end, out.Length)),
                   Answered(r))
  {
    hide FileEvents, FileTrail, Zones, CopyAll, Reported, RoomIn, WellFormed, FreeChain, TakeAll, InodeOk, NoPage;
    hide PastEnd, FreeBeyond;
    ghost var l, t := drive.frames.layout, drive.frames.table[..];
    var b, error := TakeBuffers(drive.frames, 4);
    if error.Some? {
      FewerWillDo(l, t, 5, 4);
      return error.value;
    }
    BesideBuffers(l, t, b.starts, drive.frames.table[..]);
    r := ReadWindow(drive, n, offset, end, out);
    if r != Panicked {
      assert b.Valid();
      var back := b.Drop();
      if !back {
        r := Panicked;
      }
    }
  }

  /** With buffers in hand the allocator is still sound, and one page more than them is room for a request. */
  lemma BesideBuffers(l: Layout, t: seq<bv8>, starts: seq<nat>, now: seq<bv8>)
    requires WellFormed(t) && FreeChain(t, starts) && now == TakeAll(t, starts)
    ensures WellFormed(now)
    ensures (RoomIn(l, t, |starts| + 1) ==> RoomIn(l, t, |starts|) && !NoPage(now) && !PastEnd(l, now))
    ensures PastEnd(l, now) ==> FreeBeyond(l, t)
  {
    RequestBeyond(l, t, starts);
    hide WellFormed, FreeChain, TakeAll, RoomIn, NoPage, PastEnd;
    TakeAllWellFormed(t, starts);
    if RoomIn(l, t, |starts| + 1) {
      RoomBeside(l, t, starts, 1);
      RoomForRequest(l, now);
      FewerWillDo(l, t, |starts| + 1, |starts|);
    }
  }

  lemma RequestBeyond(l: Layout, t: seq<bv8>, starts: seq<nat>)
    requires FreeChain(t, starts)
    ensures PastEnd(l, TakeAll(t, starts)) ==> FreeBeyond(l, t)
  {
    var now := TakeAll(t, starts);
    hide FreeChain, TakeAll;
    if PastEnd(l, now) {
      FreeBefore(t, starts, FirstFit(now, 1, 0).value);
    }
  }

  /** The walk itself, into the output. */
  method ReadWindow(drive: BlockDrive, n: Inode, offset: nat, end: nat, out: array<byte>) returns (r: ReadResult)
    requires drive.frames.Valid() && InodeOk(n) && offset < end && out as object != drive.frames.table
    modifies drive`log, drive.frames.table, out
    ensures r != Panicked ==> drive.frames.table[..] == old(drive.frames.table[..]) && drive.frames.Valid()
    ensures r == Panicked ==> PastEnd(drive.frames.layout, old(drive.frames.table[..]))
    ensures r.Error? ==> r.error == BlockReadFailed && (NoPage(old(drive.frames.table[..])) || !drive.reliable)
    ensures Answered(r) ==>
      Reported(drive.disk, CopyAll(More(offset, []), FileEvents(drive.disk, n), end, out.Length), old(out[..]), out[..],
               r)
    ensures Logged(old(drive.log), drive.log, Zones(FileTrail(drive.disk, n, More(offset, []), end, out.Length)),
                   Answered(r))
  {
    hide FileEvents, FileTrail, Zones, CopyAll, Bytes, Length, InodeOk, NoPage, PastEnd, WellFormed;
    var reader := new FileReader(drive, out, offset, end);
    var step := reader.Walk(n);
    assert out[..] == out[..reader.written] + out[reader.written..];
    r := Outcome(step, reader.written);
  }

  /** What the caller sees of a walk. */
  ghost predicate Reported(disk: Disk, p: Progress, before: seq<byte>, after: seq<byte>, r: ReadResult) {
    match p
    case Underflow => r == WentUnder
    case Overrun => r == WentOver
    case More(_, chunks) => Delivered(disk, chunks, before, after, r)
    case Full(chunks) => Delivered(disk, chunks, before, after, r)
  }

  lemma ReadChunksIs(disk: Disk, n: Inode, offset: nat, cap: nat)
    requires InodeOk(n) && offset < n.size && Want(n, offset, cap) > 0
    ensures ReadChunks(disk, n, offset, cap)
         == CopyAll(More(offset, []), FileEvents(disk, n), offset + Want(n, offset, cap), cap)
  {
    hide FileEvents, CopyAll;
  }

  /** What a caller who only gets a count learns: nothing from an empty window, otherwise how the walk went; and zero
      when the read failed, which `sure` rules out. */
  ghost predicate FileAnswer(disk: Disk, n: Inode, offset: nat, before: seq<byte>, after: seq<byte>, sure: bool,
                             r: ReadResult)
    requires InodeOk(n)
  {
    if EmptyWindow(n, offset, |before|) then r == Copied(0) && after == before
    else Reported(disk, ReadChunks(disk, n, offset, |before|), before, after, r) || (r == Copied(0) && !sure)
  }

  /** Reading that file from there goes wrong. */
  ghost predicate ReadBreaks(disk: Disk, n: Inode, offset: nat, cap: nat)
    requires InodeOk(n)
  {
    !EmptyWindow(n, offset, cap) && !SafeWalk(FileEvents(disk, n), offset, offset + Want(n, offset, cap), cap)
  }

  /** There is a count for every read that does not go wrong, and, unless a read fails first, for no other. */
  lemma AnswerIff(disk: Disk, n: Inode, offset: nat, before: seq<byte>, after: seq<byte>, sure: bool, r: ReadResult)
    requires InodeOk(n) && FileAnswer(disk, n, offset, before, after, sure, r)
    ensures !r.Copied? ==> ReadBreaks(disk, n, offset, |before|)
    ensures sure && ReadBreaks(disk, n, offset, |before|) ==> !r.Copied?
  {
    hide ReadChunks, SafeWalk, FileEvents, InodeOk, Reported, GoesWrong;
    if !EmptyWindow(n, offset, |before|) {
      var end := offset + Want(n, offset, |before|);
      ReadSafeIff(disk, n, offset, |before|, end);
      var p := ReadChunks(disk, n, offset, |before|);
      if Reported(disk, p, before, after, r) {
        ReportedWrong(disk, p, before, after, r);
      }
    }
  }

  lemma ReportedWrong(disk: Disk, p: Progress, before: seq<byte>, after: seq<byte>, r: ReadResult)
    requires Reported(disk, p, before, after, r)
    ensures r.Copied? <==> !GoesWrong(p)
  {
    hide Bytes, Length;
  }

  /** The bytes of the chunks are at the front of the output, the rest of it is untouched. */
  ghost predicate Delivered(disk: Disk, chunks: seq<Chunk>, before: seq<byte>, after: seq<byte>, r: ReadResult) {
    && (forall c :: c in chunks ==> c.from + c.len <= BLOCK)
    && |after| == |before| && Length(chunks) <= |after|
    && r == Copied(Length(chunks))
    && after == Bytes(disk, chunks) + before[Length(chunks)..]
  }

  /** Read one block through a scratch buffer of its own. */
  method FetchBlock(drive: BlockDrive, zone: nat) returns (r: Lookup<seq<byte>>)
    requires drive.frames.Valid()
    modifies drive`log, drive.frames.table
    ensures r != LookupPanic ==> drive.frames.table[..] == old(drive.frames.table[..]) && drive.frames.Valid()
    ensures r == LookupPanic ==> FreeBeyond(drive.frames.layout, old(drive.frames.table[..]))
    ensures old(RoomFor(drive.frames, 1)) ==> r != NotFound(OutOfMemory)
    ensures old(RoomFor(drive.frames, 2)) ==> r != LookupPanic && (drive.reliable ==> r != NotFound(BlockReadFailed))
    ensures r.Found? ==> r.value == drive.disk(zone)
    ensures r.NotFound? ==> r.error == OutOfMemory || r.error == BlockReadFailed
    ensures Logged(old(drive.log), drive.log, [zone], r != NotFound(OutOfMemory) && r != LookupPanic)
    ensures r == NotFound(OutOfMemory) ==> drive.log == old(drive.log)
  {
    hide RoomIn, WellFormed, FreeChain, TakeAll, NoPage, PastEnd, FreeBeyond;
    ghost var l, t := drive.frames.layout, drive.frames.table[..];
    var b, error := TakeBuffers(drive.frames, 1);
    if error.Some? {
      FewerWillDo(l, t, 2, 1);
      return if error.value == Panicked then LookupPanic else NotFound(OutOfMemory);
    }
    BesideBuffers(l, t, b.starts, drive.frames.table[..]);
    var buf := new byte[BLOCK];
    var got := drive.Read(zone, buf);
    if got == Lost {
      return LookupPanic;
    }
    assert b.Valid();
    var back := b.Drop();
    if !back {
      return LookupPanic;
    }
    return if got == Refused then NotFound(BlockReadFailed) else Found(buf[..]);
  }

  /** Read the superblock from block 1 and accept it by its magic. */
  method Mount(drive: BlockDrive) returns (r: Lookup<SuperBlock>)
    requires drive.frames.Valid()
    modifies drive`log, drive.frames.table
    ensures r != LookupPanic ==> drive.frames.table[..] == old(drive.frames.table[..]) && drive.frames.Valid()
    ensures r == LookupPanic ==> FreeBeyond(drive.frames.layout, old(drive.frames.table[..]))
    ensures old(RoomFor(drive.frames, 1)) ==> r != NotFound(OutOfMemory)
    ensures old(RoomFor(drive.frames, 2)) ==> r != LookupPanic && (drive.reliable ==> r != NotFound(BlockReadFailed))
    ensures r.Found? ==> r.value == ParseSuper(drive.disk(1)) && r.value.magic == MAGIC
    ensures r == NotFound(BadMagic) ==> ParseSuper(drive.disk(1)).magic != MAGIC
    ensures r.NotFound? ==> r.error in {OutOfMemory, BlockReadFailed, BadMagic}
    ensures Logged(old(drive.log), drive.log, [1], r != NotFound(OutOfMemory) && r != LookupPanic)
    ensures r == NotFound(OutOfMemory) ==> drive.log == old(drive.log)
  {
    hide RoomIn, WellFormed, ParseSuper, FreeBeyond;
    var blk := FetchBlock(drive, 1);
    match blk
    case NotFound(error) => return NotFound(error);
    case LookupPanic => return LookupPanic;
    case Found(bytes) =>
      var sb := ParseSuper(bytes);
      return if sb.magic != MAGIC then NotFound(BadMagic) else Found(sb);
  }

  lemma WholeBlocks(off: nat)
    ensures (off - off % BLOCK) / BLOCK == off / BLOCK
  {
  }

  /** Read inode `num`: exactly the numbers 1 to `ninodes` exist, the record is the 64 bytes at its
      flat disk offset, and only the block they lie in is asked for. */
  method ReadInode(drive: BlockDrive, sb: SuperBlock, num: nat) returns (r: Lookup<Inode>)
    requires drive.frames.Valid() && sb.ninodes < 0x1_0000_0000 && sb.imapBlocks < 0x1_0000 && sb.zmapBlocks < 0x1_0000
    modifies drive`log, drive.frames.table
    ensures r != LookupPanic ==> drive.frames.table[..] == old(drive.frames.table[..]) && drive.frames.Valid()
    ensures r == LookupPanic ==> FreeBeyond(drive.frames.layout, old(drive.frames.table[..]))
    ensures old(RoomFor(drive.frames, 1)) ==> r != NotFound(OutOfMemory)
    ensures old(RoomFor(drive.frames, 2)) ==> r != LookupPanic && (drive.reliable ==> r != NotFound(BlockReadFailed))
    ensures r == NotFound(InodeOutOfRange) <==> num == 0 || num > sb.ninodes
    ensures r.NotFound? ==> r.error in {OutOfMemory, BlockReadFailed, InodeOutOfRange}
    ensures r.Found? ==> num > 0 && r.value == ParseInode(DiskSlice(drive.disk, InodeOffset(sb, num), INODE_SIZE))
    ensures r == NotFound(InodeOutOfRange) || r == NotFound(OutOfMemory) ==> drive.log == old(drive.log)
    ensures 0 < num <= sb.ninodes ==> Logged(old(drive.log), drive.log, [InodeBlock(sb, num)],
                                             r != NotFound(OutOfMemory) && r != LookupPanic)
  {
    hide RoomIn, WellFormed, ParseInode, DiskSlice, FreeBeyond;
    if num == 0 || num > sb.ninodes {
      return NotFound(InodeOutOfRange);
    }
    var off := InodeTable(sb) + (num - 1) * INODE_SIZE;
    var within := off % BLOCK;
    InodeRecord(drive.disk, sb, num, num);
    WholeBlocks(off);
    assert InodeOffset(sb, num) == off;
    hide InodeTable, InodeOffset;
    var blk := FetchBlock(drive, (off - within) / BLOCK);
    match blk
    case NotFound(error) => return NotFound(error);
    case LookupPanic => return LookupPanic;
    case Found(bytes) => return Found(ParseInode(bytes[within..within + INODE_SIZE]));
  }

  /** The disk holds a file system with an inode of that number. */
  predicate Named(disk: Disk, num: nat) {
    ParseSuper(disk(1)).magic == MAGIC && 0 < num <= ParseSuper(disk(1)).ninodes
  }

  /** The zones asked for to find inode `num` and read from its file. */
  ghost function FileAsks(disk: Disk, sb: SuperBlock, num: nat, offset: nat, cap: nat): seq<nat>
    requires num > 0
  {
    [InodeBlock(sb, num)] + Asks(disk, ParseInode(DiskSlice(disk, InodeOffset(sb, num), INODE_SIZE)), offset, cap)
  }

  /** The zones a read system call asks for. */
  ghost function SysAsks(disk: Disk, num: nat, offset: nat, cap: nat): seq<nat> {
    if Named(disk, num) then [1] + FileAsks(disk, ParseSuper(disk(1)), num, offset, cap) else [1]
  }

  lemma LoggedJoin(was: seq<nat>, mid: seq<nat>, now: seq<nat>, a: seq<nat>, b: seq<nat>, done: bool)
    requires Logged(was, mid, a, true) && Logged(mid, now, b, done)
    ensures Logged(was, now, a + b, done)
  {
    assert was + (a + b) == (was + a) + b;
  }

  /** Broken off in the first part. */
  lemma LoggedFirst(was: seq<nat>, mid: seq<nat>, a: seq<nat>, b: seq<nat>)
    requires Logged(was, mid, a, false)
    ensures Logged(was, mid, a + b, false)
  {
    assert was + (a + b) == (was + a) + b;
  }

  /** Find inode `num` and read from its file. */
  method ReadNumbered(drive: BlockDrive, sb: SuperBlock, num: nat, offset: nat, out: array<byte>)
    returns (r: ReadResult)
    requires drive.frames.Valid() && out as object != drive.frames.table
    requires sb.ninodes < 0x1_0000_0000 && sb.imapBlocks < 0x1_0000 && sb.zmapBlocks < 0x1_0000
    modifies drive`log, drive.frames.table, out
    ensures !r.Error?
    ensures r != Panicked ==> drive.frames.table[..] == old(drive.frames.table[..]) && drive.frames.Valid()
    ensures r == Panicked ==> FreeBeyond(drive.frames.layout, old(drive.frames.table[..]))
    ensures old(RoomFor(drive.frames, 5)) ==> r != Panicked
    ensures num == 0 || num > sb.ninodes ==> r == Copied(0) && out[..] == old(out[..]) && drive.log == old(drive.log)
    ensures 0 < num <= sb.ninodes ==>
      Logged(old(drive.log), drive.log, FileAsks(drive.disk, sb, num, offset, out.Length),
             old(RoomFor(drive.frames, 5)) && drive.reliable)
    ensures 0 < num <= sb.ninodes && r != Panicked ==>
      FileAnswer(drive.disk, ParseInode(DiskSlice(drive.disk, InodeOffset(sb, num), INODE_SIZE)), offset, old(out[..]),
                 out[..], old(RoomFor(drive.frames, 5)) && drive.reliable, r)
    ensures old(RoomFor(drive.frames, 5)) && drive.reliable && 0 < num <= sb.ninodes ==>
      var n := ParseInode(DiskSlice(drive.disk, InodeOffset(sb, num), INODE_SIZE));
      GoodWindow(drive.disk, n, offset, out.Length) ==> FlatRead(drive.disk, n, offset, old(out[..]), out[..], r)
  {
    hide RoomIn, WellFormed, GoodWindow, FlatRead, Reported, InodeOk, Asks, InodeOffset, InodeBlock, ParseInode;
    hide DiskSlice, Logged, ReadChunks, FreeBeyond;
    ghost var l, t, log0, cap := drive.frames.layout, drive.frames.table[..], drive.log, out.Length;
    RoomForAll(l, t);
    var node := ReadInode(drive, sb, num);
    if !node.Found? {
      if 0 < num <= sb.ninodes {
        NodeLost(drive.disk, sb, num, offset, cap, log0, drive.log, node.NotFound? && node.error != OutOfMemory);
      }
      return if node == LookupPanic then Panicked else Copied(0);
    }
    ghost var log1 := drive.log;
    r := ReadFile(drive, node.value, offset, out);
    LoggedJoin(log0, log1, drive.log, [InodeBlock(sb, num)], Asks(drive.disk, node.value, offset, cap), Answered(r));
    LoggedLess(log0, drive.log, FileAsks(drive.disk, sb, num, offset, cap), Answered(r),
               RoomIn(l, t, 5) && drive.reliable);
    if r.Error? {
      r := Copied(0);
    }
  }

  lemma LoggedLess(was: seq<nat>, now: seq<nat>, zones: seq<nat>, done: bool, less: bool)
    requires Logged(was, now, zones, done) && (less ==> done)
    ensures Logged(was, now, zones, less)
  {
  }

  lemma NodeLost(disk: Disk, sb: SuperBlock, num: nat, offset: nat, cap: nat, was: seq<nat>, now: seq<nat>, done: bool)
    requires num > 0 && Logged(was, now, [InodeBlock(sb, num)], done)
    ensures Logged(was, now, FileAsks(disk, sb, num, offset, cap), false)
  {
    hide InodeBlock, Asks, ParseInode, InodeOffset;
    var n := ParseInode(DiskSlice(disk, InodeOffset(sb, num), INODE_SIZE));
    LoggedFirst(was, now, [InodeBlock(sb, num)], Asks(disk, n, offset, cap));
  }

  /** The read system call: mount, find the inode, read; every failure answers zero bytes. */
  method SysRead(drive: BlockDrive, num: nat, offset: nat, out: array<byte>) returns (r: ReadResult)
    requires drive.frames.Valid() && out as object != drive.frames.table
    modifies drive`log, drive.frames.table, out
    ensures !r.Error?
    ensures r != Panicked ==> drive.frames.table[..] == old(drive.frames.table[..]) && drive.frames.Valid()
    ensures r == Panicked ==> FreeBeyond(drive.frames.layout, old(drive.frames.table[..]))
    ensures old(RoomFor(drive.frames, 5)) ==> r != Panicked
    ensures Logged(old(drive.log), drive.log, SysAsks(drive.disk, num, offset, out.Length),
                   old(RoomFor(drive.frames, 5)) && drive.reliable)
    ensures !Named(drive.disk, num) ==> (r == Copied(0) && out[..] == old(out[..])) || r == Panicked
    ensures Named(drive.disk, num) && r != Panicked ==>
      FileAnswer(drive.disk, InodeAt(drive.disk, num), offset, old(out[..]), out[..],
                 old(RoomFor(drive.frames, 5)) && drive.reliable, r)
    ensures old(RoomFor(drive.frames, 5)) && drive.reliable && Named(drive.disk, num) ==>
      var n := InodeAt(drive.disk, num);
      GoodWindow(drive.disk, n, offset, out.Length) ==> FlatRead(drive.disk, n, offset, old(out[..]), out[..], r)
  {
    hide RoomIn, WellFormed, ParseSuper, GoodWindow, FlatRead, InodeOk, InodeOffset, ParseInode, DiskSlice, FileAsks;
    hide Logged, FreeBeyond;
    ghost var l, t, log0, cap := drive.frames.layout, drive.frames.table[..], drive.log, out.Length;
    RoomForAll(l, t);
    var fs := Mount(drive);
    ghost var log1, sure := drive.log, RoomIn(l, t, 5) && drive.reliable;
    if !fs.Found? {
      ghost var bad := fs == NotFound(BadMagic);
      MountLost(drive.disk, num, offset, cap, log0, log1, fs.NotFound? && fs.error != OutOfMemory, bad);
      LoggedLess(log0, log1, SysAsks(drive.disk, num, offset, cap), bad, sure);
      return if fs == LookupPanic then Panicked else Copied(0);
    }
    SuperFields(drive.disk);
    r := ReadNumbered(drive, fs.value, num, offset, out);
    if Named(drive.disk, num) {
      LoggedJoin(log0, log1, drive.log, [1], FileAsks(drive.disk, fs.value, num, offset, cap), sure);
    } else {
      LoggedLess(log0, log1, [1], true, sure);
    }
  }

  lemma MountLost(disk: Disk, num: nat, offset: nat, cap: nat, was: seq<nat>, now: seq<nat>, done: bool, bad: bool)
    requires Logged(was, now, [1], done) && (bad ==> done && ParseSuper(disk(1)).magic != MAGIC)
    ensures Logged(was, now, SysAsks(disk, num, offset, cap), bad)
  {
    hide FileAsks, ParseSuper;
    if Named(disk, num) {
      LoggedFirst(was, now, [1], FileAsks(disk, ParseSuper(disk(1)), num, offset, cap));
    }
  }

  lemma RoomForAll(l: Layout, t: seq<bv8>)
    ensures RoomIn(l, t, 5) ==> RoomIn(l, t, 4) && RoomIn(l, t, 2) && RoomIn(l, t, 1)
  {
    hide RoomIn;
    FewerWillDo(l, t, 5, 4);
    FewerWillDo(l, t, 5, 2);
    FewerWillDo(l, t, 5, 1);
  }

  /** Inode `num` of the file system on the disk. */
  function InodeAt(disk: Disk, num: nat): (n: Inode)
    requires num > 0
    ensures InodeOk(n)
  {
    ParseInode(DiskSlice(disk, InodeOffset(ParseSuper(disk(1)), num), INODE_SIZE))
  }

  lemma SuperFields(disk: Disk)
    ensures var sb := ParseSuper(disk(1));
      sb.ninodes < 0x1_0000_0000 && sb.imapBlocks < 0x1_0000 && sb.zmapBlocks < 0x1_0000
  {
  }
}
