/** Minix 3 files: where the blocks of a file are, and what one `read_file` walk copies. */
module Minix3 {

  const BLOCK: nat := 1024
  const PTRS: nat := 256
  const DIRECT: nat := 7

  type byte = x: int | 0 <= x < 256
  type Block = b: seq<byte> | |b| == BLOCK witness seq(BLOCK, _ => 0)
  /** The device by zone number. */
  type Disk = nat -> Block

  /** The fields of an inode the reader uses: seven direct zones, then one pointer per depth 1, 2, 3. */
  datatype Inode = Inode(size: nat, zones: seq<nat>)

  predicate InodeOk(n: Inode) { n.size < 0x1_0000_0000 && |n.zones| == 10 }

  /** The `i`-th little-endian 32-bit pointer of an indirect block. */
  function Ptr(b: Block, i: nat): (p: nat)
    requires i < PTRS
    ensures p < 0x1_0000_0000
  {
    var b0: int, b1: int, b2: int, b3: int := b[4 * i], b[4 * i + 1], b[4 * i + 2], b[4 * i + 3];
    b0 + 0x100 * b1 + 0x1_0000 * b2 + 0x100_0000 * b3
  }

  /** Blocks below a pointer of a depth. */
  function Cap(depth: nat): (c: nat)
    requires depth <= 3
    ensures c > 0 && (depth > 0 ==> c == PTRS * Cap(depth - 1))
  {
    if depth == 0 then 1 else if depth == 1 then 256 else if depth == 2 then 0x1_0000 else 0x100_0000
  }

  /** Index of the first block below entry `i` of a pointer block, and its inverse. */
  function Off(depth: nat, i: nat): nat
    requires 0 < depth <= 3
  {
    if depth == 1 then i else if depth == 2 then 256 * i else 0x1_0000 * i
  }

  function Quot(depth: nat, k: nat): (i: nat)
    requires 0 < depth <= 3
    ensures k < Cap(depth) ==> i < PTRS
    ensures Off(depth, i) <= k < Off(depth, i) + Cap(depth - 1)
  {
    if depth == 1 then k else if depth == 2 then k / 256 else k / 0x1_0000
  }

  // ---------------------------------------------------------------- the walk

  /** A data-zone pointer met on the walk, with the file offset the walk gives it. */
  datatype Event = Event(zone: nat, start: nat)

  /** The events below a pointer, the walk standing at `start`: a zero pointer of depth 0 is an event, a higher one has
      none. */
  function Leaves(disk: Disk, z: nat, depth: nat, start: nat): seq<Event>
    requires depth <= 3
    decreases depth, PTRS + 1
  {
    if depth == 0 then [Event(z, start)]
    else if z == 0 then []
    else LeavesFrom(disk, z, depth, start, 0)
  }

  /** The same for the entries from `i` on of a pointer block. */
  function LeavesFrom(disk: Disk, z: nat, depth: nat, start: nat, i: nat): seq<Event>
    requires 0 < depth <= 3 && i <= PTRS
    decreases depth, PTRS - i
  {
    if i == PTRS then []
    else
      Leaves(disk, Ptr(disk(z), i), depth - 1, start)
      + LeavesFrom(disk, z, depth, start + Cap(depth - 1) * BLOCK, i + 1)
  }

  function DirectEvents(n: Inode, i: nat): seq<Event>
    requires InodeOk(n) && i <= DIRECT
    decreases DIRECT - i
  {
    if i == DIRECT then [] else [Event(n.zones[i], i * BLOCK)] + DirectEvents(n, i + 1)
  }

  /** Where the triple-indirect walk believes it starts: a missing double-indirect pointer does not
      advance the offset. */
  function TripleStart(n: Inode): nat
    requires InodeOk(n)
  {
    (DIRECT + Cap(1) + (if n.zones[8] != 0 then Cap(2) else 0)) * BLOCK
  }

  function FileEvents(disk: Disk, n: Inode): seq<Event>
    requires InodeOk(n)
  {
    DirectEvents(n, 0)
    + Leaves(disk, n.zones[7], 1, DIRECT * BLOCK)
    + Leaves(disk, n.zones[8], 2, (DIRECT + Cap(1)) * BLOCK)
    + Leaves(disk, n.zones[9], 3, TripleStart(n))
  }

  // ---------------------------------------------------------------- copying

  /** Bytes copied from one data block: `len` bytes from offset `from` in the block at file offset `start`. */
  datatype Chunk = Chunk(zone: nat, start: nat, from: nat, len: nat)

  function Length(chunks: seq<Chunk>): nat {
    if chunks == [] then 0 else Length(chunks[..|chunks|-1]) + chunks[|chunks|-1].len
  }

  function Bytes(disk: Disk, chunks: seq<Chunk>): (s: seq<byte>)
    requires forall c :: c in chunks ==> c.from + c.len <= BLOCK
    ensures |s| == Length(chunks)
  {
    if chunks == [] then []
    else
      var c := chunks[|chunks|-1];
      assert c in chunks;
      Bytes(disk, chunks[..|chunks|-1]) + disk(c.zone)[c.from..c.from + c.len]
  }

  /** Progress of a read: going on at file offset `cur`, finished, or one of the two ways the code
      goes wrong: an offset before the block (unsigned underflow), or a copy past the output. */
  datatype Progress = More(cur: nat, chunks: seq<Chunk>) | Full(chunks: seq<Chunk>) | Underflow | Overrun

  function Min(a: nat, b: nat): nat { if a < b then a else b }
  function Max(a: nat, b: nat): nat { if a < b then b else a }

  /** One data zone. A zero zone moves the offset unconditionally; a block before the offset is
      skipped; otherwise the part of the block from the offset to the end is copied. */
  function CopyZone(e: Event, cur: nat, chunks: seq<Chunk>, end: nat, cap: nat): Progress
    requires cur < end
  {
    if e.zone == 0 then
      if e.start + BLOCK < end then More(e.start + BLOCK, chunks) else Full(chunks)
    else if e.start + BLOCK <= cur then More(cur, chunks)
    else if cur < e.start then Underflow
    else
      var from := cur - e.start;
      var len := Min(BLOCK - from, end - cur);
      if Length(chunks) + len > cap then Overrun
      else if cur + len < end then More(cur + len, chunks + [Chunk(e.zone, e.start, from, len)])
      else Full(chunks + [Chunk(e.zone, e.start, from, len)])
  }

  function StepZone(p: Progress, e: Event, end: nat, cap: nat): Progress {
    if p.More? && p.cur < end then CopyZone(e, p.cur, p.chunks, end, cap) else p
  }

  function CopyAll(p: Progress, events: seq<Event>, end: nat, cap: nat): Progress
    decreases events
  {
    if events == [] then p else CopyAll(StepZone(p, events[0], end, cap), events[1..], end, cap)
  }

  /** Bytes asked for; the buffer length is truncated to 32 bits. */
  function Want(n: Inode, offset: nat, cap: nat): nat
    requires offset < n.size
  {
    Min(cap % 0x1_0000_0000, n.size - offset)
  }

  /** The whole read of a nonempty window. */
  function ReadChunks(disk: Disk, n: Inode, offset: nat, cap: nat): Progress
    requires InodeOk(n) && offset < n.size && Want(n, offset, cap) > 0
  {
    CopyAll(More(offset, []), FileEvents(disk, n), offset + Want(n, offset, cap), cap)
  }

  lemma {:induction false} CopyAllConcat(p: Progress, a: seq<Event>, b: seq<Event>, end: nat, cap: nat)
    ensures CopyAll(p, a + b, end, cap) == CopyAll(CopyAll(p, a, end, cap), b, end, cap)
    decreases a
  {
    if a == [] {
      assert a + b == b;
    } else {
      assert (a + b)[0] == a[0] && (a + b)[1..] == a[1..] + b;
      CopyAllConcat(StepZone(p, a[0], end, cap), a[1..], b, end, cap);
    }
  }

  lemma {:induction false} CopyAllDone(p: Progress, a: seq<Event>, end: nat, cap: nat)
    requires !p.More?
    ensures CopyAll(p, a, end, cap) == p
    decreases a
  {
    if a != [] {
      CopyAllDone(p, a[1..], end, cap);
    }
  }

  // ---------------------------------------------------------------- where the blocks of a file are

  /** The pointers on the way to block `k` below a pointer are nonzero (the last one, the data zone
      itself, may be zero). */
  predicate Reach(disk: Disk, z: nat, depth: nat, k: nat)
    requires depth <= 3 && k < Cap(depth)
    decreases depth
  {
    depth == 0 || (z != 0 && Reach(disk, Ptr(disk(z), Quot(depth, k)), depth - 1, k - Off(depth, Quot(depth, k))))
  }

  function LeafZone(disk: Disk, z: nat, depth: nat, k: nat): nat
    requires depth <= 3 && k < Cap(depth)
    decreases depth
  {
    if depth == 0 then z else LeafZone(disk, Ptr(disk(z), Quot(depth, k)), depth - 1, k - Off(depth, Quot(depth, k)))
  }

  /** The Minix 3 block map: which depth serves block `b`, from which zone slot and at which index. */
  function Slot(b: nat): (nat, nat, nat) {
    if b < DIRECT then (b, 0, 0)
    else if b < DIRECT + Cap(1) then (7, 1, b - DIRECT)
    else if b < DIRECT + Cap(1) + Cap(2) then (8, 2, b - DIRECT - Cap(1))
    else (9, 3, b - DIRECT - Cap(1) - Cap(2))
  }

  const MAX_BLOCKS: nat := DIRECT + 256 + 0x1_0000 + 0x100_0000

  predicate BlockReached(disk: Disk, n: Inode, b: nat)
    requires InodeOk(n) && b < MAX_BLOCKS
  {
    var (s, d, k) := Slot(b);
    Reach(disk, n.zones[s], d, k)
  }

  function BlockZone(disk: Disk, n: Inode, b: nat): nat
    requires InodeOk(n) && b < MAX_BLOCKS
  {
    var (s, d, k) := Slot(b);
    LeafZone(disk, n.zones[s], d, k)
  }

  /** The flat file: byte `x` of the concatenated blocks. */
  function FileByte(disk: Disk, n: Inode, x: nat): byte
    requires InodeOk(n) && x / BLOCK < MAX_BLOCKS
  {
    disk(BlockZone(disk, n, x / BLOCK))[x % BLOCK]
  }
}
