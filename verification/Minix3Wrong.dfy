/** Files on which a read goes wrong. */
module Minix3Wrong {
  import opened Minix3
  import opened Minix3Proofs
  import opened Minix3Exact
  import opened Minix3Walk
  import opened Minix3Faithful

  lemma StepDirect(n: Inode, i: nat, rest: seq<Event>, p: Progress, end: nat, cap: nat)
    requires InodeOk(n) && i < DIRECT
    ensures CopyAll(p, DirectEvents(n, i) + rest, end, cap)
         == CopyAll(StepZone(p, Event(n.zones[i], i * BLOCK), end, cap), DirectEvents(n, i + 1) + rest, end, cap)
  {
    var e := Event(n.zones[i], i * BLOCK);
    var all := DirectEvents(n, i) + rest;
    assert all[0] == e && all[1..] == DirectEvents(n, i + 1) + rest;
  }

  /** What follows the direct blocks on the walk. */
  ghost function Indirect(disk: Disk, n: Inode): seq<Event>
    requires InodeOk(n)
  {
    Leaves(disk, n.zones[7], 1, DIRECT * BLOCK)
    + (Leaves(disk, n.zones[8], 2, (DIRECT + Cap(1)) * BLOCK) + Leaves(disk, n.zones[9], 3, TripleStart(n)))
  }

  lemma EventsAre(disk: Disk, n: Inode)
    requires InodeOk(n)
    ensures FileEvents(disk, n) == DirectEvents(n, 0) + Indirect(disk, n)
  {
    hide Leaves, DirectEvents;
  }

  // ---------------------------------------------------------------- past the output

  lemma SentBack(z1: nat, z2: nat)
    requires z1 != 0 && z2 != 0
    ensures StepZone(More(2 * BLOCK, []), Event(0, 0), 3 * BLOCK, BLOCK) == More(BLOCK, [])
    ensures var c := Chunk(z1, BLOCK, 0, BLOCK);
      && StepZone(More(BLOCK, []), Event(z1, BLOCK), 3 * BLOCK, BLOCK) == More(2 * BLOCK, [c])
      && StepZone(More(2 * BLOCK, [c]), Event(z2, 2 * BLOCK), 3 * BLOCK, BLOCK) == Overrun
  {
    var c := Chunk(z1, BLOCK, 0, BLOCK);
    hide Length;
    LengthOne(c);
    assert [] + [c] == [c];
  }

  /** A hole in the first block sends a one-block read of the third back to the second. */
  lemma ThreeBlocks(n: Inode, rest: seq<Event>)
    requires InodeOk(n) && n.zones[0] == 0 && n.zones[1] != 0 && n.zones[2] != 0
    ensures CopyAll(More(2 * BLOCK, []), DirectEvents(n, 0) + rest, 3 * BLOCK, BLOCK) == Overrun
  {
    var end, c := 3 * BLOCK, Chunk(n.zones[1], BLOCK, 0, BLOCK);
    SentBack(n.zones[1], n.zones[2]);
    hide DirectEvents, CopyAll, StepZone;
    StepDirect(n, 0, rest, More(2 * BLOCK, []), end, BLOCK);
    StepDirect(n, 1, rest, More(BLOCK, []), end, BLOCK);
    StepDirect(n, 2, rest, More(2 * BLOCK, [c]), end, BLOCK);
    CopyAllDone(Overrun, DirectEvents(n, 3) + rest, end, BLOCK);
  }

  /** Every file whose first block is a hole and whose next two are present: reading the third block into a one-block
      output runs past it. */
  lemma HoleBeforeWindow(disk: Disk, n: Inode)
    requires InodeOk(n) && n.zones[0] == 0 && n.zones[1] != 0 && n.zones[2] != 0 && n.size >= 3 * BLOCK
    ensures Want(n, 2 * BLOCK, BLOCK) > 0
    ensures ReadChunks(disk, n, 2 * BLOCK, BLOCK) == Overrun && !Readable(disk, n, 2 * BLOCK, 3 * BLOCK)
  {
    assert Window(n, 2 * BLOCK, BLOCK, 3 * BLOCK);
    WindowFacts(disk, n, 2 * BLOCK, BLOCK, 3 * BLOCK);
    hide FileEvents, DirectEvents, CopyAll, Indirect, ReadChunks, Readable;
    EventsAre(disk, n);
    ThreeBlocks(n, Indirect(disk, n));
    ReadFaithfulIff(disk, n, 2 * BLOCK, BLOCK, 3 * BLOCK);
  }

  // ---------------------------------------------------------------- a larger offset from a smaller one

  /** The first block below a pointer is the first one met. */
  lemma {:induction false} FirstLeaf(disk: Disk, z: nat, depth: nat, start: nat)
    requires depth <= 3 && Reach(disk, z, depth, 0)
    ensures Leaves(disk, z, depth, start) != []
    ensures Leaves(disk, z, depth, start)[0] == Event(LeafZone(disk, z, depth, 0), start)
    decreases depth
  {
    hide Leaves, LeavesFrom;
    LeavesUnfold(disk, z, depth, start);
    if depth > 0 {
      assert Quot(depth, 0) == 0 && Off(depth, 0) == 0;
      hide Quot, Off, Cap;
      LeavesFromUnfold(disk, z, depth, start, 0);
      FirstLeaf(disk, Ptr(disk(z), 0), depth - 1, start);
    }
  }

  lemma {:induction false} DirectPresent(n: Inode, i: nat)
    requires InodeOk(n) && i <= DIRECT && forall k :: 0 <= k < DIRECT ==> n.zones[k] != 0
    ensures forall e :: e in DirectEvents(n, i) ==> e.zone != 0 && e.start + BLOCK <= DIRECT * BLOCK
    decreases DIRECT - i
  {
    if i < DIRECT {
      DirectPresent(n, i + 1);
    }
  }

  lemma FarBlock(events: seq<Event>, offset: nat, end: nat, cap: nat)
    requires events != [] && events[0].zone != 0 && offset < events[0].start && offset < end
    ensures CopyAll(More(offset, []), events, end, cap) == Underflow
  {
    CopyAllUnfold(More(offset, []), events, end, cap);
    hide CopyAll;
    CopyAllDone(Underflow, events[1..], end, cap);
  }

  /** Every file with seven direct blocks, no single-indirect pointer and a block behind the double-indirect one: a read
      that starts in the missing range subtracts the position of that block from its own, smaller, offset. */
  lemma MissingSingle(disk: Disk, n: Inode, offset: nat, cap: nat, end: nat)
    requires Window(n, offset, cap, end) && DIRECT * BLOCK <= offset < LOW * BLOCK
    requires (forall k :: 0 <= k < DIRECT ==> n.zones[k] != 0) && n.zones[7] == 0 && Present(disk, n, LOW)
    ensures offset < n.size && Want(n, offset, cap) > 0 && ReadChunks(disk, n, offset, cap) == Underflow
  {
    hide ReadChunks, FileEvents, CopyAll, DirectEvents, Indirect, Present;
    WindowFacts(disk, n, offset, cap, end);
    FirstIndirect(disk, n);
    EventsAre(disk, n);
    DirectPresent(n, 0);
    SkipThenFar(DirectEvents(n, 0), Indirect(disk, n), offset, end, cap);
  }

  lemma SkipThenFar(head: seq<Event>, rest: seq<Event>, offset: nat, end: nat, cap: nat)
    requires offset < end && forall e :: e in head ==> e.zone != 0 && e.start + BLOCK <= offset
    requires rest != [] && rest[0].zone != 0 && offset < rest[0].start
    ensures CopyAll(More(offset, []), head + rest, end, cap) == Underflow
  {
    hide CopyAll;
    CopyAllConcat(More(offset, []), head, rest, end, cap);
    SkipPhase(head, offset, end, cap);
    FarBlock(rest, offset, end, cap);
  }

  lemma FirstIndirect(disk: Disk, n: Inode)
    requires InodeOk(n) && n.zones[7] == 0 && Present(disk, n, LOW)
    ensures var rest := Indirect(disk, n); rest != [] && rest[0].zone != 0 && rest[0].start == LOW * BLOCK
  {
    assert Slot(LOW) == (8, 2, 0);
    assert Reach(disk, n.zones[8], 2, 0) && LeafZone(disk, n.zones[8], 2, 0) != 0;
    hide Reach, LeafZone, Leaves;
    FirstLeaf(disk, n.zones[8], 2, LOW * BLOCK);
    EmptyBelow(disk, 1, DIRECT * BLOCK);
  }

  /** Such a read exists. */
  lemma UnderflowExists(disk: Disk, z: nat)
    requires z != 0 && Ptr(disk(z), 0) != 0 && Ptr(disk(Ptr(disk(z), 0)), 0) != 0
    ensures var n := Inode(400 * BLOCK, [1, 1, 1, 1, 1, 1, 1, 0, z, 0]);
      ReadChunks(disk, n, 7 * BLOCK, 300 * BLOCK) == Underflow
  {
    var n := Inode(400 * BLOCK, [1, 1, 1, 1, 1, 1, 1, 0, z, 0]);
    assert Window(n, 7 * BLOCK, 300 * BLOCK, 307 * BLOCK);
    FirstBehindDouble(disk, n);
    hide ReadChunks, Window, Present;
    MissingSingle(disk, n, 7 * BLOCK, 300 * BLOCK, 307 * BLOCK);
  }

  lemma FirstBehindDouble(disk: Disk, n: Inode)
    requires InodeOk(n) && n.zones[8] != 0 && Ptr(disk(n.zones[8]), 0) != 0
    requires Ptr(disk(Ptr(disk(n.zones[8]), 0)), 0) != 0
    ensures Present(disk, n, LOW)
  {
    var z := n.zones[8];
    var w := Ptr(disk(z), 0);
    assert Slot(LOW) == (8, 2, 0);
    assert Quot(2, 0) == 0 && Off(2, 0) == 0 && Quot(1, 0) == 0 && Off(1, 0) == 0;
    assert Reach(disk, w, 1, 0) && LeafZone(disk, w, 1, 0) == Ptr(disk(w), 0);
    assert Reach(disk, z, 2, 0) && LeafZone(disk, z, 2, 0) == LeafZone(disk, w, 1, 0);
  }

  // ---------------------------------------------------------------- the wrong bytes

  /** The chunk as it would be at another position. */
  function Moved(c: Chunk, shift: nat): Chunk { c.(start := c.start + shift) }

  function MovedAll(chunks: seq<Chunk>, shift: nat): (r: seq<Chunk>)
    ensures |r| == |chunks| && forall i :: 0 <= i < |r| ==> r[i] == Moved(chunks[i], shift)
  {
    seq(|chunks|, i requires 0 <= i < |chunks| => Moved(chunks[i], shift))
  }

  lemma MovedLast(chunks: seq<Chunk>, shift: nat)
    requires chunks != []
    ensures MovedAll(chunks, shift)[..|chunks| - 1] == MovedAll(chunks[..|chunks| - 1], shift)
    ensures MovedAll(chunks, shift)[|chunks| - 1] == Moved(chunks[|chunks| - 1], shift)
  {
  }

  /** Moving the chunks moves the window they cover and not the bytes they carry. */
  lemma {:induction false} MovedChain(disk: Disk, chunks: seq<Chunk>, lo: nat, end: nat, shift: nat)
    requires Chain(chunks, lo, end) && forall c :: c in chunks ==> c.from + c.len <= BLOCK
    ensures Chain(MovedAll(chunks, shift), lo + shift, end + shift)
    ensures (forall c :: c in MovedAll(chunks, shift) ==> c.from + c.len <= BLOCK)
    ensures Bytes(disk, MovedAll(chunks, shift)) == Bytes(disk, chunks)
    decreases chunks
  {
    hide MovedAll, Bytes;
    MovedFits(chunks, shift);
    if chunks == [] {
      assert MovedAll(chunks, shift) == [];
    } else {
      var k := |chunks| - 1;
      var pre, c := chunks[..k], chunks[k];
      assert chunks == pre + [c];
      MovedLast(chunks, shift);
      MovedChain(disk, pre, lo, c.start + c.from, shift);
      assert MovedAll(chunks, shift) == MovedAll(pre, shift) + [Moved(c, shift)];
      BytesSnoc(disk, pre, c);
      BytesSnoc(disk, MovedAll(pre, shift), Moved(c, shift));
    }
  }

  lemma MovedFits(chunks: seq<Chunk>, shift: nat)
    requires forall c :: c in chunks ==> c.from + c.len <= BLOCK
    ensures forall c :: c in MovedAll(chunks, shift) ==> c.from + c.len <= BLOCK
  {
    forall c | c in MovedAll(chunks, shift) ensures c.from + c.len <= BLOCK {
      var i :| 0 <= i < |chunks| && MovedAll(chunks, shift)[i] == c;
      assert chunks[i] in chunks;
    }
  }

  /** A chunk from behind the missing range comes from the block 65536 further on. */
  lemma ChunkIsFurther(disk: Disk, n: Inode, p: Progress, lo: nat, end: nat, c: Chunk)
    requires InodeOk(n) && n.zones[8] == 0 && LOW * BLOCK <= lo
    requires Exact(p, lo, end) && FromEvents(p.chunks, FileEvents(disk, n)) && c in p.chunks
    ensures TrueChunk(disk, n, Moved(c, Cap(2) * BLOCK))
  {
    hide FileEvents, Chain, BlockZone, BlockReached;
    ChunkInside(p.chunks, lo, end, c);
    var b := MetOnly(disk, n, Event(c.zone, c.start));
    FurtherBlock(b, c);
  }

  lemma FurtherBlock(b: nat, c: Chunk)
    requires c.start == b * BLOCK && c.from + c.len <= BLOCK && c.len > 0 && LOW * BLOCK <= c.start + c.from
    ensures LOW <= b && Moved(c, Cap(2) * BLOCK).start == (b + Cap(2)) * BLOCK
    ensures Moved(c, Cap(2) * BLOCK).start / BLOCK == b + Cap(2) && Moved(c, Cap(2) * BLOCK).start % BLOCK == 0
  {
  }

  /** Without a double-indirect pointer, every read from behind its range that takes its whole window returns the bytes
      of the file 65536 blocks further on. */
  lemma ReadShifted(disk: Disk, n: Inode, offset: nat, cap: nat, end: nat)
    requires Window(n, offset, cap, end) && n.zones[8] == 0 && LOW * BLOCK <= offset && Covering(disk, n, offset, end)
    ensures offset < n.size && Want(n, offset, cap) > 0
    ensures var p, shift := ReadChunks(disk, n, offset, cap), Cap(2) * BLOCK;
      && p.Full? && (forall c :: c in p.chunks ==> c.from + c.len <= BLOCK) && end + shift <= MAX_BLOCKS * BLOCK
      && Bytes(disk, p.chunks) == FileSlice(disk, n, offset + shift, end + shift)
  {
    hide FileEvents, CopyAll, ReadChunks, Covering, TrueChunk, Chain, Bytes, FileSlice, MovedAll;
    WindowFacts(disk, n, offset, cap, end);
    ReadFrom(disk, n, offset, cap, end);
    ReadExactIff(disk, n, offset, cap, end);
    var p, shift := ReadChunks(disk, n, offset, cap), Cap(2) * BLOCK;
    MovedChain(disk, p.chunks, offset, end, shift);
    var further := MovedAll(p.chunks, shift);
    forall c | c in further ensures TrueChunk(disk, n, c) {
      var d := MovedFrom(p.chunks, shift, c);
      ChunkIsFurther(disk, n, p, offset, end, d);
    }
    ChainBytes(disk, n, further, offset + shift, end + shift);
  }

  lemma MovedFrom(chunks: seq<Chunk>, shift: nat, c: Chunk) returns (d: Chunk)
    requires c in MovedAll(chunks, shift)
    ensures d in chunks && c == Moved(d, shift)
  {
    var i :| 0 <= i < |chunks| && MovedAll(chunks, shift)[i] == c;
    d := chunks[i];
  }

  /** Such a file: its first blocks are present, the next 65536 are missing and the one behind them is present. A read
      of the first missing block returns that one. */
  lemma WrongBlock(disk: Disk, n: Inode)
    requires InodeOk(n) && n.zones[8] == 0 && n.size >= (LOW + 1) * BLOCK
    requires (forall b: nat :: b < LOW ==> Present(disk, n, b)) && Present(disk, n, LOW + Cap(2))
    ensures !Present(disk, n, LOW) && Want(n, LOW * BLOCK, BLOCK) > 0
    ensures var p := ReadChunks(disk, n, LOW * BLOCK, BLOCK);
      && p.Full? && (forall c :: c in p.chunks ==> c.from + c.len <= BLOCK)
      && Bytes(disk, p.chunks) == disk(BlockZone(disk, n, LOW + Cap(2)))
  {
    hide Present, BlockZone, Covering, ReadChunks, Bytes, FileSlice, Window;
    var lo, end, shift := LOW * BLOCK, (LOW + 1) * BLOCK, Cap(2) * BLOCK;
    LowMissing(disk, n);
    LowCovering(disk, n);
    LowWindow(n);
    ReadShifted(disk, n, lo, BLOCK, end);
    WholeBlock(disk, n, LOW + Cap(2));
    assert lo + shift == (LOW + Cap(2)) * BLOCK && end + shift == (LOW + Cap(2)) * BLOCK + BLOCK;
  }

  lemma LowMissing(disk: Disk, n: Inode)
    requires InodeOk(n) && n.zones[8] == 0
    ensures !Present(disk, n, LOW)
  {
    assert Slot(LOW) == (8, 2, 0);
  }

  lemma LowWindow(n: Inode)
    requires InodeOk(n) && n.size >= (LOW + 1) * BLOCK
    ensures Window(n, LOW * BLOCK, BLOCK, (LOW + 1) * BLOCK)
  {
  }

  /** A whole block of the flat file. */
  lemma WholeBlock(disk: Disk, n: Inode, b: nat)
    requires InodeOk(n) && b < MAX_BLOCKS
    ensures FileSlice(disk, n, b * BLOCK, b * BLOCK + BLOCK) == disk(BlockZone(disk, n, b))
  {
    hide BlockZone, FileSlice;
    BlockPart(disk, n, b, b * BLOCK, b * BLOCK + BLOCK);
  }

  lemma LowCovering(disk: Disk, n: Inode)
    requires InodeOk(n) && n.zones[8] == 0
    requires (forall b: nat :: b < LOW ==> Present(disk, n, b)) && Present(disk, n, LOW + Cap(2))
    ensures Covering(disk, n, LOW * BLOCK, (LOW + 1) * BLOCK)
  {
    hide BlockZone, BlockReached;
    forall b: nat | b * BLOCK + BLOCK <= LOW * BLOCK ensures !MetHole(disk, n, b) {
      assert b < LOW && Met(n, b) == b && Present(disk, n, b);
    }
    forall b: nat | b * BLOCK < (LOW + 1) * BLOCK && LOW * BLOCK < b * BLOCK + BLOCK ensures MetPresent(disk, n, b) {
      assert b == LOW;
    }
  }
}
