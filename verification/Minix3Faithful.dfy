/** Exactly when a read returns the bytes of the file, for every file. */
module Minix3Faithful {
  import opened Minix3
  import opened Minix3Proofs
  import opened Minix3Exact
  import opened Minix3Walk

  /** A chunk comes from the block of the file that holds its offset. */
  ghost predicate TrueChunk(disk: Disk, n: Inode, c: Chunk)
    requires InodeOk(n)
  {
    c.start % BLOCK == 0 && c.from + c.len <= BLOCK && IsBlock(disk, n, Event(c.zone, c.start), c.start / BLOCK)
  }

  /** The read finished, its chunks cover the window in order, and each comes from the right block. */
  ghost predicate Faithful(disk: Disk, n: Inode, p: Progress, lo: nat, end: nat)
    requires InodeOk(n)
  {
    Exact(p, lo, end) && forall c :: c in p.chunks ==> TrueChunk(disk, n, c)
  }

  // ---------------------------------------------------------------- faithful reads give the file's bytes

  lemma ChainLast(chunks: seq<Chunk>, lo: nat, end: nat)
    requires Chain(chunks, lo, end) && chunks != []
    ensures var c := chunks[|chunks| - 1];
      c.len > 0 && c.start + c.from + c.len == end && Chain(chunks[..|chunks| - 1], lo, c.start + c.from)
  {
  }

  lemma {:induction false} ChainBytes(disk: Disk, n: Inode, chunks: seq<Chunk>, lo: nat, end: nat)
    requires InodeOk(n) && Chain(chunks, lo, end) && forall c :: c in chunks ==> TrueChunk(disk, n, c)
    ensures lo <= end && (lo < end ==> end <= MAX_BLOCKS * BLOCK)
    ensures forall c :: c in chunks ==> c.from + c.len <= BLOCK
    ensures lo < end ==> Bytes(disk, chunks) == FileSlice(disk, n, lo, end)
    ensures lo == end ==> chunks == []
    decreases chunks
  {
    if chunks != [] {
      var k := |chunks| - 1;
      var pre, c := chunks[..k], chunks[k];
      var mid := c.start + c.from;
      ChainLast(chunks, lo, end);
      hide Chain, TrueChunk, FileSlice, Bytes;
      assert chunks == pre + [c];
      assert forall d :: d in pre ==> d in chunks;
      ChainBytes(disk, n, pre, lo, mid);
      AddChunk(disk, n, pre, c, lo, mid);
    }
  }

  lemma AddChunk(disk: Disk, n: Inode, pre: seq<Chunk>, c: Chunk, lo: nat, mid: nat)
    requires InodeOk(n) && TrueChunk(disk, n, c) && c.len > 0 && mid == c.start + c.from && lo <= mid
    requires forall k :: k in pre ==> k.from + k.len <= BLOCK
    requires if lo < mid then mid <= MAX_BLOCKS * BLOCK && Bytes(disk, pre) == FileSlice(disk, n, lo, mid)
      else pre == []
    ensures mid + c.len <= MAX_BLOCKS * BLOCK && (forall k :: k in pre + [c] ==> k.from + k.len <= BLOCK)
    ensures Bytes(disk, pre + [c]) == FileSlice(disk, n, lo, mid + c.len)
  {
    hide TrueChunk, FileSlice, Bytes;
    ChunkBytes(disk, n, c);
    BytesSnoc(disk, pre, c);
    if lo < mid {
      SliceJoin(disk, n, lo, mid, mid + c.len);
    } else {
      NoBytes(disk);
    }
  }

  lemma NoBytes(disk: Disk)
    ensures Bytes(disk, []) == []
  {
  }

  lemma ChunkBytes(disk: Disk, n: Inode, c: Chunk)
    requires InodeOk(n) && TrueChunk(disk, n, c)
    ensures c.from + c.len <= BLOCK && c.start + c.from + c.len <= MAX_BLOCKS * BLOCK
    ensures disk(c.zone)[c.from..c.from + c.len] == FileSlice(disk, n, c.start + c.from, c.start + c.from + c.len)
  {
    hide BlockZone, BlockReached;
    BlockPart(disk, n, c.start / BLOCK, c.start + c.from, c.start + c.from + c.len);
  }

  /** A faithful read has copied exactly the bytes of the flat file. */
  lemma FaithfulBytes(disk: Disk, n: Inode, p: Progress, lo: nat, end: nat)
    requires InodeOk(n) && lo < end && Faithful(disk, n, p, lo, end)
    ensures p.Full? && end <= MAX_BLOCKS * BLOCK && (forall c :: c in p.chunks ==> c.from + c.len <= BLOCK)
    ensures Bytes(disk, p.chunks) == FileSlice(disk, n, lo, end) && Length(p.chunks) == end - lo
  {
    hide TrueChunk;
    ChainBytes(disk, n, p.chunks, lo, end);
  }

  // ---------------------------------------------------------------- the condition

  /** The pointers a read of `[lo, end)` needs to return the window of the flat file: it takes exactly its window, and
      the block met at each position is the block that belongs there, or shares its data zone. */
  ghost predicate Readable(disk: Disk, n: Inode, lo: nat, end: nat)
    requires InodeOk(n)
  {
    && Covering(disk, n, lo, end)
    && forall b: nat :: b * BLOCK < end && lo < b * BLOCK + BLOCK ==> RightBlock(disk, n, b)
  }

  ghost predicate RightBlock(disk: Disk, n: Inode, b: nat)
    requires InodeOk(n)
  {
    && Present(disk, n, b) && MetPresent(disk, n, b)
    && BlockZone(disk, n, b) == BlockZone(disk, n, Met(n, b))
  }

  lemma ReadFrom(disk: Disk, n: Inode, offset: nat, cap: nat, end: nat)
    requires Window(n, offset, cap, end)
    ensures InodeOk(n) && ProgressFrom(CopyAll(More(offset, []), FileEvents(disk, n), end, cap), FileEvents(disk, n))
  {
    hide FileEvents, CopyAll, ProgressFrom;
    StartFrom(offset, FileEvents(disk, n));
    CopyFromEvents(More(offset, []), FileEvents(disk, n), FileEvents(disk, n), end, cap);
  }

  lemma StartFrom(offset: nat, events: seq<Event>)
    ensures ProgressFrom(More(offset, []), events)
  {
  }

  /** Chunks of a chain lie inside it. */
  lemma {:induction false} ChunkInside(chunks: seq<Chunk>, lo: nat, end: nat, c: Chunk)
    requires Chain(chunks, lo, end) && c in chunks
    ensures lo <= c.start + c.from && c.start + c.from + c.len <= end && c.len > 0
    decreases chunks
  {
    var k := |chunks| - 1;
    var last := chunks[k];
    ChainOrder(chunks[..k], lo, last.start + last.from);
    if c != last {
      assert c in chunks[..k];
      ChunkInside(chunks[..k], lo, last.start + last.from, c);
    }
  }

  lemma {:induction false} ChainOrder(chunks: seq<Chunk>, lo: nat, end: nat)
    requires Chain(chunks, lo, end)
    ensures lo <= end
    decreases chunks
  {
    if chunks != [] {
      var k := |chunks| - 1;
      ChainOrder(chunks[..k], lo, chunks[k].start + chunks[k].from);
    }
  }

  /** In a readable window a chunk of an exact read comes from the right block. */
  lemma ChunkIsTrue(disk: Disk, n: Inode, p: Progress, lo: nat, end: nat, c: Chunk)
    requires InodeOk(n) && Exact(p, lo, end) && FromEvents(p.chunks, FileEvents(disk, n)) && c in p.chunks
    requires forall b: nat :: b * BLOCK < end && lo < b * BLOCK + BLOCK ==> RightBlock(disk, n, b)
    ensures TrueChunk(disk, n, c)
  {
    hide FileEvents, Chain, BlockZone, BlockReached, Met;
    ChunkInside(p.chunks, lo, end, c);
    var b := MetOnly(disk, n, Event(c.zone, c.start));
    assert RightBlock(disk, n, b);
  }

  /** A block of the window of a faithful read is the one that belongs there. */
  lemma WindowIsRight(disk: Disk, n: Inode, p: Progress, lo: nat, end: nat, b: nat)
    requires InodeOk(n) && Faithful(disk, n, p, lo, end) && FromEvents(p.chunks, FileEvents(disk, n))
    requires b * BLOCK < end && lo < b * BLOCK + BLOCK && lo < end
    ensures RightBlock(disk, n, b)
  {
    hide FileEvents;
    var c := ChainCovers(p.chunks, lo, end, Max(lo, b * BLOCK));
    hide Chain, BlockZone, BlockReached, Met;
    assert TrueChunk(disk, n, c);
    assert c.start == b * BLOCK;
    var m := MetOnly(disk, n, Event(c.zone, c.start));
    assert m == b;
  }

  /** The exact condition, for every file and every window: a read returns that slice of the flat file if and only if
      the pointers it needs are there. */
  lemma ReadFaithfulIff(disk: Disk, n: Inode, offset: nat, cap: nat, end: nat)
    requires Window(n, offset, cap, end)
    ensures offset < n.size && Want(n, offset, cap) > 0
    ensures Faithful(disk, n, ReadChunks(disk, n, offset, cap), offset, end) <==> Readable(disk, n, offset, end)
  {
    WindowFacts(disk, n, offset, cap, end);
    ReadFrom(disk, n, offset, cap, end);
    ReadExactIff(disk, n, offset, cap, end);
    var p := ReadChunks(disk, n, offset, cap);
    hide FileEvents, CopyAll, ReadChunks, Covering, Window, TrueChunk, Chain, RightBlock, FromEvents;
    if Faithful(disk, n, p, offset, end) {
      forall b: nat | b * BLOCK < end && offset < b * BLOCK + BLOCK ensures RightBlock(disk, n, b) {
        WindowIsRight(disk, n, p, offset, end, b);
      }
    }
    if Readable(disk, n, offset, end) {
      forall c | c in p.chunks ensures TrueChunk(disk, n, c) {
        ChunkIsTrue(disk, n, p, offset, end, c);
      }
    }
  }

  /** Where the walk is in step with the file, the condition is simply that the blocks of the window are present and
      holes before it reach up to it. */
  lemma InStep(disk: Disk, n: Inode, lo: nat, end: nat)
    requires InodeOk(n) && lo < end && (n.zones[8] != 0 || end <= LOW * BLOCK)
    ensures Readable(disk, n, lo, end) <==>
      && (forall b: nat :: b * BLOCK < end && lo < b * BLOCK + BLOCK ==> Present(disk, n, b))
      && HolesReachUp(disk, n, lo)
  {
    hide Present, BlockZone, HolesReachUp;
    forall b: nat | b * BLOCK < end && lo < b * BLOCK + BLOCK
      ensures (MetPresent(disk, n, b) <==> Present(disk, n, b)) && (RightBlock(disk, n, b) <==> Present(disk, n, b))
    {
      assert Met(n, b) == b;
    }
  }

  /** Where it is not, a read is right only if every block it returns shares its zone with the one 65536 further on. */
  lemma OutOfStep(disk: Disk, n: Inode, lo: nat, end: nat, b: nat)
    requires InodeOk(n) && n.zones[8] == 0 && Readable(disk, n, lo, end)
    requires LOW <= b && b * BLOCK < end && lo < b * BLOCK + BLOCK
    ensures Present(disk, n, b) && Present(disk, n, b + Cap(2))
    ensures BlockZone(disk, n, b) == BlockZone(disk, n, b + Cap(2))
    ensures b >= LOW + Cap(2)
  {
    assert RightBlock(disk, n, b) && Met(n, b) == b + Cap(2);
    assert b < LOW + Cap(2) ==> Slot(b).0 == 8;
  }
}
