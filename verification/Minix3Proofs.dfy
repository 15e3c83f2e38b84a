/** What a read copies from a file whose needed pointers are present. */
module Minix3Proofs {
  import opened Minix3

  // ---------------------------------------------------------------- a line of blocks

  /** The events of `m` consecutive blocks below a pointer. */
  function Line(disk: Disk, z: nat, depth: nat, start: nat, m: nat): (r: seq<Event>)
    requires depth <= 3 && m <= Cap(depth)
    ensures |r| == m
  {
    seq(m, k requires 0 <= k < m => Event(LeafZone(disk, z, depth, k), start + k * BLOCK))
  }

  /** The first `m` blocks below a pointer are all reached. */
  ghost predicate ReachAll(disk: Disk, z: nat, depth: nat, m: nat)
    requires depth <= 3 && m <= Cap(depth)
  {
    forall k: nat :: k < m ==> Reach(disk, z, depth, k)
  }

  lemma LeavesUnfold(disk: Disk, z: nat, depth: nat, start: nat)
    requires depth <= 3
    ensures Leaves(disk, z, depth, start) ==
      if depth == 0 then [Event(z, start)] else if z == 0 then [] else LeavesFrom(disk, z, depth, start, 0)
  {
  }

  lemma LeavesFromUnfold(disk: Disk, z: nat, depth: nat, start: nat, i: nat)
    requires 0 < depth <= 3 && i <= PTRS
    ensures LeavesFrom(disk, z, depth, start, i) ==
      if i == PTRS then []
      else Leaves(disk, Ptr(disk(z), i), depth - 1, start)
           + LeavesFrom(disk, z, depth, start + Cap(depth - 1) * BLOCK, i + 1)
  {
  }

  lemma {:induction false} LeavesBound(disk: Disk, z: nat, depth: nat, start: nat)
    requires depth <= 3
    ensures |Leaves(disk, z, depth, start)| <= Cap(depth)
    decreases depth, PTRS + 1
  {
    hide Leaves, LeavesFrom;
    LeavesUnfold(disk, z, depth, start);
    if depth > 0 && z != 0 {
      LeavesFromBound(disk, z, depth, start, 0);
    }
  }

  lemma {:induction false} LeavesFromBound(disk: Disk, z: nat, depth: nat, start: nat, i: nat)
    requires 0 < depth <= 3 && i <= PTRS
    ensures Off(depth, i) + |LeavesFrom(disk, z, depth, start, i)| <= Cap(depth)
    decreases depth, PTRS - i
  {
    hide Leaves, LeavesFrom;
    LeavesFromUnfold(disk, z, depth, start, i);
    if i < PTRS {
      LeavesBound(disk, Ptr(disk(z), i), depth - 1, start);
      LeavesFromBound(disk, z, depth, start + Cap(depth - 1) * BLOCK, i + 1);
    }
  }

  /** If the first `m` blocks are reached, the walk below the pointer begins with exactly them. */
  lemma {:induction false} LeavesPrefix(disk: Disk, z: nat, depth: nat, start: nat, m: nat)
    requires depth <= 3 && m <= Cap(depth) && ReachAll(disk, z, depth, m)
    ensures |Leaves(disk, z, depth, start)| >= m
    ensures Leaves(disk, z, depth, start)[..m] == Line(disk, z, depth, start, m)
    decreases depth, PTRS + 1
  {
    hide Leaves, LeavesFrom;
    LeavesUnfold(disk, z, depth, start);
    if depth == 0 {
      assert Cap(0) == 1;
    } else if m > 0 {
      assert Reach(disk, z, depth, 0);
      LeavesFromPrefix(disk, z, depth, start, 0, m);
      assert Line(disk, z, depth, start, m) == LineFrom(disk, z, depth, start, 0, m);
    }
  }

  /** The events of the blocks from index `a` up to `b`, block `a` at file offset `start`. */
  function LineFrom(disk: Disk, z: nat, depth: nat, start: nat, a: nat, b: nat): (r: seq<Event>)
    requires depth <= 3 && a <= b <= Cap(depth)
    ensures |r| == b - a
  {
    seq(b - a, k requires 0 <= k < b - a => Event(LeafZone(disk, z, depth, a + k), start + k * BLOCK))
  }

  lemma LineSplit(disk: Disk, z: nat, depth: nat, start: nat, a: nat, b: nat, c: nat)
    requires depth <= 3 && a <= b <= c <= Cap(depth)
    ensures LineFrom(disk, z, depth, start, a, c)
         == LineFrom(disk, z, depth, start, a, b) + LineFrom(disk, z, depth, start + (b - a) * BLOCK, b, c)
  {
  }

  lemma {:induction false} LeavesFromPrefix(disk: Disk, z: nat, depth: nat, start: nat, i: nat, m: nat)
    requires 0 < depth <= 3 && i <= PTRS && z != 0
    requires Off(depth, i) <= m <= Cap(depth) && ReachAll(disk, z, depth, m)
    ensures |LeavesFrom(disk, z, depth, start, i)| >= m - Off(depth, i)
    ensures LeavesFrom(disk, z, depth, start, i)[..m - Off(depth, i)]
         == LineFrom(disk, z, depth, start, Off(depth, i), m)
    decreases depth, PTRS - i
  {
    hide Leaves, LeavesFrom, LeafZone, Reach, ReachAll;
    LeavesFromUnfold(disk, z, depth, start, i);
    if i < PTRS {
      var c, a := Cap(depth - 1), Off(depth, i);
      var child := Ptr(disk(z), i);
      var here := Min(c, m - a);
      ChildReach(disk, z, depth, i, here, m);
      LeavesPrefix(disk, child, depth - 1, start, here);
      ChildLine(disk, z, depth, start, i, here);
      var head := Leaves(disk, child, depth - 1, start);
      if here == c {
        LeavesBound(disk, child, depth - 1, start);
        assert head == LineFrom(disk, z, depth, start, a, a + c);
        LeavesFromPrefix(disk, z, depth, start + c * BLOCK, i + 1, m);
        LineSplit(disk, z, depth, start, a, a + c, m);
        JoinPrefix(head, LeavesFrom(disk, z, depth, start + c * BLOCK, i + 1), m - a);
      } else {
        HeadPrefix(head, LeavesFrom(disk, z, depth, start + c * BLOCK, i + 1), m - a);
      }
    }
  }

  lemma JoinPrefix(a: seq<Event>, b: seq<Event>, m: nat)
    requires |a| <= m <= |a| + |b|
    ensures (a + b)[..m] == a + b[..m - |a|]
  {
  }

  lemma HeadPrefix(a: seq<Event>, b: seq<Event>, m: nat)
    requires m <= |a|
    ensures (a + b)[..m] == a[..m]
  {
  }

  lemma ChildIndex(depth: nat, i: nat, k: nat)
    requires 0 < depth <= 3 && i < PTRS && k < Cap(depth - 1)
    ensures Off(depth, i) + k < Cap(depth) && Quot(depth, Off(depth, i) + k) == i
  {
  }

  lemma ChildReach(disk: Disk, z: nat, depth: nat, i: nat, here: nat, m: nat)
    requires 0 < depth <= 3 && i < PTRS && here <= Cap(depth - 1)
    requires Off(depth, i) + here <= m <= Cap(depth) && ReachAll(disk, z, depth, m)
    ensures ReachAll(disk, Ptr(disk(z), i), depth - 1, here)
  {
    var child, d := Ptr(disk(z), i), depth - 1;
    forall k: nat | k < here ensures Reach(disk, child, d, k) {
      ChildIndex(depth, i, k);
      assert Reach(disk, z, depth, Off(depth, i) + k);
    }
  }

  lemma ChildRoom(depth: nat, i: nat)
    requires 0 < depth <= 3 && i < PTRS
    ensures Off(depth, i) + Cap(depth - 1) <= Cap(depth)
  {
  }

  lemma ChildLine(disk: Disk, z: nat, depth: nat, start: nat, i: nat, here: nat)
    requires 0 < depth <= 3 && i < PTRS && here <= Cap(depth - 1)
    ensures Off(depth, i) + here <= Cap(depth)
    ensures Line(disk, Ptr(disk(z), i), depth - 1, start, here)
         == LineFrom(disk, z, depth, start, Off(depth, i), Off(depth, i) + here)
  {
    hide LeafZone, Ptr, Cap, Off;
    var child, d := Ptr(disk(z), i), depth - 1;
    ChildRoom(depth, i);
    forall k: nat | k < here
      ensures Off(depth, i) + k < Cap(depth)
      ensures LeafZone(disk, child, d, k) == LeafZone(disk, z, depth, Off(depth, i) + k)
    {
      ChildLeaf(disk, z, depth, i, k);
    }
  }

  lemma ChildLeaf(disk: Disk, z: nat, depth: nat, i: nat, k: nat)
    requires 0 < depth <= 3 && i < PTRS && k < Cap(depth - 1)
    ensures Off(depth, i) + k < Cap(depth)
    ensures LeafZone(disk, Ptr(disk(z), i), depth - 1, k) == LeafZone(disk, z, depth, Off(depth, i) + k)
  {
    ChildIndex(depth, i, k);
  }

  // ---------------------------------------------------------------- the first blocks of a file

  /** The events of the first `m` blocks of a file, as its block map gives them. */
  function FileLine(disk: Disk, n: Inode, m: nat): (r: seq<Event>)
    requires InodeOk(n) && m <= MAX_BLOCKS
    ensures |r| == m
  {
    seq(m, b requires 0 <= b < m => Event(BlockZone(disk, n, b), b * BLOCK))
  }

  /** No pointer above the data zones is missing for the first `m` blocks. */
  ghost predicate AllReached(disk: Disk, n: Inode, m: nat)
    requires InodeOk(n) && m <= MAX_BLOCKS
  {
    forall b: nat :: b < m ==> BlockReached(disk, n, b)
  }

  lemma DirectLine(disk: Disk, n: Inode)
    requires InodeOk(n)
    ensures DirectEvents(n, 0) == FileLine(disk, n, DIRECT)
  {
    var d := DirectEvents(n, 0);
    assert DirectEvents(n, 6) == [Event(n.zones[6], 6 * BLOCK)];
    assert DirectEvents(n, 4) == [Event(n.zones[4], 4 * BLOCK), Event(n.zones[5], 5 * BLOCK)] + DirectEvents(n, 6);
    assert DirectEvents(n, 2) == [Event(n.zones[2], 2 * BLOCK), Event(n.zones[3], 3 * BLOCK)] + DirectEvents(n, 4);
    assert d == [Event(n.zones[0], 0), Event(n.zones[1], BLOCK)] + DirectEvents(n, 2);
    forall b: nat | b < DIRECT ensures d[b] == Event(BlockZone(disk, n, b), b * BLOCK) {
    }
  }

  /** First block behind zone slot 7, 8 or 9. */
  function SlotBase(s: nat): nat {
    DIRECT + (if s >= 8 then Cap(1) else 0) + (if s >= 9 then Cap(2) else 0)
  }

  lemma SlotIs(s: nat, k: nat)
    requires 7 <= s <= 9 && k < Cap(s - 6)
    ensures SlotBase(s) + k < MAX_BLOCKS && Slot(SlotBase(s) + k) == (s, s - 6, k)
  {
  }

  lemma SlotReach(disk: Disk, n: Inode, s: nat, m: nat)
    requires InodeOk(n) && 7 <= s <= 9 && m <= Cap(s - 6) && SlotBase(s) + m <= MAX_BLOCKS
    requires AllReached(disk, n, SlotBase(s) + m)
    ensures ReachAll(disk, n.zones[s], s - 6, m)
  {
    var d, z := s - 6, n.zones[s];
    forall k: nat | k < m ensures Reach(disk, z, d, k) {
      SlotIs(s, k);
      assert BlockReached(disk, n, SlotBase(s) + k);
    }
  }

  /** The block map behind a slot is the line of blocks below its pointer. */
  lemma SlotLine(disk: Disk, n: Inode, s: nat, m: nat)
    requires InodeOk(n) && 7 <= s <= 9 && m <= Cap(s - 6) && SlotBase(s) + m <= MAX_BLOCKS
    ensures FileLine(disk, n, SlotBase(s) + m)
         == FileLine(disk, n, SlotBase(s)) + Line(disk, n.zones[s], s - 6, SlotBase(s) * BLOCK, m)
  {
    hide LeafZone;
    var base := SlotBase(s);
    forall b: nat | base <= b < base + m ensures Slot(b) == (s, s - 6, b - base) {
      SlotIs(s, b - base);
    }
  }

  lemma SlotPrefix(disk: Disk, n: Inode, s: nat, m: nat)
    requires InodeOk(n) && 7 <= s <= 9 && m <= Cap(s - 6) && SlotBase(s) + m <= MAX_BLOCKS
    requires AllReached(disk, n, SlotBase(s) + m)
    ensures m <= |Leaves(disk, n.zones[s], s - 6, SlotBase(s) * BLOCK)| <= Cap(s - 6)
    ensures FileLine(disk, n, SlotBase(s) + m)
         == FileLine(disk, n, SlotBase(s)) + Leaves(disk, n.zones[s], s - 6, SlotBase(s) * BLOCK)[..m]
  {
    assert |n.zones| == 10;
    hide *;
    SlotReach(disk, n, s, m);
    LeavesPrefix(disk, n.zones[s], s - 6, SlotBase(s) * BLOCK, m);
    LeavesBound(disk, n.zones[s], s - 6, SlotBase(s) * BLOCK);
    SlotLine(disk, n, s, m);
  }

  lemma ReachedLess(disk: Disk, n: Inode, m: nat, k: nat)
    requires InodeOk(n) && k <= m <= MAX_BLOCKS && AllReached(disk, n, m)
    ensures AllReached(disk, n, k)
  {
  }

  lemma TripleStartIs(disk: Disk, n: Inode, m: nat)
    requires InodeOk(n) && SlotBase(9) < m <= MAX_BLOCKS && AllReached(disk, n, m)
    ensures TripleStart(n) == SlotBase(9) * BLOCK
  {
    assert BlockReached(disk, n, SlotBase(8));
  }

  lemma FileEventsAre(disk: Disk, n: Inode)
    requires InodeOk(n)
    ensures SlotBase(7) == DIRECT && SlotBase(8) == DIRECT + Cap(1) && SlotBase(9) == DIRECT + Cap(1) + Cap(2)
    ensures FileEvents(disk, n) == FileLine(disk, n, DIRECT)
      + Leaves(disk, n.zones[7], 1, SlotBase(7) * BLOCK) + Leaves(disk, n.zones[8], 2, SlotBase(8) * BLOCK)
      + Leaves(disk, n.zones[9], 3, TripleStart(n))
  {
    DirectLine(disk, n);
  }

  lemma PrefixOne(disk: Disk, n: Inode, m: nat)
    requires InodeOk(n) && DIRECT < m <= SlotBase(8) && AllReached(disk, n, m)
    ensures FileLine(disk, n, m) <= FileEvents(disk, n)
  {
    assert |n.zones| == 10;
    FileEventsAre(disk, n);
    hide *;
    SlotPrefix(disk, n, 7, m - DIRECT);
    InnerPrefix(FileLine(disk, n, DIRECT), Leaves(disk, n.zones[7], 1, SlotBase(7) * BLOCK),
                Leaves(disk, n.zones[8], 2, SlotBase(8) * BLOCK), Leaves(disk, n.zones[9], 3,
                       TripleStart(n)), m - DIRECT);
  }

  /** With the single-indirect range reached, its walk is exactly the block map up to there. */
  lemma WholeSlot(disk: Disk, n: Inode, s: nat, m: nat)
    requires InodeOk(n) && 7 <= s <= 8 && SlotBase(s + 1) <= m <= MAX_BLOCKS && AllReached(disk, n, m)
    ensures FileLine(disk, n, SlotBase(s + 1))
         == FileLine(disk, n, SlotBase(s)) + Leaves(disk, n.zones[s], s - 6, SlotBase(s) * BLOCK)
  {
    assert |n.zones| == 10 && SlotBase(s + 1) == SlotBase(s) + Cap(s - 6);
    hide *;
    ReachedLess(disk, n, m, SlotBase(s + 1));
    SlotPrefix(disk, n, s, Cap(s - 6));
    WholePrefix(Leaves(disk, n.zones[s], s - 6, SlotBase(s) * BLOCK), Cap(s - 6));
  }

  lemma PrefixTwo(disk: Disk, n: Inode, m: nat)
    requires InodeOk(n) && SlotBase(8) < m <= SlotBase(9) && AllReached(disk, n, m)
    ensures FileLine(disk, n, m) <= FileEvents(disk, n)
  {
    assert |n.zones| == 10;
    FileEventsAre(disk, n);
    hide *;
    WholeSlot(disk, n, 7, m);
    SlotPrefix(disk, n, 8, m - SlotBase(8));
    InnerPrefix(FileLine(disk, n, SlotBase(8)), Leaves(disk, n.zones[8], 2, SlotBase(8) * BLOCK),
                Leaves(disk, n.zones[9], 3, TripleStart(n)), [], m - SlotBase(8));
  }

  lemma PrefixThree(disk: Disk, n: Inode, m: nat)
    requires InodeOk(n) && SlotBase(9) < m <= MAX_BLOCKS && AllReached(disk, n, m)
    ensures FileLine(disk, n, m) <= FileEvents(disk, n)
  {
    assert |n.zones| == 10 && MAX_BLOCKS == SlotBase(9) + Cap(3);
    FileEventsAre(disk, n);
    TripleStartIs(disk, n, m);
    hide *;
    WholeSlot(disk, n, 7, m);
    WholeSlot(disk, n, 8, m);
    SlotPrefix(disk, n, 9, m - SlotBase(9));
    InnerPrefix(FileLine(disk, n, SlotBase(9)), Leaves(disk, n.zones[9], 3, SlotBase(9) * BLOCK), [], [],
                m - SlotBase(9));
  }

  /** When no pointer is missing for the first `m` blocks, the walk begins with exactly those blocks,
      across the direct zones and all three depths. */
  lemma FilePrefix(disk: Disk, n: Inode, m: nat)
    requires InodeOk(n) && m <= MAX_BLOCKS && AllReached(disk, n, m)
    ensures FileLine(disk, n, m) <= FileEvents(disk, n)
  {
    if m <= DIRECT {
      FileEventsAre(disk, n);
      assert FileLine(disk, n, m) <= FileLine(disk, n, DIRECT);
    } else if m <= SlotBase(8) {
      PrefixOne(disk, n, m);
    } else if m <= SlotBase(9) {
      PrefixTwo(disk, n, m);
    } else {
      PrefixThree(disk, n, m);
    }
  }

  lemma InnerPrefix(a: seq<Event>, b: seq<Event>, c: seq<Event>, d: seq<Event>, k: nat)
    requires k <= |b|
    ensures a + b[..k] <= a + b + c + d && a + b[..k] <= a + b + c && a + b[..k] <= a + b
  {
  }

  lemma WholePrefix(a: seq<Event>, k: nat)
    requires k <= |a| <= k
    ensures a[..k] == a
  {
  }

  // ---------------------------------------------------------------- copying a line of blocks

  /** The part of one block that lies in the window, if the block exists. */
  function PartOf(e: Event, lo: nat, end: nat): (r: seq<Chunk>)
    ensures forall c :: c in r ==> c.from + c.len <= BLOCK
  {
    if e.zone != 0 && Max(lo, e.start) < Min(end, e.start + BLOCK)
    then [Chunk(e.zone, e.start, Max(lo, e.start) - e.start, Min(end, e.start + BLOCK) - Max(lo, e.start))]
    else []
  }

  /** The window parts of the nonzero blocks, in order. */
  function Parts(events: seq<Event>, lo: nat, end: nat): (r: seq<Chunk>)
    ensures forall c :: c in r ==> c.from + c.len <= BLOCK
  {
    if events == [] then [] else Parts(events[..|events|-1], lo, end) + PartOf(events[|events|-1], lo, end)
  }

  lemma {:induction false} PartsCons(events: seq<Event>, lo: nat, end: nat)
    requires events != []
    ensures Parts(events, lo, end) == PartOf(events[0], lo, end) + Parts(events[1..], lo, end)
    decreases events
  {
    var k := |events| - 1;
    if k > 0 {
      PartsCons(events[..k], lo, end);
      assert events[..k][1..] == events[1..][..k-1];
    }
  }

  ghost predicate Contiguous(events: seq<Event>, s: nat) {
    forall i :: 0 <= i < |events| ==> events[i].start == s + i * BLOCK
  }

  lemma {:induction false} PartsBeyond(events: seq<Event>, s: nat, lo: nat, end: nat)
    requires Contiguous(events, s) && s >= end
    ensures Parts(events, lo, end) == []
    decreases events
  {
    if events != [] {
      PartsBeyond(events[..|events|-1], s, lo, end);
    }
  }

  lemma LengthSnoc(chunks: seq<Chunk>, c: Chunk)
    ensures Length(chunks + [c]) == Length(chunks) + c.len
  {
    assert (chunks + [c])[..|chunks|] == chunks;
  }

  lemma LengthOne(c: Chunk)
    ensures Length([c]) == c.len && Length([]) == 0
  {
    LengthSnoc([], c);
    assert [] + [c] == [c];
  }

  /** One block of a line: its window part is copied, and the offset moves to the next block. */
  lemma StepLine(e: Event, lo: nat, end: nat, cap: nat, chunks: seq<Chunk>)
    requires Max(lo, e.start) < end && Length(chunks) + (end - Max(lo, e.start)) <= cap
    requires e.start + BLOCK <= lo ==> e.zone != 0
    ensures var next := chunks + PartOf(e, lo, end);
      && StepZone(More(Max(lo, e.start), chunks), e, end, cap)
         == (if e.start + BLOCK >= end then Full(next) else More(Max(lo, e.start + BLOCK), next))
      && (e.start + BLOCK < end ==> Length(next) + (end - Max(lo, e.start + BLOCK)) <= cap)
  {
    hide Length;
    var cur := Max(lo, e.start);
    if e.zone == 0 || e.start + BLOCK <= lo {
      assert PartOf(e, lo, end) == [] && chunks + [] == chunks;
    } else {
      var c := Chunk(e.zone, e.start, cur - e.start, Min(end, e.start + BLOCK) - cur);
      assert PartOf(e, lo, end) == [c];
      LengthSnoc(chunks, c);
    }
  }

  /** No block that lies before the window is missing. */
  ghost predicate NoHoleBefore(events: seq<Event>, lo: nat) {
    forall i :: 0 <= i < |events| && events[i].start + BLOCK <= lo ==> events[i].zone != 0
  }

  /** The progress when a line of blocks that ends at file offset `t` has been copied. */
  function AtLineEnd(t: nat, lo: nat, end: nat, chunks: seq<Chunk>): Progress {
    if t >= end then Full(chunks) else More(Max(lo, t), chunks)
  }

  /** Copying consecutive blocks takes the window parts of the nonzero ones, in order. */
  lemma {:induction false} CopyContiguous(events: seq<Event>, s: nat, lo: nat, end: nat, cap: nat, chunks: seq<Chunk>)
    requires Contiguous(events, s) && Max(lo, s) < end && Length(chunks) + (end - Max(lo, s)) <= cap
    requires NoHoleBefore(events, lo)
    ensures CopyAll(More(Max(lo, s), chunks), events, end, cap)
         == AtLineEnd(s + |events| * BLOCK, lo, end, chunks + Parts(events, lo, end))
    decreases events
  {
    hide PartOf, Length, Contiguous, NoHoleBefore;
    if events == [] {
      assert chunks + Parts(events, lo, end) == chunks;
    } else {
      var rest, next := events[1..], chunks + PartOf(events[0], lo, end);
      assert s + |events| * BLOCK == (s + BLOCK) + |rest| * BLOCK;
      hide Parts, CopyAll;
      CopyFirst(events, s, lo, end, cap, chunks);
      if s + BLOCK >= end {
        CopyAllDone(Full(next), rest, end, cap);
        PartsBeyond(rest, s + BLOCK, lo, end);
        assert next + [] == next;
      } else {
        hide AtLineEnd;
        CopyContiguous(rest, s + BLOCK, lo, end, cap, next);
      }
    }
  }

  /** The first block of a line, and what is left to copy after it. */
  lemma CopyFirst(events: seq<Event>, s: nat, lo: nat, end: nat, cap: nat, chunks: seq<Chunk>)
    requires events != [] && Contiguous(events, s) && Max(lo, s) < end && Length(chunks) + (end - Max(lo, s)) <= cap
    requires NoHoleBefore(events, lo)
    ensures Contiguous(events[1..], s + BLOCK) && NoHoleBefore(events[1..], lo)
    ensures var rest, next := events[1..], chunks + PartOf(events[0], lo, end);
      && chunks + Parts(events, lo, end) == next + Parts(rest, lo, end)
      && CopyAll(More(Max(lo, s), chunks), events, end, cap)
         == CopyAll(if s + BLOCK >= end then Full(next) else More(Max(lo, s + BLOCK), next), rest, end, cap)
      && (s + BLOCK < end ==> Length(next) + (end - Max(lo, s + BLOCK)) <= cap)
  {
    var e := events[0];
    FirstOfLine(events, s, lo);
    RestContiguous(events, s);
    RestNoHole(events, lo);
    hide StepZone, PartOf, Parts, Length, CopyAll, Contiguous, NoHoleBefore, Max;
    CopyAllUnfold(More(Max(lo, s), chunks), events, end, cap);
    StepLine(e, lo, end, cap, chunks);
    PartsCons(events, lo, end);
    JoinChunks(chunks, PartOf(e, lo, end), Parts(events[1..], lo, end));
  }

  lemma FirstOfLine(events: seq<Event>, s: nat, lo: nat)
    requires events != [] && Contiguous(events, s) && NoHoleBefore(events, lo)
    ensures events[0].start == s && (events[0].start + BLOCK <= lo ==> events[0].zone != 0)
  {
    assert events[0].start == s + 0 * BLOCK;
  }

  lemma JoinChunks(a: seq<Chunk>, b: seq<Chunk>, c: seq<Chunk>)
    ensures a + (b + c) == a + b + c
  {
  }

  lemma CopyAllUnfold(p: Progress, events: seq<Event>, end: nat, cap: nat)
    requires events != []
    ensures CopyAll(p, events, end, cap) == CopyAll(StepZone(p, events[0], end, cap), events[1..], end, cap)
  {
  }

  lemma RestNoHole(events: seq<Event>, lo: nat)
    requires events != [] && NoHoleBefore(events, lo)
    ensures NoHoleBefore(events[1..], lo)
  {
    forall i | 0 <= i < |events[1..]| && events[1..][i].start + BLOCK <= lo ensures events[1..][i].zone != 0 {
      assert events[1..][i] == events[i + 1];
    }
  }

  lemma RestContiguous(events: seq<Event>, s: nat)
    requires events != [] && Contiguous(events, s)
    ensures Contiguous(events[1..], s + BLOCK)
  {
    forall i | 0 <= i < |events[1..]| ensures events[1..][i].start == s + BLOCK + i * BLOCK {
      assert events[1..][i] == events[i + 1];
    }
  }

  // ---------------------------------------------------------------- reads of files whose pointers are present

  /** Blocks that hold the file bytes below `end`. */
  function BlocksTo(end: nat): nat { (end + (BLOCK - 1)) / BLOCK }

  lemma WindowFits(n: Inode, offset: nat, cap: nat)
    requires InodeOk(n) && offset < n.size
    ensures var end := offset + Want(n, offset, cap);
      end <= n.size && BlocksTo(end) <= MAX_BLOCKS && BlocksTo(end) * BLOCK >= end
    ensures Want(n, offset, cap) <= cap
  {
  }

  lemma CopyLineThenRest(line: seq<Event>, rest: seq<Event>, offset: nat, end: nat, cap: nat)
    requires Contiguous(line, 0) && NoHoleBefore(line, offset)
    requires offset < end <= |line| * BLOCK && end - offset <= cap
    ensures CopyAll(More(offset, []), line + rest, end, cap) == Full(Parts(line, offset, end))
  {
    assert Length([]) == 0 && Max(offset, 0) == offset;
    hide CopyAll, Parts, NoHoleBefore, Contiguous, Length;
    CopyAllConcat(More(offset, []), line, rest, end, cap);
    CopyContiguous(line, 0, offset, end, cap, []);
    assert [] + Parts(line, offset, end) == Parts(line, offset, end);
    CopyAllDone(Full(Parts(line, offset, end)), rest, end, cap);
  }

  lemma LineContiguous(disk: Disk, n: Inode, m: nat)
    requires InodeOk(n) && m <= MAX_BLOCKS
    ensures Contiguous(FileLine(disk, n, m), 0)
  {
    hide BlockZone;
  }

  /** A read of a nonempty window that ends at `end`. */
  ghost predicate Window(n: Inode, offset: nat, cap: nat, end: nat) {
    InodeOk(n) && offset < n.size && offset < end == offset + Want(n, offset, cap)
  }

  /** Sparse reads compact: with every pointer block present up to the end of the window and no hole
      before the window, the read takes exactly the window parts of the existing blocks, in order,
      and finishes. */
  lemma SparseChunks(disk: Disk, n: Inode, offset: nat, cap: nat, end: nat)
    requires Window(n, offset, cap, end) && BlocksTo(end) <= MAX_BLOCKS
    requires AllReached(disk, n, BlocksTo(end)) && NoHoleBefore(FileLine(disk, n, BlocksTo(end)), offset)
    ensures ReadChunks(disk, n, offset, cap) == Full(Parts(FileLine(disk, n, BlocksTo(end)), offset, end))
  {
    WindowFacts(disk, n, offset, cap, end);
    hide *;
    FilePrefix(disk, n, BlocksTo(end));
    PrefixSplit(FileLine(disk, n, BlocksTo(end)), FileEvents(disk, n));
    LineContiguous(disk, n, BlocksTo(end));
    CopyLineThenRest(FileLine(disk, n, BlocksTo(end)), FileEvents(disk, n)[BlocksTo(end)..], offset, end, cap);
  }

  lemma WindowFacts(disk: Disk, n: Inode, offset: nat, cap: nat, end: nat)
    requires Window(n, offset, cap, end)
    ensures InodeOk(n) && offset < n.size && Want(n, offset, cap) > 0
    ensures offset < end <= BlocksTo(end) * BLOCK && end - offset <= cap
    ensures ReadChunks(disk, n, offset, cap) == CopyAll(More(offset, []), FileEvents(disk, n), end, cap)
  {
    hide FileEvents, CopyAll;
  }

  lemma PrefixSplit(a: seq<Event>, b: seq<Event>)
    requires a <= b
    ensures b == a + b[|a|..]
  {
  }

  /** The bytes of the flat file from `a` up to `b`. */
  function FileSlice(disk: Disk, n: Inode, a: nat, b: nat): (r: seq<byte>)
    requires InodeOk(n) && a <= b <= MAX_BLOCKS * BLOCK
    ensures |r| == b - a
  {
    seq<byte>(b - a, j requires 0 <= j < b - a => FileByte(disk, n, a + j))
  }

  /** Every block of the window is there. */
  ghost predicate WindowPresent(disk: Disk, n: Inode, lo: nat, end: nat)
    requires InodeOk(n) && end <= MAX_BLOCKS * BLOCK
  {
    forall b: nat :: b < MAX_BLOCKS && b * BLOCK < end && lo < b * BLOCK + BLOCK ==> BlockZone(disk, n, b) != 0
  }

  lemma BlockPart(disk: Disk, n: Inode, b: nat, x: nat, y: nat)
    requires InodeOk(n) && b < MAX_BLOCKS && b * BLOCK <= x <= y <= b * BLOCK + BLOCK
    ensures FileSlice(disk, n, x, y) == disk(BlockZone(disk, n, b))[x - b * BLOCK..y - b * BLOCK]
  {
    hide BlockZone;
    var blk := disk(BlockZone(disk, n, b));
    forall j | 0 <= j < y - x ensures FileSlice(disk, n, x, y)[j] == blk[x - b * BLOCK..y - b * BLOCK][j] {
      assert FileSlice(disk, n, x, y)[j] == FileByte(disk, n, x + j);
      InBlock(b, x + j);
    }
  }

  lemma InBlock(b: nat, x: nat)
    requires b * BLOCK <= x < b * BLOCK + BLOCK
    ensures x / BLOCK == b && x % BLOCK == x - b * BLOCK
  {
  }

  lemma BytesSnoc(disk: Disk, chunks: seq<Chunk>, c: Chunk)
    requires (forall k :: k in chunks ==> k.from + k.len <= BLOCK) && c.from + c.len <= BLOCK
    ensures forall k :: k in chunks + [c] ==> k.from + k.len <= BLOCK
    ensures Bytes(disk, chunks + [c]) == Bytes(disk, chunks) + disk(c.zone)[c.from..c.from + c.len]
  {
    assert (chunks + [c])[..|chunks|] == chunks;
  }

  lemma PartsSnoc(disk: Disk, n: Inode, b: nat, lo: nat, end: nat)
    requires InodeOk(n) && b < MAX_BLOCKS
    ensures Parts(FileLine(disk, n, b + 1), lo, end)
         == Parts(FileLine(disk, n, b), lo, end) + PartOf(Event(BlockZone(disk, n, b), b * BLOCK), lo, end)
  {
    hide BlockZone, PartOf;
    var line := FileLine(disk, n, b + 1);
    assert line[..b] == FileLine(disk, n, b) && line[b] == Event(BlockZone(disk, n, b), b * BLOCK);
  }

  /** How far the window is done before and after the block at `s`. */
  lemma WindowStep(s: nat, lo: nat, end: nat)
    requires lo < end
    ensures var x, y := Max(lo, s), Min(end, s + BLOCK);
      && (x < y <==> s < end && lo < s + BLOCK) && s <= x && y <= s + BLOCK && y <= end && lo <= x
      && (x < y ==> Max(lo, Min(end, s)) == x && Max(lo, y) == y)
      && (x >= y ==> Max(lo, y) == Max(lo, Min(end, s)))
  {
  }

  /** One block more of the window. */
  lemma OneBlockMore(disk: Disk, n: Inode, b: nat, lo: nat, end: nat, done: seq<Chunk>)
    requires InodeOk(n) && b < MAX_BLOCKS && lo < end <= MAX_BLOCKS * BLOCK && WindowPresent(disk, n, lo, end)
    requires forall k :: k in done ==> k.from + k.len <= BLOCK
    requires Bytes(disk, done) == FileSlice(disk, n, lo, Max(lo, Min(end, b * BLOCK)))
    ensures forall k :: k in done + PartOf(Event(BlockZone(disk, n, b), b * BLOCK), lo, end) ==> k.from + k.len <= BLOCK
    ensures Bytes(disk, done + PartOf(Event(BlockZone(disk, n, b), b * BLOCK), lo, end))
         == FileSlice(disk, n, lo, Max(lo, Min(end, b * BLOCK + BLOCK)))
  {
    hide BlockZone, Bytes, FileSlice, Max, Min;
    var e := Event(BlockZone(disk, n, b), b * BLOCK);
    var x, y := Max(lo, b * BLOCK), Min(end, b * BLOCK + BLOCK);
    WindowStep(b * BLOCK, lo, end);
    if x < y {
      assert e.zone != 0;
      var c := Chunk(e.zone, e.start, x - e.start, y - x);
      assert PartOf(e, lo, end) == [c];
      BytesSnoc(disk, done, c);
      BlockPart(disk, n, b, x, y);
      SliceJoin(disk, n, lo, x, y);
    } else {
      assert PartOf(e, lo, end) == [] && done + [] == done;
    }
  }

  /** The window parts of present blocks are the flat file's bytes. */
  lemma {:induction false} PartsAreBytes(disk: Disk, n: Inode, m: nat, lo: nat, end: nat)
    requires InodeOk(n) && m <= MAX_BLOCKS && lo < end <= MAX_BLOCKS * BLOCK && WindowPresent(disk, n, lo, end)
    ensures Bytes(disk, Parts(FileLine(disk, n, m), lo, end)) == FileSlice(disk, n, lo, Max(lo, Min(end, m * BLOCK)))
    decreases m
  {
    if m > 0 {
      var b := m - 1;
      assert b * BLOCK + BLOCK == m * BLOCK;
      hide *;
      PartsAreBytes(disk, n, b, lo, end);
      PartsSnoc(disk, n, b, lo, end);
      OneBlockMore(disk, n, b, lo, end, Parts(FileLine(disk, n, b), lo, end));
    }
  }

  lemma SliceJoin(disk: Disk, n: Inode, a: nat, b: nat, c: nat)
    requires InodeOk(n) && a <= b <= c <= MAX_BLOCKS * BLOCK
    ensures FileSlice(disk, n, a, c) == FileSlice(disk, n, a, b) + FileSlice(disk, n, b, c)
  {
    hide FileByte;
  }

  /** A read refines the flat file: with every pointer up to the end of the window nonzero, the read
      finishes with exactly the bytes asked for, the slice of the concatenated blocks. */
  lemma DenseRead(disk: Disk, n: Inode, offset: nat, cap: nat, end: nat)
    requires Window(n, offset, cap, end) && BlocksTo(end) <= MAX_BLOCKS
    requires AllReached(disk, n, BlocksTo(end)) && AllPresent(disk, n, BlocksTo(end))
    ensures end <= MAX_BLOCKS * BLOCK && ReadChunks(disk, n, offset, cap).Full?
    ensures forall c :: c in ReadChunks(disk, n, offset, cap).chunks ==> c.from + c.len <= BLOCK
    ensures Length(ReadChunks(disk, n, offset, cap).chunks) == end - offset
    ensures Bytes(disk, ReadChunks(disk, n, offset, cap).chunks) == FileSlice(disk, n, offset, end)
  {
    var m := BlocksTo(end);
    WindowFits(n, offset, cap);
    PresentWindow(disk, n, m, offset, end);
    assert Max(offset, Min(end, m * BLOCK)) == end;
    assert InodeOk(n) && offset < end && offset < n.size && Want(n, offset, cap) > 0;
    hide *;
    SparseChunks(disk, n, offset, cap, end);
    PartsAreBytes(disk, n, m, offset, end);
  }

  /** The data zones of the first `m` blocks are nonzero. */
  ghost predicate AllPresent(disk: Disk, n: Inode, m: nat)
    requires InodeOk(n) && m <= MAX_BLOCKS
  {
    forall b: nat :: b < m ==> BlockZone(disk, n, b) != 0
  }

  lemma PresentWindow(disk: Disk, n: Inode, m: nat, lo: nat, end: nat)
    requires InodeOk(n) && m <= MAX_BLOCKS && m == BlocksTo(end) && AllPresent(disk, n, m)
    ensures end <= MAX_BLOCKS * BLOCK && NoHoleBefore(FileLine(disk, n, m), lo) && WindowPresent(disk, n, lo, end)
  {
    hide BlockZone;
  }

  /** The 32-bit truncation of the buffer length: the read asks for min(cap, size - offset) bytes
      exactly when the length fits in 32 bits or its low 32 bits already cover the rest of the file. */
  lemma WantExact(n: Inode, offset: nat, cap: nat)
    requires offset < n.size
    ensures Want(n, offset, cap) == Min(cap, n.size - offset)
      <==> cap < 0x1_0000_0000 || n.size - offset <= cap % 0x1_0000_0000
  {
  }
}
