/** The walk of a file against its block map: which block is met at which position, for every file, and when the
    positions a read takes are exactly its window. */
module Minix3Walk {
  import opened Minix3
  import opened Minix3Proofs
  import opened Minix3Exact

  // ---------------------------------------------------------------- the walk of a file is sorted

  ghost predicate Within(events: seq<Event>, lo: nat, hi: nat) {
    forall i :: 0 <= i < |events| ==> lo <= events[i].start && events[i].start + BLOCK <= hi
  }

  lemma JoinSorted(a: seq<Event>, b: seq<Event>, lo: nat, mid: nat, hi: nat)
    requires Sorted(a) && Sorted(b) && Within(a, lo, mid) && Within(b, mid, hi) && lo <= mid <= hi
    ensures Sorted(a + b) && Within(a + b, lo, hi)
  {
  }

  lemma {:induction false} LeavesSorted(disk: Disk, z: nat, depth: nat, start: nat)
    requires depth <= 3 && start % BLOCK == 0
    ensures Sorted(Leaves(disk, z, depth, start))
    ensures Within(Leaves(disk, z, depth, start), start, start + Cap(depth) * BLOCK)
    decreases depth, PTRS + 1
  {
    hide Leaves, LeavesFrom;
    LeavesUnfold(disk, z, depth, start);
    if depth > 0 && z != 0 {
      LeavesFromSorted(disk, z, depth, start, 0);
    }
  }

  lemma {:induction false} LeavesFromSorted(disk: Disk, z: nat, depth: nat, start: nat, i: nat)
    requires 0 < depth <= 3 && i <= PTRS && start % BLOCK == 0
    ensures Sorted(LeavesFrom(disk, z, depth, start, i))
    ensures Within(LeavesFrom(disk, z, depth, start, i), start, start + (Cap(depth) - Off(depth, i)) * BLOCK)
    decreases depth, PTRS - i
  {
    hide Leaves, LeavesFrom, Sorted, Within;
    LeavesFromUnfold(disk, z, depth, start, i);
    if i < PTRS {
      var next := start + Cap(depth - 1) * BLOCK;
      assert next % BLOCK == 0;
      LeavesSorted(disk, Ptr(disk(z), i), depth - 1, start);
      LeavesFromSorted(disk, z, depth, next, i + 1);
      assert Off(depth, i + 1) == Off(depth, i) + Cap(depth - 1);
      JoinSorted(Leaves(disk, Ptr(disk(z), i), depth - 1, start), LeavesFrom(disk, z, depth, next, i + 1),
                 start, next, start + (Cap(depth) - Off(depth, i)) * BLOCK);
    } else {
      EmptySorted(start, start + (Cap(depth) - Off(depth, i)) * BLOCK);
    }
  }

  lemma EmptySorted(lo: nat, hi: nat)
    ensures Sorted([]) && Within([], lo, hi)
  {
  }

  lemma DirectSorted(disk: Disk, n: Inode)
    requires InodeOk(n)
    ensures Sorted(FileLine(disk, n, DIRECT)) && Within(FileLine(disk, n, DIRECT), 0, SlotBase(7) * BLOCK)
  {
    hide BlockZone;
  }

  /** The double-indirect walk ends where the triple-indirect walk begins, also when it is missing. */
  lemma DoubleWithin(disk: Disk, n: Inode)
    requires InodeOk(n)
    ensures TripleStart(n) % BLOCK == 0 && SlotBase(8) * BLOCK <= TripleStart(n)
    ensures Sorted(Leaves(disk, n.zones[8], 2, SlotBase(8) * BLOCK))
    ensures Within(Leaves(disk, n.zones[8], 2, SlotBase(8) * BLOCK), SlotBase(8) * BLOCK, TripleStart(n))
  {
    hide LeavesFrom;
    LeavesUnfold(disk, n.zones[8], 2, SlotBase(8) * BLOCK);
    LeavesSorted(disk, n.zones[8], 2, SlotBase(8) * BLOCK);
  }

  lemma SingleWithin(disk: Disk, n: Inode)
    requires InodeOk(n)
    ensures Sorted(Leaves(disk, n.zones[7], 1, SlotBase(7) * BLOCK))
    ensures Within(Leaves(disk, n.zones[7], 1, SlotBase(7) * BLOCK), SlotBase(7) * BLOCK, SlotBase(8) * BLOCK)
  {
    LeavesSorted(disk, n.zones[7], 1, SlotBase(7) * BLOCK);
  }

  lemma UpToDoubleSorted(disk: Disk, n: Inode)
    requires InodeOk(n)
    ensures var a := FileLine(disk, n, DIRECT)
        + Leaves(disk, n.zones[7], 1, SlotBase(7) * BLOCK) + Leaves(disk, n.zones[8], 2, SlotBase(8) * BLOCK);
      Sorted(a) && Within(a, 0, TripleStart(n))
  {
    assert |n.zones| == 10 && SlotBase(7) <= SlotBase(8);
    hide *;
    DirectSorted(disk, n);
    SingleWithin(disk, n);
    DoubleWithin(disk, n);
    var d, s1 := FileLine(disk, n, DIRECT), Leaves(disk, n.zones[7], 1, SlotBase(7) * BLOCK);
    JoinSorted(d, s1, 0, SlotBase(7) * BLOCK, SlotBase(8) * BLOCK);
    JoinSorted(d + s1, Leaves(disk, n.zones[8], 2, SlotBase(8) * BLOCK), 0, SlotBase(8) * BLOCK, TripleStart(n));
  }

  lemma FileEventsSorted(disk: Disk, n: Inode)
    requires InodeOk(n)
    ensures Sorted(FileEvents(disk, n))
  {
    hide Leaves, FileLine, FileEvents, Sorted, Within, TripleStart, SlotBase, Cap;
    FileEventsAre(disk, n);
    UpToDoubleSorted(disk, n);
    DoubleWithin(disk, n);
    LeavesSorted(disk, n.zones[9], 3, TripleStart(n));
    JoinSorted(FileLine(disk, n, DIRECT)
               + Leaves(disk, n.zones[7], 1, SlotBase(7) * BLOCK) + Leaves(disk, n.zones[8], 2, SlotBase(8) * BLOCK),
               Leaves(disk, n.zones[9], 3, TripleStart(n)), 0, TripleStart(n), TripleStart(n) + Cap(3) * BLOCK);
  }

  // ---------------------------------------------------------------- the walk and the block map

  /** A reached block below a pointer is met on the walk. */
  lemma {:induction false} LeavesHas(disk: Disk, z: nat, depth: nat, start: nat, k: nat)
    requires depth <= 3 && k < Cap(depth) && Reach(disk, z, depth, k)
    ensures Event(LeafZone(disk, z, depth, k), start + k * BLOCK) in Leaves(disk, z, depth, start)
    decreases depth, PTRS + 1
  {
    hide Leaves, LeavesFrom;
    LeavesUnfold(disk, z, depth, start);
    if depth > 0 {
      LeavesFromHas(disk, z, depth, start, 0, k);
    }
  }

  lemma {:induction false} LeavesFromHas(disk: Disk, z: nat, depth: nat, start: nat, i: nat, k: nat)
    requires 0 < depth <= 3 && i <= PTRS && Off(depth, i) <= k < Cap(depth) && Reach(disk, z, depth, k)
    ensures Event(LeafZone(disk, z, depth, k), start + (k - Off(depth, i)) * BLOCK) in LeavesFrom(disk, z, depth, start,
                  i)
    decreases depth, PTRS - i
  {
    hide Leaves, LeavesFrom;
    LeavesFromUnfold(disk, z, depth, start, i);
    if Quot(depth, k) == i {
      LeavesHas(disk, Ptr(disk(z), i), depth - 1, start, k - Off(depth, i));
    } else {
      LeavesFromHas(disk, z, depth, start + Cap(depth - 1) * BLOCK, i + 1, k);
    }
  }

  /** Everything met on the walk is a reached block. */
  lemma {:induction false} LeavesOnly(disk: Disk, z: nat, depth: nat, start: nat, e: Event) returns (k: nat)
    requires depth <= 3 && e in Leaves(disk, z, depth, start)
    ensures k < Cap(depth) && Reach(disk, z, depth, k) && e == Event(LeafZone(disk, z, depth, k), start + k * BLOCK)
    decreases depth, PTRS + 1
  {
    hide Leaves, LeavesFrom;
    LeavesUnfold(disk, z, depth, start);
    if depth == 0 {
      k := 0;
    } else {
      k := LeavesFromOnly(disk, z, depth, start, 0, e);
    }
  }

  lemma {:induction false} LeavesFromOnly(disk: Disk, z: nat, depth: nat, start: nat, i: nat, e: Event) returns (k: nat)
    requires 0 < depth <= 3 && i <= PTRS && z != 0 && e in LeavesFrom(disk, z, depth, start, i)
    ensures Off(depth, i) <= k < Cap(depth) && Reach(disk, z, depth, k)
    ensures e == Event(LeafZone(disk, z, depth, k), start + (k - Off(depth, i)) * BLOCK)
    decreases depth, PTRS - i
  {
    hide Leaves, LeavesFrom, LeafZone, Reach, Cap, Off, Ptr;
    LeavesFromUnfold(disk, z, depth, start, i);
    var child := Ptr(disk(z), i);
    if e in Leaves(disk, child, depth - 1, start) {
      var j := LeavesOnly(disk, child, depth - 1, start, e);
      ChildBlock(disk, z, depth, i, j);
      k := Off(depth, i) + j;
    } else {
      OffStep(depth, i);
      k := LeavesFromOnly(disk, z, depth, start + Cap(depth - 1) * BLOCK, i + 1, e);
    }
  }

  lemma OffStep(depth: nat, i: nat)
    requires 0 < depth <= 3
    ensures Off(depth, i + 1) == Off(depth, i) + Cap(depth - 1)
  {
  }

  lemma ChildBlock(disk: Disk, z: nat, depth: nat, i: nat, j: nat)
    requires 0 < depth <= 3 && i < PTRS && z != 0 && j < Cap(depth - 1) && Reach(disk, Ptr(disk(z), i), depth - 1, j)
    ensures Off(depth, i) + j < Cap(depth) && Reach(disk, z, depth, Off(depth, i) + j)
    ensures LeafZone(disk, z, depth, Off(depth, i) + j) == LeafZone(disk, Ptr(disk(z), i), depth - 1, j)
  {
    ChildIndex(depth, i, j);
  }

  /** The event of a block of the file's block map. */
  ghost predicate IsBlock(disk: Disk, n: Inode, e: Event, b: nat)
    requires InodeOk(n)
  {
    b < MAX_BLOCKS && BlockReached(disk, n, b) && e == Event(BlockZone(disk, n, b), b * BLOCK)
  }

  lemma SlotParts(disk: Disk, n: Inode, b: nat) returns (s: nat)
    requires InodeOk(n) && DIRECT <= b < MAX_BLOCKS
    ensures 7 <= s <= 9 && s == Slot(b).0 && SlotBase(s) <= b < SlotBase(s) + Cap(s - 6)
    ensures BlockReached(disk, n, b) <==> Reach(disk, n.zones[s], s - 6, b - SlotBase(s))
    ensures BlockZone(disk, n, b) == LeafZone(disk, n.zones[s], s - 6, b - SlotBase(s))
  {
    hide Reach, LeafZone;
    s := Slot(b).0;
    assert Slot(b) == (s, s - 6, b - SlotBase(s));
  }

  /** A block behind a slot is met on the walk below that slot's pointer. */
  lemma BehindSlot(disk: Disk, n: Inode, b: nat) returns (s: nat)
    requires InodeOk(n) && DIRECT <= b < MAX_BLOCKS && BlockReached(disk, n, b)
    ensures 7 <= s <= 9 && s == Slot(b).0
    ensures Event(BlockZone(disk, n, b), b * BLOCK) in Leaves(disk, n.zones[s], s - 6, SlotBase(s) * BLOCK)
  {
    hide Leaves, BlockReached, BlockZone, LeafZone, Reach, Slot, Cap, SlotBase;
    s := SlotParts(disk, n, b);
    LeavesHas(disk, n.zones[s], s - 6, SlotBase(s) * BLOCK, b - SlotBase(s));
    assert SlotBase(s) * BLOCK + (b - SlotBase(s)) * BLOCK == b * BLOCK;
  }

  lemma DirectHas(disk: Disk, n: Inode, b: nat)
    requires InodeOk(n) && b < DIRECT
    ensures Event(BlockZone(disk, n, b), b * BLOCK) in FileEvents(disk, n)
  {
    FileEventsAre(disk, n);
    hide BlockZone, Leaves, FileEvents;
    assert FileLine(disk, n, DIRECT)[b] == Event(BlockZone(disk, n, b), b * BLOCK);
  }

  lemma TripleMember(disk: Disk, n: Inode, e: Event)
    requires InodeOk(n) && e in Leaves(disk, n.zones[9], 3, TripleStart(n))
    ensures e in FileEvents(disk, n)
  {
    assert |n.zones| == 10;
    hide *;
    FileEventsAre(disk, n);
  }

  lemma TripleShift(n: Inode, b: nat)
    requires InodeOk(n) && n.zones[8] == 0 && SlotBase(9) <= b < MAX_BLOCKS
    ensures Slot(b).0 == 9 && Cap(2) <= b && DIRECT <= b
    ensures TripleStart(n) + (b - SlotBase(9)) * BLOCK == (b - Cap(2)) * BLOCK
  {
  }

  /** A missing double-indirect pointer misplaces every block behind the triple-indirect one, by the
      length of the missing range. */
  lemma MissingDouble(disk: Disk, n: Inode, b: nat)
    requires InodeOk(n) && n.zones[8] == 0 && SlotBase(9) <= b < MAX_BLOCKS && BlockReached(disk, n, b)
    ensures Cap(2) <= b && Event(BlockZone(disk, n, b), (b - Cap(2)) * BLOCK) in FileEvents(disk, n)
  {
    hide Leaves, FileEvents, Reach, LeafZone, BlockZone, BlockReached, TripleStart, Slot, SlotBase, Cap;
    TripleShift(n, b);
    var e := Event(BlockZone(disk, n, b), (b - Cap(2)) * BLOCK);
    assert e in Leaves(disk, n.zones[9], 3, TripleStart(n)) by {
      var s := SlotParts(disk, n, b);
      LeavesHas(disk, n.zones[9], 3, TripleStart(n), b - SlotBase(9));
    }
    TripleMember(disk, n, e);
  }

  /** Blocks before the double-indirect range. */
  const LOW: nat := DIRECT + 256

  /** The block of the file that the walk meets where it believes block `b` to be: without a double-indirect pointer
      everything from there on is taken 65536 blocks too early. */
  function Met(n: Inode, b: nat): nat
    requires InodeOk(n)
  {
    if n.zones[8] != 0 || b < LOW then b else b + Cap(2)
  }

  /** The walk meets event `e` where it believes block `b` to be. */
  ghost predicate MetAt(disk: Disk, n: Inode, e: Event, b: nat)
    requires InodeOk(n)
  {
    var m := Met(n, b);
    m < MAX_BLOCKS && BlockReached(disk, n, m) && e == Event(BlockZone(disk, n, m), b * BLOCK)
  }

  lemma MetInPlace(disk: Disk, n: Inode, b: nat)
    requires InodeOk(n) && b < MAX_BLOCKS && BlockReached(disk, n, b) && Met(n, b) == b && DIRECT <= b
    ensures Event(BlockZone(disk, n, b), b * BLOCK) in FileEvents(disk, n)
  {
    hide *;
    TripleInPlace(n, b);
    FileEventsAre(disk, n);
    var s := BehindSlot(disk, n, b);
  }

  lemma TripleInPlace(n: Inode, b: nat)
    requires InodeOk(n) && Met(n, b) == b
    ensures |n.zones| == 10 && (Slot(b).0 == 9 ==> TripleStart(n) == SlotBase(9) * BLOCK)
  {
  }

  /** Every reached block of the file is met, at the position the walk gives it. */
  lemma MetHas(disk: Disk, n: Inode, b: nat)
    requires InodeOk(n) && Met(n, b) < MAX_BLOCKS && BlockReached(disk, n, Met(n, b))
    ensures Event(BlockZone(disk, n, Met(n, b)), b * BLOCK) in FileEvents(disk, n)
  {
    hide FileEvents, BlockZone, BlockReached;
    if b < DIRECT {
      DirectHas(disk, n, b);
    } else if Met(n, b) == b {
      MetInPlace(disk, n, b);
    } else {
      MissingDouble(disk, n, Met(n, b));
    }
  }

  lemma DirectMet(disk: Disk, n: Inode, e: Event) returns (b: nat)
    requires InodeOk(n) && e in FileLine(disk, n, DIRECT)
    ensures MetAt(disk, n, e, b)
  {
    b :| 0 <= b < DIRECT && FileLine(disk, n, DIRECT)[b] == e;
  }

  lemma BehindMet(disk: Disk, n: Inode, s: nat, start: nat, e: Event) returns (b: nat)
    requires InodeOk(n) && 7 <= s <= 9 && e in Leaves(disk, n.zones[s], s - 6, start)
    requires start == if s == 9 then TripleStart(n) else SlotBase(s) * BLOCK
    ensures MetAt(disk, n, e, b)
  {
    hide Leaves, LeafZone, Reach;
    assert n.zones[s] != 0 by { EmptyBelow(disk, s - 6, start); }
    var k := LeavesOnly(disk, n.zones[s], s - 6, start, e);
    SlotIs(s, k);
    b := start / BLOCK + k;
    assert Met(n, b) == SlotBase(s) + k;
  }

  lemma EmptyBelow(disk: Disk, depth: nat, start: nat)
    requires 0 < depth <= 3
    ensures Leaves(disk, 0, depth, start) == []
  {
    hide LeavesFrom;
    LeavesUnfold(disk, 0, depth, start);
  }

  /** Nothing else is met. */
  lemma MetOnly(disk: Disk, n: Inode, e: Event) returns (b: nat)
    requires InodeOk(n) && e in FileEvents(disk, n)
    ensures MetAt(disk, n, e, b)
  {
    hide Leaves, FileEvents, FileLine, MetAt, TripleStart, SlotBase;
    assert |n.zones| == 10;
    hide InodeOk;
    FileEventsAre(disk, n);
    if e in FileLine(disk, n, DIRECT) {
      b := DirectMet(disk, n, e);
    } else if e in Leaves(disk, n.zones[7], 1, SlotBase(7) * BLOCK) {
      b := BehindMet(disk, n, 7, SlotBase(7) * BLOCK, e);
    } else if e in Leaves(disk, n.zones[8], 2, SlotBase(8) * BLOCK) {
      b := BehindMet(disk, n, 8, SlotBase(8) * BLOCK, e);
    } else {
      b := BehindMet(disk, n, 9, TripleStart(n), e);
    }
  }

  // ---------------------------------------------------------------- the condition on a file

  /** A block of the file is a hole the walk meets: its way is there and its data zone is zero. */
  ghost predicate Hole(disk: Disk, n: Inode, b: nat)
    requires InodeOk(n)
  {
    b < MAX_BLOCKS && BlockReached(disk, n, b) && BlockZone(disk, n, b) == 0
  }

  /** The block is there: its way and its data zone. */
  ghost predicate Present(disk: Disk, n: Inode, b: nat)
    requires InodeOk(n)
  {
    b < MAX_BLOCKS && BlockReached(disk, n, b) && BlockZone(disk, n, b) != 0
  }

  /** What the walk meets where it believes block `b` to be. */
  ghost predicate MetPresent(disk: Disk, n: Inode, b: nat)
    requires InodeOk(n)
  {
    Present(disk, n, Met(n, b))
  }

  ghost predicate MetHole(disk: Disk, n: Inode, b: nat)
    requires InodeOk(n)
  {
    Hole(disk, n, Met(n, b))
  }

  /** A hole met before the window is followed only by holes up to the window's first byte. */
  ghost predicate HolesReachUp(disk: Disk, n: Inode, lo: nat)
    requires InodeOk(n)
  {
    forall b: nat :: b * BLOCK + BLOCK <= lo && MetHole(disk, n, b) ==> HoleReachesUp(disk, n, lo, b)
  }

  ghost predicate HoleReachesUp(disk: Disk, n: Inode, lo: nat, b: nat)
    requires InodeOk(n) && lo > 0
  {
    && lo % BLOCK == 0 && lo >= BLOCK && MetHole(disk, n, lo / BLOCK - 1)
    && forall c: nat :: b <= c && c * BLOCK + BLOCK <= lo ==> !MetPresent(disk, n, c)
  }

  /** The pointers a read of `[lo, end)` needs to take exactly its window: a block is met everywhere in the window, and
      holes before it do no harm. */
  ghost predicate Covering(disk: Disk, n: Inode, lo: nat, end: nat)
    requires InodeOk(n)
  {
    && (forall b: nat :: b * BLOCK < end && lo < b * BLOCK + BLOCK ==> MetPresent(disk, n, b))
    && HolesReachUp(disk, n, lo)
  }

  lemma CoveredIsPresent(disk: Disk, n: Inode, b: nat)
    requires InodeOk(n)
    ensures PresentAt(FileEvents(disk, n), b) <==> MetPresent(disk, n, b)
  {
    hide FileEvents, BlockReached, BlockZone;
    var all := FileEvents(disk, n);
    if PresentAt(all, b) {
      var e :| e in all && e.start == b * BLOCK && e.zone != 0;
      var c := MetOnly(disk, n, e);
      assert c == b;
    }
    if MetPresent(disk, n, b) {
      MetHas(disk, n, b);
    }
  }

  lemma HarmlessForward(disk: Disk, n: Inode, lo: nat, b: nat)
    requires InodeOk(n) && HolesHarmless(FileEvents(disk, n), lo)
    requires b * BLOCK + BLOCK <= lo && MetHole(disk, n, b)
    ensures HoleReachesUp(disk, n, lo, b)
  {
    hide FileEvents, BlockReached, BlockZone, Met;
    var all := FileEvents(disk, n);
    MetHas(disk, n, b);
    assert Event(0, b * BLOCK) in all;
    assert HoleEndsAt(all, lo);
    var f :| f in all && f.start + BLOCK == lo && f.zone == 0;
    var c := MetOnly(disk, n, f);
    assert c == lo / BLOCK - 1;
    forall c: nat | b <= c && c * BLOCK + BLOCK <= lo ensures !MetPresent(disk, n, c) {
      if MetPresent(disk, n, c) {
        MetHas(disk, n, c);
      }
    }
  }

  lemma HarmlessBackward(disk: Disk, n: Inode, lo: nat, e: Event)
    requires InodeOk(n) && HolesReachUp(disk, n, lo)
    requires e in FileEvents(disk, n) && e.zone == 0 && e.start + BLOCK <= lo
    ensures forall f :: f in FileEvents(disk, n) && e.start <= f.start && f.start + BLOCK <= lo ==> f.zone == 0
    ensures HoleEndsAt(FileEvents(disk, n), lo)
  {
    hide FileEvents, BlockReached, BlockZone, Met;
    var all := FileEvents(disk, n);
    var b := MetOnly(disk, n, e);
    assert MetHole(disk, n, b);
    assert HoleReachesUp(disk, n, lo, b);
    MetHas(disk, n, lo / BLOCK - 1);
    forall f | f in all && e.start <= f.start && f.start + BLOCK <= lo ensures f.zone == 0 {
      var c := MetOnly(disk, n, f);
      assert !MetPresent(disk, n, c);
    }
  }

  lemma HarmlessBlocks(disk: Disk, n: Inode, lo: nat)
    requires InodeOk(n)
    ensures HolesHarmless(FileEvents(disk, n), lo) <==> HolesReachUp(disk, n, lo)
  {
    hide FileEvents, MetHole, HoleReachesUp, HoleEndsAt;
    var all := FileEvents(disk, n);
    if HolesHarmless(all, lo) {
      forall b: nat | b * BLOCK + BLOCK <= lo && MetHole(disk, n, b) ensures HoleReachesUp(disk, n, lo, b) {
        HarmlessForward(disk, n, lo, b);
      }
    }
    if HolesReachUp(disk, n, lo) {
      forall e | e in all && e.zone == 0 && e.start + BLOCK <= lo
        ensures forall f :: f in all && e.start <= f.start && f.start + BLOCK <= lo ==> f.zone == 0
        ensures HoleEndsAt(all, lo)
      {
        HarmlessBackward(disk, n, lo, e);
      }
    }
  }

  /** The exact condition, for every file: the positions a read takes are exactly its window, in order, if and only if
      a block is met at each of them and holes before the window do no harm. */
  lemma ReadExactIff(disk: Disk, n: Inode, offset: nat, cap: nat, end: nat)
    requires Window(n, offset, cap, end)
    ensures offset < n.size && Want(n, offset, cap) > 0
    ensures Exact(ReadChunks(disk, n, offset, cap), offset, end) <==> Covering(disk, n, offset, end)
  {
    WindowFacts(disk, n, offset, cap, end);
    hide FileEvents, CopyAll, Exact, MetPresent, PresentAt, HolesHarmless, HolesReachUp, Sorted;
    FileEventsSorted(disk, n);
    EventsExactIff(FileEvents(disk, n), offset, end, cap);
    HarmlessBlocks(disk, n, offset);
    forall b: nat ensures PresentAt(FileEvents(disk, n), b) <==> MetPresent(disk, n, b) {
      CoveredIsPresent(disk, n, b);
    }
  }
}
