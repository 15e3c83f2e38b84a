/** Which pointer blocks a read asks for: those above the blocks up to the end of its window, once each and in order. */
module Minix3Index {
  import opened Minix3
  import opened Minix3Proofs
  import opened Minix3Safe
  import opened Minix3Trail

  // ---------------------------------------------------------------- the pointer blocks above a file's first blocks

  /** The pointer blocks above the first `m` blocks below a pointer, parents first. */
  function Above(disk: Disk, z: nat, depth: nat, m: nat): seq<nat>
    requires depth <= 3 && m <= Cap(depth)
    decreases depth, PTRS + 1
  {
    if depth == 0 || m == 0 then [] else [z] + AboveFrom(disk, z, depth, 0, m)
  }

  /** The same for the entries from `i` on of a pointer block. */
  function AboveFrom(disk: Disk, z: nat, depth: nat, i: nat, m: nat): seq<nat>
    requires 0 < depth <= 3 && i <= PTRS && Off(depth, i) + m <= Cap(depth)
    decreases depth, PTRS - i
  {
    if m == 0 || i == PTRS then []
    else
      var here := Min(m, Cap(depth - 1));
      Above(disk, Ptr(disk(z), i), depth - 1, here) + AboveFrom(disk, z, depth, i + 1, m - here)
  }

  /** Of the first `m` blocks of a file, those behind a slot. */
  function Behind(s: nat, m: nat): (k: nat)
    requires 7 <= s <= 9
    ensures k <= Cap(s - 6)
  {
    if m <= SlotBase(s) then 0 else Min(m - SlotBase(s), Cap(s - 6))
  }

  /** The pointer blocks above the first `m` blocks of a file. */
  function FileAbove(disk: Disk, n: Inode, m: nat): seq<nat>
    requires InodeOk(n)
  {
    Above(disk, n.zones[7], 1, Behind(7, m)) + Above(disk, n.zones[8], 2, Behind(8, m)) + Above(disk, n.zones[9], 3,
          Behind(9, m))
  }

  // ---------------------------------------------------------------- a read that is in step with the file

  /** Standing at block boundary `start`, all bytes before it copied or skipped. */
  ghost predicate Going(p: Progress, start: nat, lo: nat, end: nat, cap: nat) {
    && p.More? && start < end && lo < end && p.cur == Max(lo, start)
    && Length(p.chunks) + (end - p.cur) <= cap
  }

  /** At block boundary `start`, or already finished. */
  ghost predicate Stands(p: Progress, start: nat, lo: nat, end: nat, cap: nat) {
    if start < end then Going(p, start, lo, end, cap) else p.Full?
  }

  /** Blocks needed from `start` on, of `room` that follow. */
  function Needed(start: nat, end: nat, room: nat): (m: nat)
    ensures m <= room
    ensures room > 0 && start < end ==> m > 0
  {
    if end <= start then 0 else Min(room, (end - start + (BLOCK - 1)) / BLOCK)
  }

  lemma NeededSplit(start: nat, end: nat, a: nat, b: nat)
    requires start < end
    ensures Needed(start, end, a + b) == Needed(start, end, a) + Needed(start + a * BLOCK, end, b)
    ensures Needed(start, end, a) == Min(Needed(start, end, a + b), a)
  {
  }

  /** No block before the window is missing among the first `m` below a pointer. */
  ghost predicate NoHoleBelow(disk: Disk, z: nat, depth: nat, start: nat, lo: nat, m: nat)
    requires depth <= 3 && m <= Cap(depth)
  {
    forall k: nat :: k < m && start + k * BLOCK + BLOCK <= lo ==> LeafZone(disk, z, depth, k) != 0
  }

  lemma ChildHoles(disk: Disk, z: nat, depth: nat, start: nat, lo: nat, i: nat, here: nat, m: nat)
    requires 0 < depth <= 3 && i < PTRS && here <= Cap(depth - 1)
    requires Off(depth, i) + here <= m <= Cap(depth) && NoHoleBelow(disk, z, depth, start, lo, m)
    ensures NoHoleBelow(disk, Ptr(disk(z), i), depth - 1, start + Off(depth, i) * BLOCK, lo, here)
  {
    hide LeafZone;
    var child, d := Ptr(disk(z), i), depth - 1;
    forall k: nat | k < here && start + Off(depth, i) * BLOCK + k * BLOCK + BLOCK <= lo
      ensures LeafZone(disk, child, d, k) != 0
    {
      ChildLeaf(disk, z, depth, i, k);
      assert start + (Off(depth, i) + k) * BLOCK + BLOCK <= lo;
    }
  }

  lemma LeafInStep(z: nat, start: nat, p: Progress, lo: nat, end: nat, cap: nat)
    requires Going(p, start, lo, end, cap) && (start + BLOCK <= lo ==> z != 0)
    ensures Stands(CopyAll(p, [Event(z, start)], end, cap), start + BLOCK, lo, end, cap)
  {
    CopyOne(p, Event(z, start), end, cap);
    hide CopyAll, StepZone, Length;
    StepLine(Event(z, start), lo, end, cap, p.chunks);
  }

  lemma OnlyData(e: Event, p: Progress, end: nat)
    ensures IndexOf(DataReads(e, p, end)) == []
  {
    var t := DataReads(e, p, end);
    assert t != [] ==> t[1..] == [];
  }

  /** Below a pointer: the pointer blocks read are those above the blocks still needed. */
  lemma {:induction false} TrailIndex(disk: Disk, z: nat, depth: nat, start: nat, p: Progress, lo: nat, end: nat,
                                      cap: nat)
    requires depth <= 3 && Going(p, start, lo, end, cap)
    requires ReachAll(disk, z, depth, Needed(start, end, Cap(depth)))
    requires NoHoleBelow(disk, z, depth, start, lo, Needed(start, end, Cap(depth)))
    ensures IndexOf(Trail(disk, z, depth, start, p, end, cap)) == Above(disk, z, depth, Needed(start, end, Cap(depth)))
    ensures Stands(CopyAll(p, Leaves(disk, z, depth, start), end, cap), start + Cap(depth) * BLOCK, lo, end, cap)
    decreases depth, PTRS + 2
  {
    hide Leaves, LeavesFrom, Trail, TrailFrom, CopyAll, Above, AboveFrom, Going, Stands, ReachAll, NoHoleBelow, Needed;
    hide IndexOf, Cap;
    if depth == 0 {
      LeafIndex(disk, z, start, p, lo, end, cap);
    } else {
      TableIndex(disk, z, depth, start, p, lo, end, cap);
    }
  }

  lemma {:induction false} TableIndex(disk: Disk, z: nat, depth: nat, start: nat, p: Progress, lo: nat, end: nat,
                                      cap: nat)
    requires 0 < depth <= 3 && Going(p, start, lo, end, cap)
    requires ReachAll(disk, z, depth, Needed(start, end, Cap(depth)))
    requires NoHoleBelow(disk, z, depth, start, lo, Needed(start, end, Cap(depth)))
    ensures IndexOf(Trail(disk, z, depth, start, p, end, cap)) == Above(disk, z, depth, Needed(start, end, Cap(depth)))
    ensures Stands(CopyAll(p, Leaves(disk, z, depth, start), end, cap), start + Cap(depth) * BLOCK, lo, end, cap)
    decreases depth, PTRS + 1
  {
    hide Leaves, LeavesFrom, Trail, TrailFrom, CopyAll, Above, AboveFrom, Going, Stands, ReachAll, NoHoleBelow, Needed;
    hide IndexOf, Cap, Off, EntryAt;
    var m := Needed(start, end, Cap(depth));
    GoingStands(p, start, lo, end, cap);
    RoomBelow(depth);
    FirstReached(disk, z, depth, m);
    FirstEntry(start, depth);
    LeavesUnfold(disk, z, depth, start);
    TrailFromIndex(disk, z, depth, start, 0, start, m, p, lo, end, cap);
    TrailUnfold(disk, z, depth, start, p, end, cap);
    IndexJoin([Index(z)], TrailFrom(disk, z, depth, start, 0, p, end, cap));
    JustIndex(z);
    AboveUnfold(disk, z, depth, m);
  }

  lemma RoomBelow(depth: nat)
    requires depth <= 3
    ensures Cap(depth) > 0
  {
  }

  lemma FirstEntry(start: nat, depth: nat)
    requires 0 < depth <= 3
    ensures Off(depth, 0) == 0 && EntryAt(start, depth, 0) == start
  {
  }

  lemma LeafIndex(disk: Disk, z: nat, start: nat, p: Progress, lo: nat, end: nat, cap: nat)
    requires Going(p, start, lo, end, cap) && NoHoleBelow(disk, z, 0, start, lo, Needed(start, end, Cap(0)))
    ensures IndexOf(Trail(disk, z, 0, start, p, end, cap)) == Above(disk, z, 0, Needed(start, end, Cap(0)))
    ensures Stands(CopyAll(p, Leaves(disk, z, 0, start), end, cap), start + Cap(0) * BLOCK, lo, end, cap)
  {
    hide CopyAll, Stands, Length;
    OnlyData(Event(z, start), p, end);
    assert LeafZone(disk, z, 0, 0) == z;
    assert start + 0 * BLOCK + BLOCK <= lo ==> LeafZone(disk, z, 0, 0) != 0;
    LeafInStep(z, start, p, lo, end, cap);
  }

  lemma FirstReached(disk: Disk, z: nat, depth: nat, m: nat)
    requires 0 < depth <= 3 && 0 < m <= Cap(depth) && ReachAll(disk, z, depth, m)
    ensures z != 0
  {
    assert Reach(disk, z, depth, 0);
  }

  lemma AboveUnfold(disk: Disk, z: nat, depth: nat, m: nat)
    requires 0 < depth <= 3 && 0 < m <= Cap(depth)
    ensures Off(depth, 0) == 0 && Above(disk, z, depth, m) == [z] + AboveFrom(disk, z, depth, 0, m)
  {
    hide AboveFrom;
  }

  lemma AboveFromUnfold(disk: Disk, z: nat, depth: nat, i: nat, m: nat)
    requires 0 < depth <= 3 && i <= PTRS && Off(depth, i) + m <= Cap(depth)
    ensures m == 0 || i == PTRS ==> AboveFrom(disk, z, depth, i, m) == []
    ensures m > 0 && i < PTRS ==>
      var here := Min(m, Cap(depth - 1));
      && Off(depth, i + 1) + (m - here) <= Cap(depth)
      && AboveFrom(disk, z, depth, i, m)
         == Above(disk, Ptr(disk(z), i), depth - 1, here) + AboveFrom(disk, z, depth, i + 1, m - here)
  {
    hide Above;
  }

  lemma JustIndex(z: nat)
    ensures IndexOf([Index(z)]) == [z]
  {
    assert [Index(z)][1..] == [];
  }

  lemma GoingStands(p: Progress, start: nat, lo: nat, end: nat, cap: nat)
    requires Going(p, start, lo, end, cap)
    ensures Stands(p, start, lo, end, cap) && start < end && Running(p, end)
  {
  }

  lemma StandsIs(p: Progress, start: nat, lo: nat, end: nat, cap: nat)
    requires Stands(p, start, lo, end, cap)
    ensures start < end ==> Going(p, start, lo, end, cap) && Running(p, end)
    ensures start >= end ==> p.Full?
  {
  }

  /** The position of entry `i` when its pointer block begins at `start`. */
  function EntryAt(start: nat, depth: nat, i: nat): nat
    requires 0 < depth <= 3
  {
    start + Off(depth, i) * BLOCK
  }

  lemma EntryNext(start: nat, depth: nat, i: nat)
    requires 0 < depth <= 3 && i < PTRS
    ensures EntryAt(start, depth, i) + Cap(depth - 1) * BLOCK == EntryAt(start, depth, i + 1)
    ensures Off(depth, i) + Cap(depth - 1) == Off(depth, i + 1) <= Cap(depth)
    ensures EntryAt(start, depth, PTRS) == start + Cap(depth) * BLOCK && Off(depth, PTRS) == Cap(depth)
  {
  }

  lemma {:induction false} TrailFromIndex(disk: Disk, z: nat, depth: nat, start: nat, i: nat, at: nat, left: nat,
                                          p: Progress,
                                          lo: nat, end: nat, cap: nat)
    requires 0 < depth <= 3 && i <= PTRS && Off(depth, i) + left <= Cap(depth) && at == EntryAt(start, depth, i)
    requires left == Needed(at, end, Cap(depth) - Off(depth, i)) && start < end && Stands(p, at, lo, end, cap)
    requires ReachAll(disk, z, depth, Needed(start, end, Cap(depth)))
    requires NoHoleBelow(disk, z, depth, start, lo, Needed(start, end, Cap(depth)))
    ensures IndexOf(TrailFrom(disk, z, depth, at, i, p, end, cap)) == AboveFrom(disk, z, depth, i, left)
    ensures Stands(CopyAll(p, LeavesFrom(disk, z, depth, at, i), end, cap), start + Cap(depth) * BLOCK, lo, end, cap)
    decreases depth, PTRS - i
  {
    hide Leaves, LeavesFrom, Trail, TrailFrom, CopyAll, Stands, ReachAll, NoHoleBelow, Above, AboveFrom, Cap, Off;
    hide EntryAt, Needed, IndexOf, Ptr;
    LeavesFromUnfold(disk, z, depth, at, i);
    TrailFromUnfold(disk, z, depth, at, i, p, end, cap);
    AboveFromUnfold(disk, z, depth, i, left);
    StandsIs(p, at, lo, end, cap);
    if at >= end {
      CopyAllDone(p, LeavesFrom(disk, z, depth, at, i), end, cap);
      FullStands(p, start, depth, i, lo, end, cap);
      NothingRead();
    } else if i == PTRS {
      CopyNone(p, end, cap);
      EntryEnd(start, depth);
      NothingRead();
    } else {
      var child, next := Ptr(disk(z), i), EntryAt(start, depth, i + 1);
      var here := Needed(at, end, Cap(depth - 1));
      EntryNext(start, depth, i);
      EntryIs(start, depth, i);
      HereSplit(start, end, depth, i);
      ChildReach(disk, z, depth, i, here, Needed(start, end, Cap(depth)));
      ChildHoles(disk, z, depth, start, lo, i, here, Needed(start, end, Cap(depth)));
      TrailIndex(disk, child, depth - 1, at, p, lo, end, cap);
      var below, rest := Leaves(disk, child, depth - 1, at), LeavesFrom(disk, z, depth, next, i + 1);
      var q := CopyAll(p, below, end, cap);
      CopyAllConcat(p, below, rest, end, cap);
      TrailFromIndex(disk, z, depth, start, i + 1, next, left - here, q, lo, end, cap);
      IndexJoin(Trail(disk, child, depth - 1, at, p, end, cap), TrailFrom(disk, z, depth, next, i + 1, q, end, cap));
    }
  }

  lemma NothingRead()
    ensures IndexOf([]) == []
  {
  }

  lemma EntryIs(start: nat, depth: nat, i: nat)
    requires 0 < depth <= 3
    ensures EntryAt(start, depth, i) == start + Off(depth, i) * BLOCK
  {
  }

  lemma EntryEnd(start: nat, depth: nat)
    requires 0 < depth <= 3
    ensures EntryAt(start, depth, PTRS) == start + Cap(depth) * BLOCK && Off(depth, PTRS) == Cap(depth)
  {
  }

  lemma FullStands(p: Progress, start: nat, depth: nat, i: nat, lo: nat, end: nat, cap: nat)
    requires 0 < depth <= 3 && i <= PTRS && p.Full? && EntryAt(start, depth, i) >= end
    ensures Stands(p, start + Cap(depth) * BLOCK, lo, end, cap)
    ensures Needed(EntryAt(start, depth, i), end, Cap(depth) - Off(depth, i)) == 0
  {
  }

  /** What is needed below entry `i` and behind it. */
  lemma HereSplit(start: nat, end: nat, depth: nat, i: nat)
    requires 0 < depth <= 3 && i < PTRS && EntryAt(start, depth, i) < end
    ensures var at, next := EntryAt(start, depth, i), EntryAt(start, depth, i + 1);
      var left, here := Needed(at, end, Cap(depth) - Off(depth, i)), Needed(at, end, Cap(depth - 1));
      && left > 0 && here == Min(left, Cap(depth - 1))
      && left - here == Needed(next, end, Cap(depth) - Off(depth, i + 1))
      && Off(depth, i) + here <= Needed(start, end, Cap(depth))
  {
    EntryNext(start, depth, i);
    var at := EntryAt(start, depth, i);
    NeededSplit(at, end, Cap(depth - 1), Cap(depth) - Off(depth, i + 1));
    NeededSplit(start, end, Off(depth, i), Cap(depth) - Off(depth, i));
    assert Needed(start, end, Off(depth, i)) == Off(depth, i);
  }

  // ---------------------------------------------------------------- a whole file

  /** No block of the first `m` that lies before the window is missing. */
  ghost predicate NoHoleIn(disk: Disk, n: Inode, lo: nat, m: nat)
    requires InodeOk(n) && m <= MAX_BLOCKS
  {
    forall b: nat :: b < m && b * BLOCK + BLOCK <= lo ==> BlockZone(disk, n, b) != 0
  }

  lemma LineHoles(disk: Disk, n: Inode, lo: nat, m: nat)
    requires InodeOk(n) && m <= MAX_BLOCKS && NoHoleBefore(FileLine(disk, n, m), lo)
    ensures NoHoleIn(disk, n, lo, m)
  {
    hide BlockZone;
    forall b: nat | b < m && b * BLOCK + BLOCK <= lo ensures BlockZone(disk, n, b) != 0 {
      assert FileLine(disk, n, m)[b] == Event(BlockZone(disk, n, b), b * BLOCK);
    }
  }

  lemma {:induction false} DirectIndex(n: Inode, i: nat, p: Progress, lo: nat, end: nat, cap: nat)
    requires InodeOk(n) && i <= DIRECT && Stands(p, i * BLOCK, lo, end, cap)
    requires forall k :: 0 <= k < DIRECT && k * BLOCK < end && k * BLOCK + BLOCK <= lo ==> n.zones[k] != 0
    ensures IndexOf(DirectTrail(n, i, p, end, cap)) == []
    ensures Stands(CopyAll(p, DirectEvents(n, i), end, cap), DIRECT * BLOCK, lo, end, cap)
    decreases DIRECT - i
  {
    StandsIs(p, i * BLOCK, lo, end, cap);
    NothingRead();
    if i * BLOCK >= end {
      hide CopyAll;
      CopyAllDone(p, DirectEvents(n, i), end, cap);
    } else if i < DIRECT {
      var e := Event(n.zones[i], i * BLOCK);
      CopyAllUnfold(p, DirectEvents(n, i), end, cap);
      assert DirectEvents(n, i)[1..] == DirectEvents(n, i + 1);
      hide CopyAll, Stands, StepZone;
      OnlyData(e, p, end);
      LeafStep(e.zone, e.start, p, lo, end, cap);
      DirectIndex(n, i + 1, StepZone(p, e, end, cap), lo, end, cap);
      IndexJoin(DataReads(e, p, end), DirectTrail(n, i + 1, StepZone(p, e, end, cap), end, cap));
    }
  }

  lemma LeafStep(z: nat, start: nat, p: Progress, lo: nat, end: nat, cap: nat)
    requires Going(p, start, lo, end, cap) && (start + BLOCK <= lo ==> z != 0)
    ensures Stands(StepZone(p, Event(z, start), end, cap), start + BLOCK, lo, end, cap)
  {
    hide StepZone, Length;
    StepLine(Event(z, start), lo, end, cap, p.chunks);
  }

  lemma SlotHoles(disk: Disk, n: Inode, s: nat, lo: nat, m: nat)
    requires InodeOk(n) && 7 <= s <= 9 && m <= MAX_BLOCKS && NoHoleIn(disk, n, lo, m)
    ensures NoHoleBelow(disk, n.zones[s], s - 6, SlotBase(s) * BLOCK, lo, Behind(s, m))
  {
    hide LeafZone;
    var z, d, base := n.zones[s], s - 6, SlotBase(s);
    forall k: nat | k < Behind(s, m) && base * BLOCK + k * BLOCK + BLOCK <= lo ensures LeafZone(disk, z, d, k) != 0 {
      SlotIs(s, k);
      assert BlockZone(disk, n, base + k) == LeafZone(disk, z, d, k);
    }
  }

  lemma BehindIs(s: nat, end: nat)
    requires 7 <= s <= 9
    ensures Behind(s, BlocksTo(end)) == Needed(SlotBase(s) * BLOCK, end, Cap(s - 6))
    ensures SlotBase(s) * BLOCK < end ==>
      SlotBase(s) + Behind(s, BlocksTo(end)) <= BlocksTo(end) && SlotBase(s) < BlocksTo(end)
    ensures SlotBase(s) * BLOCK >= end ==> Behind(s, BlocksTo(end)) == 0
  {
  }

  /** Behind the end of the window nothing happens any more. */
  lemma SlotBeyond(disk: Disk, z: nat, depth: nat, start: nat, p: Progress, at: nat, lo: nat, end: nat, cap: nat)
    requires 0 < depth <= 3 && Stands(p, at, lo, end, cap) && at >= end
    ensures IndexOf(Trail(disk, z, depth, start, p, end, cap)) == [] && Above(disk, z, depth, 0) == []
    ensures Stands(CopyAll(p, Leaves(disk, z, depth, start), end, cap), at + Cap(depth) * BLOCK, lo, end, cap)
  {
    hide Leaves, CopyAll, Cap;
    StandsIs(p, at, lo, end, cap);
    CopyAllDone(p, Leaves(disk, z, depth, start), end, cap);
  }

  /** Before it the pointer blocks are those above the blocks still needed. */
  lemma SlotWithin(disk: Disk, n: Inode, s: nat, p: Progress, lo: nat, end: nat, cap: nat)
    requires InodeOk(n) && 7 <= s <= 9 && Stands(p, SlotBase(s) * BLOCK, lo, end, cap) && SlotBase(s) * BLOCK < end
    requires BlocksTo(end) <= MAX_BLOCKS && AllReached(disk, n, BlocksTo(end)) && NoHoleIn(disk, n, lo, BlocksTo(end))
    ensures IndexOf(Trail(disk, n.zones[s], s - 6, SlotBase(s) * BLOCK, p, end, cap))
         == Above(disk, n.zones[s], s - 6, Behind(s, BlocksTo(end)))
    ensures Stands(CopyAll(p, Leaves(disk, n.zones[s], s - 6, SlotBase(s) * BLOCK), end, cap),
                   SlotBase(s) * BLOCK + Cap(s - 6) * BLOCK, lo, end, cap)
  {
    var m, base := BlocksTo(end), SlotBase(s);
    hide Leaves, CopyAll, Trail, Above, Stands, Going, NoHoleIn, NoHoleBelow, ReachAll, AllReached, Needed, Behind;
    hide SlotBase, Cap, BlocksTo, IndexOf;
    StandsIs(p, base * BLOCK, lo, end, cap);
    BehindIs(s, end);
    ReachedLess(disk, n, m, base + Behind(s, m));
    SlotReach(disk, n, s, Behind(s, m));
    SlotHoles(disk, n, s, lo, m);
    TrailIndex(disk, n.zones[s], s - 6, base * BLOCK, p, lo, end, cap);
  }

  lemma Spread(a: nat, b: nat)
    ensures (a + b) * BLOCK == a * BLOCK + b * BLOCK
  {
  }

  lemma SlotIndex(disk: Disk, n: Inode, s: nat, start: nat, p: Progress, lo: nat, end: nat, cap: nat)
    requires InodeOk(n) && 7 <= s <= 9 && Stands(p, SlotBase(s) * BLOCK, lo, end, cap) && BlocksTo(end) <= MAX_BLOCKS
    requires SlotBase(s) * BLOCK < end ==> start == SlotBase(s) * BLOCK
    requires AllReached(disk, n, BlocksTo(end)) && NoHoleIn(disk, n, lo, BlocksTo(end))
    ensures IndexOf(Trail(disk, n.zones[s], s - 6, start, p, end, cap))
         == Above(disk, n.zones[s], s - 6, Behind(s, BlocksTo(end)))
    ensures Stands(CopyAll(p, Leaves(disk, n.zones[s], s - 6, start), end, cap), (SlotBase(s) + Cap(s - 6)) * BLOCK, lo,
                   end, cap)
  {
    hide Leaves, CopyAll, Trail, Above, Stands, NoHoleIn, AllReached, Behind, SlotBase, Cap, BlocksTo, IndexOf;
    var base := SlotBase(s);
    Spread(base, Cap(s - 6));
    if base * BLOCK >= end {
      BehindIs(s, end);
      SlotBeyond(disk, n.zones[s], s - 6, start, p, base * BLOCK, lo, end, cap);
    } else {
      SlotWithin(disk, n, s, p, lo, end, cap);
    }
  }

  lemma BeginGoing(offset: nat, end: nat, cap: nat)
    requires offset < end && end - offset <= cap
    ensures Stands(More(offset, []), 0, offset, end, cap)
  {
    assert Length([]) == 0;
  }

  lemma DirectHoles(disk: Disk, n: Inode, lo: nat, end: nat)
    requires InodeOk(n) && BlocksTo(end) <= MAX_BLOCKS && NoHoleIn(disk, n, lo, BlocksTo(end))
    ensures forall k :: 0 <= k < DIRECT && k * BLOCK < end && k * BLOCK + BLOCK <= lo ==> n.zones[k] != 0
  {
    forall k | 0 <= k < DIRECT && k * BLOCK < end && k * BLOCK + BLOCK <= lo ensures n.zones[k] != 0 {
      assert k < BlocksTo(end) && BlockZone(disk, n, k) == n.zones[k];
    }
  }

  lemma IndexFour(a: seq<Access>, b: seq<Access>, c: seq<Access>, d: seq<Access>)
    ensures IndexOf(a + b + c + d) == IndexOf(a) + IndexOf(b) + IndexOf(c) + IndexOf(d)
  {
    hide IndexOf;
    IndexJoin(a + b + c, d);
    IndexJoin(a + b, c);
    IndexJoin(a, b);
  }

  lemma UpToSingle(disk: Disk, n: Inode, offset: nat, end: nat, cap: nat)
    requires InodeOk(n) && offset < end && end - offset <= cap && BlocksTo(end) <= MAX_BLOCKS
    requires AllReached(disk, n, BlocksTo(end)) && NoHoleIn(disk, n, offset, BlocksTo(end))
    ensures IndexOf(DirectTrail(n, 0, More(offset, []), end, cap)) == []
    ensures IndexOf(Trail(disk, n.zones[7], 1, DIRECT * BLOCK, AfterDirect(n, More(offset, []), end, cap), end, cap))
         == Above(disk, n.zones[7], 1, Behind(7, BlocksTo(end)))
    ensures Stands(AfterSingle(disk, n, More(offset, []), end, cap), SlotBase(8) * BLOCK, offset, end, cap)
  {
    assert |n.zones| == 10 && SlotBase(7) == DIRECT && SlotBase(8) == SlotBase(7) + Cap(1);
    hide Leaves, CopyAll, Trail, DirectTrail, DirectEvents, Above, Stands, NoHoleIn, AllReached, Behind, SlotBase, Cap;
    hide IndexOf, BlocksTo;
    BeginGoing(offset, end, cap);
    DirectHoles(disk, n, offset, end);
    DirectIndex(n, 0, More(offset, []), offset, end, cap);
    SlotIndex(disk, n, 7, DIRECT * BLOCK, AfterDirect(n, More(offset, []), end, cap), offset, end, cap);
  }

  lemma BasesAre(n: Inode)
    requires InodeOk(n)
    ensures |n.zones| == 10 && SlotBase(7) == DIRECT && SlotBase(8) == DIRECT + Cap(1)
    ensures SlotBase(9) == SlotBase(8) + Cap(2)
  {
  }

  lemma TripleHere(disk: Disk, n: Inode, end: nat)
    requires InodeOk(n) && BlocksTo(end) <= MAX_BLOCKS && AllReached(disk, n, BlocksTo(end))
    ensures SlotBase(9) * BLOCK < end ==> TripleStart(n) == SlotBase(9) * BLOCK
  {
    hide AllReached, TripleStart;
    if SlotBase(9) * BLOCK < end {
      BehindIs(9, end);
      TripleStartIs(disk, n, BlocksTo(end));
    }
  }

  lemma FromDouble(disk: Disk, n: Inode, p: Progress, offset: nat, end: nat, cap: nat)
    requires InodeOk(n) && BlocksTo(end) <= MAX_BLOCKS && Stands(p, SlotBase(8) * BLOCK, offset, end, cap)
    requires AllReached(disk, n, BlocksTo(end)) && NoHoleIn(disk, n, offset, BlocksTo(end))
    ensures IndexOf(Trail(disk, n.zones[8], 2, (DIRECT + Cap(1)) * BLOCK, p, end, cap))
         == Above(disk, n.zones[8], 2, Behind(8, BlocksTo(end)))
    ensures var q := CopyAll(p, Leaves(disk, n.zones[8], 2, (DIRECT + Cap(1)) * BLOCK), end, cap);
      IndexOf(Trail(disk, n.zones[9], 3, TripleStart(n), q, end, cap)) == Above(disk, n.zones[9], 3,
              Behind(9, BlocksTo(end)))
  {
    hide Leaves, CopyAll, Trail, Above, Stands, NoHoleIn, AllReached, Behind, SlotBase, Cap, IndexOf, TripleStart;
    hide BlocksTo;
    BasesAre(n);
    TripleHere(disk, n, end);
    SlotIndex(disk, n, 8, (DIRECT + Cap(1)) * BLOCK, p, offset, end, cap);
    var q := CopyAll(p, Leaves(disk, n.zones[8], 2, (DIRECT + Cap(1)) * BLOCK), end, cap);
    SlotIndex(disk, n, 9, TripleStart(n), q, offset, end, cap);
  }

  /** A read of a file whose pointer blocks are present up to the end of the window, with no hole before it, asks for
      exactly the pointer blocks above the blocks up to there, each once and parents first. */
  lemma FileTrailIndex(disk: Disk, n: Inode, offset: nat, end: nat, cap: nat)
    requires InodeOk(n) && offset < end && end - offset <= cap && BlocksTo(end) <= MAX_BLOCKS
    requires AllReached(disk, n, BlocksTo(end)) && NoHoleIn(disk, n, offset, BlocksTo(end))
    ensures IndexOf(FileTrail(disk, n, More(offset, []), end, cap)) == FileAbove(disk, n, BlocksTo(end))
  {
    hide *;
    UpToSingle(disk, n, offset, end, cap);
    FromDouble(disk, n, AfterSingle(disk, n, More(offset, []), end, cap), offset, end, cap);
    TrailInFour(disk, n, More(offset, []), end, cap, BlocksTo(end));
  }

  lemma TrailInFour(disk: Disk, n: Inode, p: Progress, end: nat, cap: nat, m: nat)
    requires InodeOk(n) && IndexOf(DirectTrail(n, 0, p, end, cap)) == []
    requires IndexOf(Trail(disk, n.zones[7], 1, DIRECT * BLOCK, AfterDirect(n, p, end, cap), end, cap))
          == Above(disk, n.zones[7], 1, Behind(7, m))
    requires IndexOf(Trail(disk, n.zones[8], 2, (DIRECT + Cap(1)) * BLOCK, AfterSingle(disk, n, p, end, cap), end, cap))
          == Above(disk, n.zones[8], 2, Behind(8, m))
    requires var after := AfterSingle(disk, n, p, end, cap);
      var q := CopyAll(after, Leaves(disk, n.zones[8], 2, (DIRECT + Cap(1)) * BLOCK), end, cap);
      IndexOf(Trail(disk, n.zones[9], 3, TripleStart(n), q, end, cap)) == Above(disk, n.zones[9], 3, Behind(9, m))
    ensures IndexOf(FileTrail(disk, n, p, end, cap)) == FileAbove(disk, n, m)
  {
    hide Leaves, CopyAll, Trail, DirectTrail, Above, Behind, Cap, IndexOf, TripleStart, AfterDirect, AfterSingle;
    IndexFour(DirectTrail(n, 0, p, end, cap),
              Trail(disk, n.zones[7], 1, DIRECT * BLOCK, AfterDirect(n, p, end, cap), end, cap),
              Trail(disk, n.zones[8], 2, (DIRECT + Cap(1)) * BLOCK, AfterSingle(disk, n, p, end, cap), end, cap),
              Trail(disk, n.zones[9], 3, TripleStart(n), AfterDouble(disk, n, p, end, cap), end, cap));
  }

  /** Sparse reads compact: the window parts of the existing blocks, in order. The data blocks asked for are the nonzero
      blocks that overlap the window, once each and in order, the pointer blocks are those above the blocks up to its
      end, and the count stays within the request. */
  lemma SparseRead(disk: Disk, n: Inode, offset: nat, cap: nat, end: nat)
    requires Window(n, offset, cap, end) && BlocksTo(end) <= MAX_BLOCKS
    requires AllReached(disk, n, BlocksTo(end)) && NoHoleBefore(FileLine(disk, n, BlocksTo(end)), offset)
    ensures var t := FileTrail(disk, n, More(offset, []), end, cap);
      var parts := Parts(FileLine(disk, n, BlocksTo(end)), offset, end);
      && ReadChunks(disk, n, offset, cap) == Full(parts)
      && DataOf(t) == ChunkZones(parts) && IndexOf(t) == FileAbove(disk, n, BlocksTo(end))
      && Length(parts) <= end - offset
  {
    WindowFacts(disk, n, offset, cap, end);
    hide FileEvents, CopyAll, ReadChunks, AllReached, NoHoleBefore, FileTrail, Parts, FileLine, DataOf, IndexOf;
    hide ChunkZones, Length, FileAbove;
    SparseChunks(disk, n, offset, cap, end);
    FileTrailData(disk, n, offset, end, cap);
    LineHoles(disk, n, offset, BlocksTo(end));
    FileTrailIndex(disk, n, offset, end, cap);
    LineLoad(disk, n, BlocksTo(end), offset, end);
  }

  lemma LineLoad(disk: Disk, n: Inode, m: nat, lo: nat, end: nat)
    requires InodeOk(n) && m <= MAX_BLOCKS && lo <= end
    ensures Length(Parts(FileLine(disk, n, m), lo, end)) <= end - lo
  {
    hide BlockZone, Parts, Length, Load;
    LoadIs(FileLine(disk, n, m), lo, end);
    LoadBound(FileLine(disk, n, m), lo, end);
  }
}
