/** Which blocks a read asks the device for: the pointer blocks on its way and the data blocks it copies from. */
module Minix3Trail {
  import opened Minix3
  import opened Minix3Proofs
  import opened Minix3Safe

  datatype Access = Index(zone: nat) | Data(zone: nat)

  predicate Running(p: Progress, end: nat) { p.More? && p.cur < end }

  /** A data zone is read when it is there and ends behind the read's offset. */
  function DataReads(e: Event, p: Progress, end: nat): seq<Access> {
    if Running(p, end) && e.zone != 0 && e.start + BLOCK > p.cur then [Data(e.zone)] else []
  }

  /** The block reads below a pointer. */
  function Trail(disk: Disk, z: nat, depth: nat, start: nat, p: Progress, end: nat, cap: nat): seq<Access>
    requires depth <= 3
    decreases depth, PTRS + 1
  {
    if !Running(p, end) then []
    else if depth == 0 then DataReads(Event(z, start), p, end)
    else if z == 0 then []
    else [Index(z)] + TrailFrom(disk, z, depth, start, 0, p, end, cap)
  }

  /** The same for the entries from `i` on of a pointer block. */
  function TrailFrom(disk: Disk, z: nat, depth: nat, start: nat, i: nat, p: Progress, end: nat, cap: nat): seq<Access>
    requires 0 < depth <= 3 && i <= PTRS
    decreases depth, PTRS - i
  {
    if i == PTRS || !Running(p, end) then []
    else
      var child := Ptr(disk(z), i);
      Trail(disk, child, depth - 1, start, p, end, cap)
      + TrailFrom(disk, z, depth, start + Cap(depth - 1) * BLOCK, i + 1,
                  CopyAll(p, Leaves(disk, child, depth - 1, start), end, cap), end, cap)
  }

  lemma TrailUnfold(disk: Disk, z: nat, depth: nat, start: nat, p: Progress, end: nat, cap: nat)
    requires 0 < depth <= 3 && z != 0 && Running(p, end)
    ensures Trail(disk, z, depth, start, p, end, cap) == [Index(z)] + TrailFrom(disk, z, depth, start, 0, p, end, cap)
  {
    hide TrailFrom;
  }

  lemma TrailFromUnfold(disk: Disk, z: nat, depth: nat, at: nat, i: nat, p: Progress, end: nat, cap: nat)
    requires 0 < depth <= 3 && i <= PTRS
    ensures i == PTRS || !Running(p, end) ==> TrailFrom(disk, z, depth, at, i, p, end, cap) == []
    ensures i < PTRS && Running(p, end) ==>
      TrailFrom(disk, z, depth, at, i, p, end, cap) ==
        Trail(disk, Ptr(disk(z), i), depth - 1, at, p, end, cap)
        + TrailFrom(disk, z, depth, at + Cap(depth - 1) * BLOCK, i + 1,
                    CopyAll(p, Leaves(disk, Ptr(disk(z), i), depth - 1, at), end, cap), end, cap)
  {
    hide Trail, CopyAll, Leaves;
  }

  function DirectTrail(n: Inode, i: nat, p: Progress, end: nat, cap: nat): seq<Access>
    requires InodeOk(n) && i <= DIRECT
    decreases DIRECT - i
  {
    if i == DIRECT || !Running(p, end) then []
    else
      var e := Event(n.zones[i], i * BLOCK);
      DataReads(e, p, end) + DirectTrail(n, i + 1, StepZone(p, e, end, cap), end, cap)
  }

  /** The progress before the single-, double- and triple-indirect walks. */
  function AfterDirect(n: Inode, p: Progress, end: nat, cap: nat): Progress
    requires InodeOk(n)
  {
    CopyAll(p, DirectEvents(n, 0), end, cap)
  }

  function AfterSingle(disk: Disk, n: Inode, p: Progress, end: nat, cap: nat): Progress
    requires InodeOk(n)
  {
    CopyAll(AfterDirect(n, p, end, cap), Leaves(disk, n.zones[7], 1, DIRECT * BLOCK), end, cap)
  }

  function AfterDouble(disk: Disk, n: Inode, p: Progress, end: nat, cap: nat): Progress
    requires InodeOk(n)
  {
    CopyAll(AfterSingle(disk, n, p, end, cap), Leaves(disk, n.zones[8], 2, (DIRECT + Cap(1)) * BLOCK), end, cap)
  }

  /** The block reads of a whole walk, in order. */
  function FileTrail(disk: Disk, n: Inode, p: Progress, end: nat, cap: nat): seq<Access>
    requires InodeOk(n)
  {
    DirectTrail(n, 0, p, end, cap)
    + Trail(disk, n.zones[7], 1, DIRECT * BLOCK, AfterDirect(n, p, end, cap), end, cap)
    + Trail(disk, n.zones[8], 2, (DIRECT + Cap(1)) * BLOCK, AfterSingle(disk, n, p, end, cap), end, cap)
    + Trail(disk, n.zones[9], 3, TripleStart(n), AfterDouble(disk, n, p, end, cap), end, cap)
  }

  // ---------------------------------------------------------------- projections

  function Zones(t: seq<Access>): (r: seq<nat>)
    ensures |r| == |t|
  {
    seq(|t|, i requires 0 <= i < |t| => t[i].zone)
  }

  /** The data zones read, in order. */
  function DataOf(t: seq<Access>): seq<nat> {
    if t == [] then [] else (if t[0].Data? then [t[0].zone] else []) + DataOf(t[1..])
  }

  /** The pointer blocks read, in order. */
  function IndexOf(t: seq<Access>): seq<nat> {
    if t == [] then [] else (if t[0].Index? then [t[0].zone] else []) + IndexOf(t[1..])
  }

  function ChunkZones(chunks: seq<Chunk>): (r: seq<nat>)
    ensures |r| == |chunks|
  {
    seq(|chunks|, i requires 0 <= i < |chunks| => chunks[i].zone)
  }

  lemma {:induction false} DataJoin(a: seq<Access>, b: seq<Access>)
    ensures DataOf(a + b) == DataOf(a) + DataOf(b)
    decreases a
  {
    if a == [] {
      assert a + b == b;
    } else {
      assert (a + b)[0] == a[0] && (a + b)[1..] == a[1..] + b;
      DataJoin(a[1..], b);
    }
  }

  lemma {:induction false} IndexJoin(a: seq<Access>, b: seq<Access>)
    ensures IndexOf(a + b) == IndexOf(a) + IndexOf(b)
    decreases a
  {
    if a == [] {
      assert a + b == b;
    } else {
      assert (a + b)[0] == a[0] && (a + b)[1..] == a[1..] + b;
      IndexJoin(a[1..], b);
    }
  }

  lemma ZonesJoin(a: seq<Access>, b: seq<Access>)
    ensures Zones(a + b) == Zones(a) + Zones(b)
  {
  }

  // ---------------------------------------------------------------- data blocks

  ghost predicate Alive(p: Progress, end: nat) { p.More? ==> p.cur < end }

  /** From `p` to `q`, the data blocks read are those the new chunks come from. */
  ghost predicate ReadsFor(p: Progress, q: Progress, t: seq<Access>, end: nat) {
    && Alive(q, end)
    && (!GoesWrong(q) ==> !GoesWrong(p) && ChunkZones(q.chunks) == ChunkZones(p.chunks) + DataOf(t))
  }

  lemma ReadsForNothing(p: Progress, end: nat)
    requires Alive(p, end)
    ensures ReadsFor(p, p, [], end)
  {
  }

  lemma ReadsForJoin(p: Progress, q: Progress, r: Progress, a: seq<Access>, b: seq<Access>, end: nat)
    requires ReadsFor(p, q, a, end) && ReadsFor(q, r, b, end)
    ensures ReadsFor(p, r, a + b, end)
  {
    hide ChunkZones, DataOf;
    DataJoin(a, b);
  }

  lemma OneDatum(e: Event, p: Progress, end: nat, cap: nat)
    requires Alive(p, end)
    ensures ReadsFor(p, StepZone(p, e, end, cap), DataReads(e, p, end), end)
  {
    hide Length;
    var q := StepZone(p, e, end, cap);
    var t := DataReads(e, p, end);
    assert t != [] ==> DataOf(t) == [e.zone] + DataOf([]) == [e.zone];
    if Running(p, end) && q != p && (q.More? || q.Full?) && q.chunks != p.chunks {
      assert ChunkZones(q.chunks) == ChunkZones(p.chunks) + [e.zone];
    }
  }

  lemma NotRunning(p: Progress, end: nat, events: seq<Event>, cap: nat)
    requires Alive(p, end) && !Running(p, end)
    ensures CopyAll(p, events, end, cap) == p && ReadsFor(p, p, [], end)
  {
    CopyAllDone(p, events, end, cap);
    ReadsForNothing(p, end);
  }

  /** Below any pointer, the data blocks read are exactly those copied from, in order. */
  lemma {:induction false} TrailData(disk: Disk, z: nat, depth: nat, start: nat, p: Progress, end: nat, cap: nat)
    requires depth <= 3 && Alive(p, end)
    ensures ReadsFor(p, CopyAll(p, Leaves(disk, z, depth, start), end, cap), Trail(disk, z, depth, start, p, end, cap),
                     end)
    decreases depth, PTRS + 1
  {
    hide Leaves, LeavesFrom, TrailFrom, CopyAll, ReadsFor, StepZone;
    LeavesUnfold(disk, z, depth, start);
    if !Running(p, end) {
      NotRunning(p, end, Leaves(disk, z, depth, start), cap);
    } else if depth == 0 {
      CopyOne(p, Event(z, start), end, cap);
      OneDatum(Event(z, start), p, end, cap);
    } else if z == 0 {
      CopyNone(p, end, cap);
      ReadsForNothing(p, end);
    } else {
      TrailFromData(disk, z, depth, start, 0, p, end, cap);
      IndexFirst(p, CopyAll(p, LeavesFrom(disk, z, depth, start, 0), end, cap), z,
                 TrailFrom(disk, z, depth, start, 0, p, end, cap), end);
    }
  }

  lemma IndexFirst(p: Progress, q: Progress, z: nat, t: seq<Access>, end: nat)
    requires ReadsFor(p, q, t, end)
    ensures ReadsFor(p, q, [Index(z)] + t, end)
  {
    assert ([Index(z)] + t)[1..] == t;
  }

  lemma CopyOne(p: Progress, e: Event, end: nat, cap: nat)
    ensures CopyAll(p, [e], end, cap) == StepZone(p, e, end, cap)
  {
    assert [e][1..] == [];
    hide StepZone;
  }

  lemma CopyNone(p: Progress, end: nat, cap: nat)
    ensures CopyAll(p, [], end, cap) == p
  {
  }

  lemma {:induction false} TrailFromData(disk: Disk, z: nat, depth: nat, start: nat, i: nat, p: Progress, end: nat,
                                         cap: nat)
    requires 0 < depth <= 3 && i <= PTRS && Alive(p, end)
    ensures ReadsFor(p, CopyAll(p, LeavesFrom(disk, z, depth, start, i), end, cap),
                     TrailFrom(disk, z, depth, start, i, p, end, cap), end)
    decreases depth, PTRS - i
  {
    hide Leaves, LeavesFrom, Trail, CopyAll, ReadsFor;
    LeavesFromUnfold(disk, z, depth, start, i);
    if !Running(p, end) {
      NotRunning(p, end, LeavesFrom(disk, z, depth, start, i), cap);
    } else if i == PTRS {
      CopyNone(p, end, cap);
      ReadsForNothing(p, end);
    } else {
      var child, next := Ptr(disk(z), i), start + Cap(depth - 1) * BLOCK;
      var below, rest := Leaves(disk, child, depth - 1, start), LeavesFrom(disk, z, depth, next, i + 1);
      var q := CopyAll(p, below, end, cap);
      CopyAllConcat(p, below, rest, end, cap);
      TrailData(disk, child, depth - 1, start, p, end, cap);
      StaysAlive(p, q, Trail(disk, child, depth - 1, start, p, end, cap), end);
      TrailFromData(disk, z, depth, next, i + 1, q, end, cap);
      hide TrailFrom;
      ReadsForJoin(p, q, CopyAll(q, rest, end, cap), Trail(disk, child, depth - 1, start, p, end, cap),
                   TrailFrom(disk, z, depth, next, i + 1, q, end, cap), end);
    }
  }

  lemma StaysAlive(p: Progress, q: Progress, t: seq<Access>, end: nat)
    requires ReadsFor(p, q, t, end)
    ensures Alive(q, end)
  {
  }

  lemma {:induction false} DirectData(n: Inode, i: nat, p: Progress, end: nat, cap: nat)
    requires InodeOk(n) && i <= DIRECT && Alive(p, end)
    ensures ReadsFor(p, CopyAll(p, DirectEvents(n, i), end, cap), DirectTrail(n, i, p, end, cap), end)
    decreases DIRECT - i
  {
    hide CopyAll, ReadsFor, StepZone;
    if !Running(p, end) {
      NotRunning(p, end, DirectEvents(n, i), cap);
    } else if i == DIRECT {
      CopyNone(p, end, cap);
      ReadsForNothing(p, end);
    } else {
      var e, rest := Event(n.zones[i], i * BLOCK), DirectEvents(n, i + 1);
      var q := StepZone(p, e, end, cap);
      CopyAllUnfold(p, DirectEvents(n, i), end, cap);
      assert DirectEvents(n, i)[1..] == rest;
      OneDatum(e, p, end, cap);
      StaysAlive(p, q, DataReads(e, p, end), end);
      DirectData(n, i + 1, q, end, cap);
      ReadsForJoin(p, q, CopyAll(q, rest, end, cap), DataReads(e, p, end), DirectTrail(n, i + 1, q, end, cap), end);
    }
  }

  lemma WalkInFour(disk: Disk, n: Inode, p: Progress, end: nat, cap: nat)
    requires InodeOk(n)
    ensures CopyAll(p, FileEvents(disk, n), end, cap)
         == CopyAll(AfterDouble(disk, n, p, end, cap), Leaves(disk, n.zones[9], 3, TripleStart(n)), end, cap)
  {
    hide CopyAll, Leaves, DirectEvents;
    var a, b := DirectEvents(n, 0), Leaves(disk, n.zones[7], 1, DIRECT * BLOCK);
    var c, d := Leaves(disk, n.zones[8], 2, (DIRECT + Cap(1)) * BLOCK), Leaves(disk, n.zones[9], 3, TripleStart(n));
    CopyAllConcat(p, a + b + c, d, end, cap);
    CopyAllConcat(p, a + b, c, end, cap);
    CopyAllConcat(p, a, b, end, cap);
  }

  /** A read asks for exactly the data blocks it copies from, once each and in the order of the file, whatever else is
      in the file. */
  lemma FileTrailData(disk: Disk, n: Inode, offset: nat, end: nat, cap: nat)
    requires InodeOk(n) && offset < end
    ensures var q := CopyAll(More(offset, []), FileEvents(disk, n), end, cap);
      !GoesWrong(q) ==> DataOf(FileTrail(disk, n, More(offset, []), end, cap)) == ChunkZones(q.chunks)
  {
    var p := More(offset, []);
    hide CopyAll, Leaves, DirectEvents, Trail, DirectTrail, FileEvents, DataOf, ChunkZones;
    WalkInFour(disk, n, p, end, cap);
    var p1, p2, p3 := AfterDirect(n, p, end, cap), AfterSingle(disk, n, p, end, cap), AfterDouble(disk, n, p, end, cap);
    var q := CopyAll(p, FileEvents(disk, n), end, cap);
    var t0 := DirectTrail(n, 0, p, end, cap);
    var t1 := Trail(disk, n.zones[7], 1, DIRECT * BLOCK, p1, end, cap);
    var t2 := Trail(disk, n.zones[8], 2, (DIRECT + Cap(1)) * BLOCK, p2, end, cap);
    var t3 := Trail(disk, n.zones[9], 3, TripleStart(n), p3, end, cap);
    DirectData(n, 0, p, end, cap);
    TrailData(disk, n.zones[7], 1, DIRECT * BLOCK, p1, end, cap);
    TrailData(disk, n.zones[8], 2, (DIRECT + Cap(1)) * BLOCK, p2, end, cap);
    TrailData(disk, n.zones[9], 3, TripleStart(n), p3, end, cap);
    ReadsForJoin(p, p1, p2, t0, t1, end);
    ReadsForJoin(p, p2, p3, t0 + t1, t2, end);
    ReadsForJoin(p, p3, q, t0 + t1 + t2, t3, end);
    NoChunks();
  }

  lemma NoChunks()
    ensures ChunkZones([]) == []
  {
  }
}
