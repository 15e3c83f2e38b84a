/** The file reader as the kernel runs it: nested loops over pointer blocks in four scratch buffers,
    sharing the file offset, the output position and the offset of the block being looked at. */
module Minix3Reader {
  import opened PageFrame
  import opened Minix3
  import opened Minix3Proofs
  import opened Minix3Trail
  import opened Drive

  /** How a piece of the walk ended: keep going, the window is full, a block read failed, one of the two ways the
      code goes wrong, or the allocator's panic. */
  datatype Step = Go | Stop | Failed | Underflowed | Overran | Crashed

  predicate Broke(r: Step) { r == Failed || r == Crashed }

  /** The outcome of a piece of the walk agrees with the progress computed for it. */
  ghost predicate Agrees(p: Progress, r: Step, cur: nat, chunks: seq<Chunk>) {
    !Broke(r) ==>
      match p
      case More(c, ch) => r == Go && cur == c && chunks == ch
      case Full(ch) => r == Stop && chunks == ch
      case Underflow => r == Underflowed
      case Overrun => r == Overran
  }

  /** The zones asked for are those computed, or the first of them when a read broke off. */
  ghost predicate Asked(was: seq<nat>, now: seq<nat>, goal: seq<nat>, r: Step) {
    was <= now <= goal && (!Broke(r) ==> now == goal)
  }

  /** The log after a part `t` of the walk, with `rest` still to come. */
  lemma LogStep(was: seq<nat>, mid: seq<nat>, now: seq<nat>, t: seq<nat>, rest: seq<nat>, want: seq<nat>, r: Step)
    requires mid + (t + rest) == want && was <= mid && Asked(mid, now, mid + t, r)
    ensures r == Go ==> now + rest == want && was <= now
    ensures Broke(r) || rest == [] ==> Asked(was, now, want, r)
  {
    assert mid + (t + rest) == (mid + t) + rest;
    assert t + [] == t;
  }

  // ---------------------------------------------------------------- one entry of a pointer block

  lemma EntryStep(disk: Disk, z: nat, depth: nat, at: nat, i: nat, p: Progress, end: nat, cap: nat)
    requires 0 < depth <= 3 && i < PTRS && Running(p, end)
    ensures var child, next := Ptr(disk(z), i), at + Cap(depth - 1) * BLOCK;
      var q, t := CopyAll(p, Leaves(disk, child, depth - 1, at), end, cap),
                  Trail(disk, child, depth - 1, at, p, end, cap);
      && CopyAll(p, LeavesFrom(disk, z, depth, at, i), end, cap)
         == CopyAll(q, LeavesFrom(disk, z, depth, next, i + 1), end, cap)
      && Zones(TrailFrom(disk, z, depth, at, i, p, end, cap))
         == Zones(t) + Zones(TrailFrom(disk, z, depth, next, i + 1, q, end, cap))
      && (!q.More? ==>
            && CopyAll(q, LeavesFrom(disk, z, depth, next, i + 1), end, cap) == q
            && Zones(TrailFrom(disk, z, depth, next, i + 1, q, end, cap)) == [])
  {
    hide Leaves, LeavesFrom, CopyAll, Trail, Ptr, Cap, TrailFrom, Zones;
    var child, next := Ptr(disk(z), i), at + Cap(depth - 1) * BLOCK;
    var below, rest := Leaves(disk, child, depth - 1, at), LeavesFrom(disk, z, depth, next, i + 1);
    TrailFromUnfold(disk, z, depth, at, i, p, end, cap);
    var q := CopyAll(p, below, end, cap);
    LeavesFromUnfold(disk, z, depth, at, i);
    CopyAllConcat(p, below, rest, end, cap);
    ZonesJoin(Trail(disk, child, depth - 1, at, p, end, cap), TrailFrom(disk, z, depth, next, i + 1, q, end, cap));
    if !q.More? {
      CopyAllDone(q, rest, end, cap);
      NoTrailFrom(disk, z, depth, next, i + 1, q, end, cap);
    }
  }

  /** A walk that is over asks for nothing. */
  lemma NoTrailFrom(disk: Disk, z: nat, depth: nat, at: nat, i: nat, p: Progress, end: nat, cap: nat)
    requires 0 < depth <= 3 && i <= PTRS && !p.More?
    ensures Zones(TrailFrom(disk, z, depth, at, i, p, end, cap)) == []
  {
  }

  lemma NoTrail(disk: Disk, z: nat, depth: nat, at: nat, p: Progress, end: nat, cap: nat)
    requires depth <= 3 && !p.More?
    ensures Zones(Trail(disk, z, depth, at, p, end, cap)) == []
  {
  }

  lemma EntriesDone(disk: Disk, z: nat, depth: nat, at: nat, p: Progress, end: nat, cap: nat)
    requires 0 < depth <= 3
    ensures CopyAll(p, LeavesFrom(disk, z, depth, at, PTRS), end, cap) == p
    ensures Zones(TrailFrom(disk, z, depth, at, PTRS, p, end, cap)) == []
  {
  }

  lemma EnterTable(disk: Disk, z: nat, depth: nat, at: nat, p: Progress, end: nat, cap: nat)
    requires 0 < depth <= 3 && z != 0 && Running(p, end)
    ensures CopyAll(p, Leaves(disk, z, depth, at), end, cap) == CopyAll(p, LeavesFrom(disk, z, depth, at, 0), end, cap)
    ensures Zones(Trail(disk, z, depth, at, p, end, cap)) == [z] + Zones(TrailFrom(disk, z, depth, at, 0, p, end, cap))
  {
    hide LeavesFrom, CopyAll, TrailFrom;
    LeavesUnfold(disk, z, depth, at);
    ZonesJoin([Index(z)], TrailFrom(disk, z, depth, at, 0, p, end, cap));
    assert Zones([Index(z)]) == [z];
  }

  lemma NothingBelow(disk: Disk, depth: nat, at: nat, p: Progress, end: nat, cap: nat)
    requires 0 < depth <= 3
    ensures CopyAll(p, Leaves(disk, 0, depth, at), end, cap) == p && Zones(Trail(disk, 0, depth, at, p, end, cap)) == []
  {
    hide LeavesFrom, TrailFrom;
    LeavesUnfold(disk, 0, depth, at);
  }

  lemma LeafZoneStep(disk: Disk, z: nat, at: nat, p: Progress, end: nat, cap: nat)
    requires Running(p, end)
    ensures CopyAll(p, Leaves(disk, z, 0, at), end, cap) == CopyZone(Event(z, at), p.cur, p.chunks, end, cap)
    ensures Trail(disk, z, 0, at, p, end, cap) == DataReads(Event(z, at), p, end)
  {
    hide CopyZone;
    CopyOne(p, Event(z, at), end, cap);
  }

  lemma DirectStep(n: Inode, i: nat, p: Progress, end: nat, cap: nat)
    requires InodeOk(n) && i < DIRECT && Running(p, end)
    ensures var e := Event(n.zones[i], i * BLOCK);
      var q, t := CopyZone(e, p.cur, p.chunks, end, cap), DataReads(e, p, end);
      && CopyAll(p, DirectEvents(n, i), end, cap) == CopyAll(q, DirectEvents(n, i + 1), end, cap)
      && Zones(DirectTrail(n, i, p, end, cap)) == Zones(t) + Zones(DirectTrail(n, i + 1, q, end, cap))
      && (!q.More? ==>
            && CopyAll(q, DirectEvents(n, i + 1), end, cap) == q
            && Zones(DirectTrail(n, i + 1, q, end, cap)) == [])
  {
    var e := Event(n.zones[i], i * BLOCK);
    var q := StepZone(p, e, end, cap);
    assert q == CopyZone(e, p.cur, p.chunks, end, cap);
    CopyAllUnfold(p, DirectEvents(n, i), end, cap);
    assert DirectEvents(n, i)[1..] == DirectEvents(n, i + 1);
    hide CopyAll, CopyZone, StepZone;
    ZonesJoin(DataReads(e, p, end), DirectTrail(n, i + 1, q, end, cap));
    if !q.More? {
      CopyAllDone(q, DirectEvents(n, i + 1), end, cap);
    }
  }

  lemma DirectDone(n: Inode, p: Progress, end: nat, cap: nat)
    requires InodeOk(n)
    ensures CopyAll(p, DirectEvents(n, DIRECT), end, cap) == p && Zones(DirectTrail(n, DIRECT, p, end, cap)) == []
  {
  }

  // ---------------------------------------------------------------- the whole walk in four parts

  /** A walk that is over stays where it is and asks for nothing more. */
  ghost predicate Stops(p: Progress, goal: Progress, rest: seq<nat>) { !p.More? ==> p == goal && rest == [] }

  /** The zones each part asks for and the progress between the parts. */
  datatype Parts =
    Parts(z0: seq<nat>, p1: Progress, z1: seq<nat>, p2: Progress, z2: seq<nat>, p3: Progress, z3: seq<nat>)

  ghost function PartsOf(disk: Disk, n: Inode, p: Progress, end: nat, cap: nat): Parts
    requires InodeOk(n)
  {
    var p1, p2, p3 := AfterDirect(n, p, end, cap), AfterSingle(disk, n, p, end, cap), AfterDouble(disk, n, p, end, cap);
    Parts(Zones(DirectTrail(n, 0, p, end, cap)),
          p1, Zones(Trail(disk, n.zones[7], 1, DIRECT * BLOCK, p1, end, cap)),
          p2, Zones(Trail(disk, n.zones[8], 2, (DIRECT + Cap(1)) * BLOCK, p2, end, cap)),
          p3, Zones(Trail(disk, n.zones[9], 3, TripleStart(n), p3, end, cap)))
  }

  /** Each part leads to the next, and a walk that ends in one part does nothing in the later ones. */
  ghost predicate PartsFit(disk: Disk, n: Inode, w: Parts, goal: Progress, end: nat, cap: nat)
    requires InodeOk(n)
  {
    && Stops(w.p1, goal, w.z1 + (w.z2 + w.z3)) && Stops(w.p2, goal, w.z2 + w.z3) && Stops(w.p3, goal, w.z3)
    && w.z1 == Zones(Trail(disk, n.zones[7], 1, DIRECT * BLOCK, w.p1, end, cap))
    && w.p2 == CopyAll(w.p1, Leaves(disk, n.zones[7], 1, DIRECT * BLOCK), end, cap)
    && w.z2 == Zones(Trail(disk, n.zones[8], 2, (DIRECT + PTRS) * BLOCK, w.p2, end, cap))
    && w.p3 == CopyAll(w.p2, Leaves(disk, n.zones[8], 2, (DIRECT + PTRS) * BLOCK), end, cap)
    && w.z3 == Zones(Trail(disk, n.zones[9], 3, TripleStart(n), w.p3, end, cap))
    && goal == CopyAll(w.p3, Leaves(disk, n.zones[9], 3, TripleStart(n)), end, cap)
  }

  lemma PartStops(disk: Disk, z: nat, depth: nat, at: nat, p: Progress, end: nat, cap: nat)
    requires depth <= 3
    ensures Stops(p, CopyAll(p, Leaves(disk, z, depth, at), end, cap), Zones(Trail(disk, z, depth, at, p, end, cap)))
  {
    hide CopyAll, Leaves;
    if !p.More? {
      CopyAllDone(p, Leaves(disk, z, depth, at), end, cap);
      NoTrail(disk, z, depth, at, p, end, cap);
    }
  }

  lemma StopsThrough(w: Parts, goal: Progress)
    requires Stops(w.p1, w.p2, w.z1) && Stops(w.p2, w.p3, w.z2) && Stops(w.p3, goal, w.z3)
    ensures Stops(w.p1, goal, w.z1 + (w.z2 + w.z3)) && Stops(w.p2, goal, w.z2 + w.z3)
  {
  }

  lemma WholeInParts(disk: Disk, n: Inode, p: Progress, end: nat, cap: nat)
    requires InodeOk(n)
    ensures PartsFit(disk, n, PartsOf(disk, n, p, end, cap), CopyAll(p, FileEvents(disk, n), end, cap), end, cap)
  {
    assert Cap(1) == PTRS;
    hide CopyAll, Leaves, DirectEvents, DirectTrail, FileEvents, Trail, Zones, Cap, TripleStart, AfterDirect, Stops;
    var w := PartsOf(disk, n, p, end, cap);
    WalkInFour(disk, n, p, end, cap);
    PartStops(disk, n.zones[7], 1, DIRECT * BLOCK, w.p1, end, cap);
    PartStops(disk, n.zones[8], 2, (DIRECT + PTRS) * BLOCK, w.p2, end, cap);
    PartStops(disk, n.zones[9], 3, TripleStart(n), w.p3, end, cap);
    StopsThrough(w, CopyAll(p, FileEvents(disk, n), end, cap));
  }

  lemma TrailInParts(disk: Disk, n: Inode, p: Progress, end: nat, cap: nat)
    requires InodeOk(n)
    ensures var w := PartsOf(disk, n, p, end, cap);
      Zones(FileTrail(disk, n, p, end, cap)) == w.z0 + (w.z1 + (w.z2 + w.z3))
  {
    hide CopyAll, Leaves, DirectEvents, DirectTrail, Trail, Zones, AfterDirect, AfterSingle, AfterDouble;
    var w := PartsOf(disk, n, p, end, cap);
    var t0, t1 := DirectTrail(n, 0, p, end, cap), Trail(disk, n.zones[7], 1, DIRECT * BLOCK, w.p1, end, cap);
    var t2 := Trail(disk, n.zones[8], 2, (DIRECT + Cap(1)) * BLOCK, w.p2, end, cap);
    ZonesInFour(t0, t1, t2, Trail(disk, n.zones[9], 3, TripleStart(n), w.p3, end, cap));
  }

  lemma ZonesInFour(t0: seq<Access>, t1: seq<Access>, t2: seq<Access>, t3: seq<Access>)
    ensures Zones(t0 + t1 + t2 + t3) == Zones(t0) + (Zones(t1) + (Zones(t2) + Zones(t3)))
  {
    hide Zones;
    ZonesJoin(t0 + t1 + t2, t3);
    ZonesJoin(t0 + t1, t2);
    ZonesJoin(t0, t1);
    var a, b, c, d := Zones(t0), Zones(t1), Zones(t2), Zones(t3);
    assert a + b + c + d == a + (b + (c + d));
  }

  lemma Sizes()
    ensures Cap(0) == 1 && Cap(1) == PTRS && Cap(2) == PTRS * PTRS
  {
  }

  /** Where a piece of the walk began and where it is to end: the allocator's table, the zones asked for before, the
      progress computed for it and the zones asked for after. */
  datatype Origin = Origin(table: seq<bv8>, log: seq<nat>, goal: Progress, want: seq<nat>)

  /** The inner piece comes next in the outer one, and `rest` is what the outer one asks for after it. */
  ghost predicate Nests(from: Origin, inner: Origin, rest: seq<nat>) {
    && inner.table == from.table && from.log <= inner.log && inner.want + rest == from.want
    && (!inner.goal.More? ==> inner.goal == from.goal && rest == [])
  }

  /** The output holds the bytes of the chunks, and behind them what it held before. */
  ghost predicate Written(disk: Disk, chunks: seq<Chunk>, out: seq<byte>, before: seq<byte>, written: nat) {
    && |before| == |out|
    && (forall c :: c in chunks ==> c.from + c.len <= BLOCK)
    && written == Length(chunks) <= |out|
    && out[..written] == Bytes(disk, chunks)
    && out[written..] == before[written..]
  }

  lemma WrittenMore(disk: Disk, chunks: seq<Chunk>, c: Chunk, was: seq<byte>, now: seq<byte>, before: seq<byte>, w: nat)
    requires Written(disk, chunks, was, before, w) && c.from + c.len <= BLOCK && |now| == |was| && w + c.len <= |was|
    requires now[..w + c.len] == was[..w] + disk(c.zone)[c.from..c.from + c.len] && now[w + c.len..] == was[w + c.len..]
    ensures Written(disk, chunks + [c], now, before, w + c.len)
  {
    hide Bytes, Length;
    BytesSnoc(disk, chunks, c);
    LengthSnoc(chunks, c);
    assert was[w..][c.len..] == before[w..][c.len..];
  }

  class FileReader {
    const drive: BlockDrive
    const end: nat
    const out: array<byte>
    const block: array<byte>
    const ind: array<byte>
    const dind: array<byte>
    const tind: array<byte>
    var cur: nat
    var written: nat
    var logical: nat
    ghost const before: seq<byte>
    ghost var chunks: seq<Chunk>

    ghost predicate Valid()
      reads this`written, this`chunks, out
    {
      && Apart()
      && Written(drive.disk, chunks, out[..], before, written)
    }

    /** Request pages come back unless the allocator refuses one; a failed read has its reason. */
    ghost predicate Intact(t: seq<bv8>, r: Step)
      reads drive.frames.table
    {
      && (r != Crashed ==> drive.frames.table[..] == t && drive.frames.Valid())
      && (r == Crashed ==> PastEnd(drive.frames.layout, t))
      && (r == Failed ==> NoPage(t) || !drive.reliable)
    }

    /** The buffers are different arrays of a block each. */
    predicate Apart() {
      && block.Length == ind.Length == dind.Length == tind.Length == BLOCK
      && out != block && out != ind && out != dind && out != tind && block != ind && block != dind && block != tind
      && ind != dind && ind != tind && dind != tind
      && (drive.frames.table as object) !in {out as object, block as object, ind as object, dind as object,
                                             tind as object}
    }

    lemma Shape()
      requires Valid()
      ensures Apart()
    {
      hide Apart;
    }

    constructor (drive: BlockDrive, out: array<byte>, offset: nat, end: nat)
      requires (out as object) != drive.frames.table
      ensures Valid() && this.drive == drive && this.end == end && this.out == out
      ensures cur == offset && written == 0 && logical == 0 && chunks == [] && before == out[..]
      ensures fresh(block) && fresh(ind) && fresh(dind) && fresh(tind)
    {
      this.drive, this.end, this.out := drive, end, out;
      cur, written, logical := offset, 0, 0;
      chunks, before := [], out[..];
      block := new byte[BLOCK];
      ind := new byte[BLOCK];
      dind := new byte[BLOCK];
      tind := new byte[BLOCK];
    }

    /** Copy the part of one data zone that the window still needs. */
    method Copy(zone: nat, start: nat) returns (r: Step)
      requires Valid() && cur < end && drive.frames.Valid()
      modifies this`cur, this`written, this`chunks, out, block, drive`log, drive.frames.table
      ensures Valid() && (r == Go ==> cur < end) && Intact(old(drive.frames.table[..]), r)
      ensures Agrees(CopyZone(Event(zone, start), old(cur), old(chunks), end, out.Length), r, cur, chunks)
      ensures Asked(old(drive.log), drive.log,
                    old(drive.log) + Zones(DataReads(Event(zone, start), More(old(cur), old(chunks)), end)), r)
    {
      hide Bytes, Length, FirstFit, WellFormed, NoPage, PastEnd;
      assert written == Length(chunks);
      hide Written;
      if zone == 0 {
        cur := start + BLOCK;
        return if cur < end then Go else Stop;
      }
      if start + BLOCK <= cur {
        return Go;
      }
      assert Zones([Data(zone)]) == [zone];
      var got := drive.Read(zone, block);
      if got != Got {
        return if got == Lost then Crashed else Failed;
      }
      if cur < start {
        return Underflowed;
      }
      var from := cur - start;
      var len := Min(BLOCK - from, end - cur);
      if written + len > out.Length {
        return Overran;
      }
      Transfer(zone, start, from, len);
      cur := cur + len;
      return if cur < end then Go else Stop;
    }

    /** `len` bytes from the block buffer behind those already written. */
    method CopyBytes(from: nat, len: nat)
      requires Apart() && from + len <= BLOCK && written + len <= out.Length
      modifies out
      ensures out[..written + len] == old(out[..written]) + block[from..from + len]
      ensures out[written + len..] == old(out[written + len..])
    {
      for i := 0 to len
        modifies out
        invariant forall k :: 0 <= k < out.Length ==>
          out[k] == if written <= k < written + i then block[from + (k - written)] else old(out[k])
      {
        out[written + i] := block[from + i];
      }
    }

    /** The byte copy into the output. */
    method Transfer(zone: nat, start: nat, from: nat, len: nat)
      requires Valid() && from + len <= BLOCK && written + len <= out.Length && block[..] == drive.disk(zone)
      modifies this`written, this`chunks, out
      ensures Valid() && written == old(written) + len && chunks == old(chunks) + [Chunk(zone, start, from, len)]
    {
      ghost var c, was := Chunk(zone, start, from, len), out[..];
      assert out != block && Written(drive.disk, chunks, was, before, written);
      hide Apart, Written;
      CopyBytes(from, len);
      WrittenMore(drive.disk, chunks, c, was, out[..], before, written);
      chunks := chunks + [c];
      written := written + len;
      assert Written(drive.disk, chunks, out[..], before, written);
    }

    /** Read an indirect block into a scratch buffer. */
    method Load(zone: nat, into: array<byte>) returns (r: Step)
      requires Valid() && drive.frames.Valid() && into in {ind, dind, tind}
      modifies into, drive`log, drive.frames.table
      ensures Valid() && (r == Go || Broke(r)) && Intact(old(drive.frames.table[..]), r)
      ensures Asked(old(drive.log), drive.log, old(drive.log) + [zone], r)
      ensures r == Go ==> into[..] == drive.disk(zone)
    {
      hide Bytes, Length, FirstFit, WellFormed;
      var got := drive.Read(zone, into);
      return match got case Got => Go case Refused => Failed case Lost => Crashed;
    }

    /** A pointer from an indirect block in a scratch buffer. */
    method LoadPtr(buf: array<byte>, i: nat, ghost z: nat) returns (p: nat)
      requires buf.Length == BLOCK && i < PTRS && buf[..] == drive.disk(z)
      ensures p == Ptr(drive.disk(z), i)
    {
      ghost var blk := drive.disk(z);
      assert buf[4 * i] == blk[4 * i] && buf[4 * i + 1] == blk[4 * i + 1];
      assert buf[4 * i + 2] == blk[4 * i + 2] && buf[4 * i + 3] == blk[4 * i + 3];
      var b0: int, b1: int, b2: int, b3: int := buf[4 * i], buf[4 * i + 1], buf[4 * i + 2], buf[4 * i + 3];
      p := b0 + 0x100 * b1 + 0x1_0000 * b2 + 0x100_0000 * b3;
    }

    /** Ready for the next piece of the walk. */
    ghost predicate Ready()
      reads this`cur, this`written, this`chunks, out, drive.frames.table
    {
      Valid() && cur < end && drive.frames.Valid()
    }

    /** What the walk below pointer `z` of a depth is to do, from where the reader stands. */
    ghost function Piece(z: nat, depth: nat): Origin
      requires depth <= 3
      reads this, drive, drive.frames.table
    {
      var p := More(cur, chunks);
      Origin(drive.frames.table[..], drive.log, CopyAll(p, Leaves(drive.disk, z, depth, logical), end, out.Length),
             drive.log + Zones(Trail(drive.disk, z, depth, logical, p, end, out.Length)))
    }

    /** A piece of the walk is over. */
    ghost predicate Finished(from: Origin, r: Step)
      reads this`cur, this`written, this`chunks, out, drive`log, drive.frames.table
    {
      Valid() && Intact(from.table, r) && Agrees(from.goal, r, cur, chunks) && Asked(from.log, drive.log, from.want, r)
    }

    /** In the middle of a pointer block of a depth, before entry `i`: what is still to be done leads to the result. */
    ghost predicate Midway(from: Origin, z: nat, depth: nat, i: nat)
      requires 0 < depth <= 3 && i <= PTRS
      reads this, out, drive, drive.frames.table
    {
      && Ready() && drive.frames.table[..] == from.table && from.log <= drive.log
      && CopyAll(More(cur, chunks), LeavesFrom(drive.disk, z, depth, logical, i), end, out.Length) == from.goal
      && drive.log + Zones(TrailFrom(drive.disk, z, depth, logical, i, More(cur, chunks), end, out.Length)) == from.want
    }

    /** A finished inner piece finishes the outer one, or leaves it with `rest` to ask for. */
    lemma PieceDone(from: Origin, inner: Origin, rest: seq<nat>, r: Step)
      requires Nests(from, inner, rest) && Finished(inner, r)
      ensures r != Go ==> Finished(from, r)
      ensures r == Go ==> Valid() && drive.frames.Valid() && drive.frames.table[..] == from.table
      ensures r == Go ==> inner.goal == More(cur, chunks) && from.log <= drive.log && drive.log + rest == from.want
    {
      hide Valid, PastEnd, NoPage;
    }

    lemma EntryDone(from: Origin, inner: Origin, z: nat, depth: nat, i: nat, next: nat, r: Step)
      requires 0 < depth <= 3 && i < PTRS && Finished(inner, r) && (r == Go ==> cur < end && logical == next)
      requires EntryNests(from, inner, z, depth, i, next)
      ensures r == Go ==> Midway(from, z, depth, i + 1)
      ensures r != Go ==> Finished(from, r)
    {
      var rest := Zones(TrailFrom(drive.disk, z, depth, next, i + 1, inner.goal, end, out.Length));
      hide Valid, Finished, Nests, CopyAll, LeavesFrom, TrailFrom, Zones;
      PieceDone(from, inner, rest, r);
    }

    ghost predicate EntryNests(from: Origin, inner: Origin, z: nat, depth: nat, i: nat, next: nat)
      requires 0 < depth <= 3 && i < PTRS
    {
      && CopyAll(inner.goal, LeavesFrom(drive.disk, z, depth, next, i + 1), end, out.Length) == from.goal
      && Nests(from, inner, Zones(TrailFrom(drive.disk, z, depth, next, i + 1, inner.goal, end, out.Length)))
    }

    /** The next entry of a pointer block is a piece inside the whole block's. */
    lemma EntryBegins(from: Origin, z: nat, depth: nat, i: nat)
      requires 0 < depth <= 3 && i < PTRS && Midway(from, z, depth, i)
      ensures Ready() && cur < end && Apart()
      ensures EntryNests(from, Piece(Ptr(drive.disk(z), i), depth - 1), z, depth, i, logical + Cap(depth - 1) * BLOCK)
    {
      hide Valid, CopyAll, Leaves, LeavesFrom, Trail, TrailFrom, Zones, Cap, Ptr, PastEnd, NoPage, Apart;
      Shape();
      var p, child, next, cap := More(cur, chunks), Ptr(drive.disk(z), i), logical + Cap(depth - 1) * BLOCK, out.Length;
      EntryStep(drive.disk, z, depth, logical, i, p, end, cap);
      var inner := Piece(child, depth - 1);
      var t := Zones(Trail(drive.disk, child, depth - 1, logical, p, end, cap));
      var rest := Zones(TrailFrom(drive.disk, z, depth, next, i + 1, inner.goal, end, cap));
      assert drive.log + (t + rest) == (drive.log + t) + rest;
    }

    /** A missing pointer is a piece that is over before it begins. */
    lemma MissingPiece(depth: nat)
      requires 0 < depth <= 3 && Ready()
      ensures Finished(Piece(0, depth), Go)
    {
      hide Valid;
      NothingBelow(drive.disk, depth, logical, More(cur, chunks), end, out.Length);
      assert drive.log + [] == drive.log;
    }

    lemma LastEntry(from: Origin, z: nat, depth: nat)
      requires 0 < depth <= 3 && Midway(from, z, depth, PTRS)
      ensures Finished(from, Go) && cur < end
    {
      hide Valid, PastEnd, NoPage;
      EntriesDone(drive.disk, z, depth, logical, More(cur, chunks), end, out.Length);
      assert drive.log + [] == drive.log;
    }

    /** Read a pointer block and stand before its first entry. */
    method EnterBlock(z: nat, depth: nat, buf: array<byte>) returns (r: Step)
      requires 0 < depth <= 3 && Ready() && z != 0 && buf in {ind, dind, tind}
      modifies buf, drive`log, drive.frames.table
      ensures r == Go ==> Midway(old(Piece(z, depth)), z, depth, 0) && buf[..] == drive.disk(z)
      ensures r != Go ==> Finished(old(Piece(z, depth)), r)
    {
      ghost var p, d, cap, log0 := More(cur, chunks), drive.disk, out.Length, drive.log;
      ghost var want := Piece(z, depth).want;
      hide CopyAll, Leaves, LeavesFrom, Trail, TrailFrom, Zones, Valid, PastEnd, NoPage;
      EnterTable(d, z, depth, logical, p, end, cap);
      r := Load(z, buf);
      LogStep(log0, log0, drive.log, [z], Zones(TrailFrom(d, z, depth, logical, 0, p, end, cap)), want, r);
    }

    /** One data zone of a pointer block. */
    method Leaf(z: nat) returns (r: Step)
      requires Ready()
      modifies this`cur, this`written, this`logical, this`chunks, out, block, drive`log, drive.frames.table
      ensures Finished(old(Piece(z, 0)), r) && (r == Go ==> cur < end && logical == old(logical) + BLOCK)
    {
      hide CopyAll, CopyZone, Leaves, Trail, DataReads, Zones, Valid, PastEnd, NoPage;
      LeafZoneStep(drive.disk, z, logical, More(cur, chunks), end, out.Length);
      r := Copy(z, logical);
      logical := logical + BLOCK;
    }

    /** One entry of the single-indirect pointer block `z`. */
    method SingleEntry(z: nat, i: nat, ghost from: Origin) returns (r: Step)
      requires i < PTRS && Midway(from, z, 1, i) && ind[..] == drive.disk(z)
      modifies this`cur, this`written, this`logical, this`chunks, out, block, drive`log, drive.frames.table
      ensures r == Go ==> Midway(from, z, 1, i + 1) && logical == old(logical) + BLOCK && ind[..] == drive.disk(z)
      ensures r != Go ==> Finished(from, r)
    {
      hide Ready, Valid, Midway, Finished, EntryNests, Piece, Ptr, Cap;
      EntryBegins(from, z, 1, i);
      var next := logical + BLOCK;
      Sizes();
      var zone := LoadPtr(ind, i, z);
      ghost var inner := Piece(zone, 0);
      r := Leaf(zone);
      EntryDone(from, inner, z, 1, i, next, r);
    }

    /** The data zones below the single-indirect pointer `z`. */
    method WalkSingle(z: nat) returns (r: Step)
      requires Ready() && z != 0
      modifies this`cur, this`written, this`logical, this`chunks, out, block, ind, drive`log, drive.frames.table
      ensures Finished(old(Piece(z, 1)), r) && (r == Go ==> cur < end && logical == old(logical) + PTRS * BLOCK)
    {
      hide Ready, Valid, Midway, Finished, Piece;
      ghost var from := Piece(z, 1);
      r := EnterBlock(z, 1, ind);
      if r != Go {
        return;
      }
      for i := 0 to PTRS
        invariant Midway(from, z, 1, i) && ind[..] == drive.disk(z) && logical == old(logical) + i * (BLOCK)
      {
        r := SingleEntry(z, i, from);
        if r != Go {
          return;
        }
      }
      LastEntry(from, z, 1);
      return Go;
    }

    /** One entry of the double-indirect pointer block `z`. */
    method DoubleEntry(z: nat, i: nat, ghost from: Origin) returns (r: Step)
      requires i < PTRS && Midway(from, z, 2, i) && dind[..] == drive.disk(z)
      modifies this`cur, this`written, this`logical, this`chunks, out, block, ind, drive`log, drive.frames.table
      ensures r == Go ==>
        Midway(from, z, 2, i + 1) && logical == old(logical) + PTRS * BLOCK && dind[..] == drive.disk(z)
      ensures r != Go ==> Finished(from, r)
    {
      hide Ready, Valid, Midway, Finished, EntryNests, Piece, Ptr, Cap;
      EntryBegins(from, z, 2, i);
      var next := logical + PTRS * BLOCK;
      Sizes();
      var zone := LoadPtr(dind, i, z);
      ghost var inner := Piece(zone, 1);
      if zone == 0 {
        MissingPiece(1);
        logical := next;
        r := Go;
      } else {
        r := WalkSingle(zone);
      }
      EntryDone(from, inner, z, 2, i, next, r);
    }

    /** The data zones below the double-indirect pointer `z`; a missing pointer block only moves the walk on. */
    method WalkDouble(z: nat) returns (r: Step)
      requires Ready() && z != 0
      modifies this`cur, this`written, this`logical, this`chunks, out, block, ind, dind, drive`log, drive.frames.table
      ensures Finished(old(Piece(z, 2)), r) && (r == Go ==> cur < end && logical == old(logical) + PTRS * PTRS * BLOCK)
    {
      hide Ready, Valid, Midway, Finished, Piece;
      ghost var from := Piece(z, 2);
      r := EnterBlock(z, 2, dind);
      if r != Go {
        return;
      }
      for i := 0 to PTRS
        invariant Midway(from, z, 2, i) && dind[..] == drive.disk(z) && logical == old(logical) + i * (PTRS * BLOCK)
      {
        r := DoubleEntry(z, i, from);
        if r != Go {
          return;
        }
      }
      LastEntry(from, z, 2);
      return Go;
    }

    /** One entry of the triple-indirect pointer block `z`. */
    method TripleEntry(z: nat, i: nat, ghost from: Origin) returns (r: Step)
      requires i < PTRS && Midway(from, z, 3, i) && tind[..] == drive.disk(z)
      modifies this`cur, this`written, this`logical, this`chunks, out, block, ind, dind, drive`log, drive.frames.table
      ensures r == Go ==>
        Midway(from, z, 3, i + 1) && logical == old(logical) + PTRS * PTRS * BLOCK && tind[..] == drive.disk(z)
      ensures r != Go ==> Finished(from, r)
    {
      hide Ready, Valid, Midway, Finished, EntryNests, Piece, Ptr, Cap;
      EntryBegins(from, z, 3, i);
      var next := logical + PTRS * PTRS * BLOCK;
      Sizes();
      var zone := LoadPtr(tind, i, z);
      ghost var inner := Piece(zone, 2);
      if zone == 0 {
        MissingPiece(2);
        logical := next;
        r := Go;
      } else {
        r := WalkDouble(zone);
      }
      EntryDone(from, inner, z, 3, i, next, r);
    }

    /** The data zones below the triple-indirect pointer `z`. */
    method WalkTriple(z: nat) returns (r: Step)
      requires Ready() && z != 0
      modifies this`cur, this`written, this`logical, this`chunks, out, block, ind, dind, tind, drive`log
      modifies drive.frames.table
      ensures Finished(old(Piece(z, 3)), r)
      ensures (r == Go ==> cur < end && logical == old(logical) + PTRS * PTRS * PTRS * BLOCK)
    {
      hide Ready, Valid, Midway, Finished, Piece;
      ghost var from := Piece(z, 3);
      r := EnterBlock(z, 3, tind);
      if r != Go {
        return;
      }
      for i := 0 to PTRS
        invariant Midway(from, z, 3, i) && tind[..] == drive.disk(z)
        invariant logical == old(logical) + i * (PTRS * PTRS * BLOCK)
      {
        r := TripleEntry(z, i, from);
        if r != Go {
          return;
        }
      }
      LastEntry(from, z, 3);
      return Go;
    }

    /** What the walk over the direct zones from `i` on is to do. */
    ghost function DirectPiece(n: Inode, i: nat): Origin
      requires InodeOk(n) && i <= DIRECT
      reads this, drive, drive.frames.table
    {
      var p := More(cur, chunks);
      Origin(drive.frames.table[..], drive.log, CopyAll(p, DirectEvents(n, i), end, out.Length),
             drive.log + Zones(DirectTrail(n, i, p, end, out.Length)))
    }

    /** Among the direct zones, before zone `i`. */
    ghost predicate MidDirect(from: Origin, n: Inode, i: nat)
      requires InodeOk(n) && i <= DIRECT
      reads this, out, drive, drive.frames.table
    {
      && Ready() && drive.frames.table[..] == from.table && from.log <= drive.log
      && CopyAll(More(cur, chunks), DirectEvents(n, i), end, out.Length) == from.goal
      && drive.log + Zones(DirectTrail(n, i, More(cur, chunks), end, out.Length)) == from.want
    }

    /** One direct zone. */
    method DirectZone(n: Inode, i: nat, ghost from: Origin) returns (r: Step)
      requires InodeOk(n) && i < DIRECT && MidDirect(from, n, i) && logical == i * BLOCK
      modifies this`cur, this`written, this`logical, this`chunks, out, block, drive`log, drive.frames.table
      ensures r == Go ==> MidDirect(from, n, i + 1) && logical == (i + 1) * BLOCK
      ensures r != Go ==> Finished(from, r)
    {
      assert |n.zones| == 10;
      ghost var p, e, mid, cap := More(cur, chunks), Event(n.zones[i], i * BLOCK), drive.log, out.Length;
      hide CopyZone, CopyAll, DirectEvents, DirectTrail, DataReads, Zones, Valid, PastEnd, NoPage, InodeOk;
      DirectStep(n, i, p, end, cap);
      r := Copy(n.zones[i], logical);
      logical := logical + BLOCK;
      LogStep(from.log, mid, drive.log, Zones(DataReads(e, p, end)),
              Zones(DirectTrail(n, i + 1, CopyZone(e, p.cur, p.chunks, end, cap), end, cap)), from.want, r);
    }

    lemma LastDirect(from: Origin, n: Inode)
      requires InodeOk(n) && MidDirect(from, n, DIRECT)
      ensures Finished(from, Go) && cur < end
    {
      hide Valid, PastEnd, NoPage;
      DirectDone(n, More(cur, chunks), end, out.Length);
      assert drive.log + [] == drive.log;
    }

    /** The seven direct zones. */
    method WalkDirect(n: Inode) returns (r: Step)
      requires Ready() && InodeOk(n) && logical == 0
      modifies this`cur, this`written, this`logical, this`chunks, out, block, drive`log, drive.frames.table
      ensures Finished(old(DirectPiece(n, 0)), r) && (r == Go ==> cur < end && logical == DIRECT * BLOCK)
    {
      hide CopyAll, DirectEvents, DirectTrail, Zones, Valid, Finished, InodeOk;
      ghost var from := DirectPiece(n, 0);
      for i := 0 to DIRECT
        invariant MidDirect(from, n, i) && logical == i * BLOCK
      {
        r := DirectZone(n, i, from);
        if r != Go {
          return;
        }
      }
      LastDirect(from, n);
      return Go;
    }

    /** What the whole walk is to do. */
    ghost function Whole(n: Inode): Origin
      requires InodeOk(n)
      reads this, drive, drive.frames.table
    {
      var p := More(cur, chunks);
      Origin(drive.frames.table[..], drive.log, CopyAll(p, FileEvents(drive.disk, n), end, out.Length),
             drive.log + Zones(FileTrail(drive.disk, n, p, end, out.Length)))
    }

    /** The reader stands at `p` with `todo` left to ask for. */
    ghost predicate Standing(from: Origin, p: Progress, todo: seq<nat>)
      reads this, out, drive, drive.frames.table
    {
      && Ready() && p == More(cur, chunks) && drive.frames.table[..] == from.table && from.log <= drive.log
      && drive.log + todo == from.want
    }

    /** The walk over the direct zones comes first. */
    lemma DirectBegins(n: Inode, w: Parts)
      requires InodeOk(n) && w == PartsOf(drive.disk, n, More(cur, chunks), end, out.Length)
      ensures PartsFit(drive.disk, n, w, Whole(n).goal, end, out.Length)
      ensures Nests(Whole(n), DirectPiece(n, 0), w.z1 + (w.z2 + w.z3)) && DirectPiece(n, 0).goal == w.p1
    {
      hide CopyAll, DirectEvents, DirectTrail, FileTrail, FileEvents, Zones, Leaves, Trail, InodeOk;
      WholeInParts(drive.disk, n, More(cur, chunks), end, out.Length);
      TrailInParts(drive.disk, n, More(cur, chunks), end, out.Length);
      var rest := w.z1 + (w.z2 + w.z3);
      assert drive.log + (w.z0 + rest) == (drive.log + w.z0) + rest;
    }

    /** A subtree of the inode comes next. */
    lemma SubtreeBegins(from: Origin, p: Progress, z: nat, depth: nat, rest: seq<nat>)
      requires depth <= 3
      requires Standing(from, p, Zones(Trail(drive.disk, z, depth, logical, p, end, out.Length)) + rest)
      requires Stops(CopyAll(p, Leaves(drive.disk, z, depth, logical), end, out.Length), from.goal, rest)
      ensures Ready() && Nests(from, Piece(z, depth), rest)
      ensures Piece(z, depth).goal == CopyAll(p, Leaves(drive.disk, z, depth, logical), end, out.Length)
    {
      hide Valid, CopyAll, Leaves, Trail, Zones;
      var t := Zones(Trail(drive.disk, z, depth, logical, p, end, out.Length));
      assert drive.log + (t + rest) == (drive.log + t) + rest;
    }

    lemma SingleBegins(from: Origin, n: Inode, w: Parts)
      requires InodeOk(n) && PartsFit(drive.disk, n, w, from.goal, end, out.Length)
      requires Standing(from, w.p1, w.z1 + (w.z2 + w.z3)) && logical == DIRECT * BLOCK
      ensures Ready() && Nests(from, Piece(n.zones[7], 1), w.z2 + w.z3) && Piece(n.zones[7], 1).goal == w.p2
    {
      hide CopyAll, Leaves, Trail, Zones, Standing, Piece, Ready, Nests;
      SubtreeBegins(from, w.p1, n.zones[7], 1, w.z2 + w.z3);
    }

    lemma DoubleBegins(from: Origin, n: Inode, w: Parts)
      requires InodeOk(n) && PartsFit(drive.disk, n, w, from.goal, end, out.Length)
      requires Standing(from, w.p2, w.z2 + w.z3) && logical == (DIRECT + PTRS) * BLOCK
      ensures Ready() && Nests(from, Piece(n.zones[8], 2), w.z3) && Piece(n.zones[8], 2).goal == w.p3
    {
      hide CopyAll, Leaves, Trail, Zones, Standing, Piece, Ready, Nests;
      SubtreeBegins(from, w.p2, n.zones[8], 2, w.z3);
    }

    lemma TripleBegins(from: Origin, n: Inode, w: Parts)
      requires InodeOk(n) && PartsFit(drive.disk, n, w, from.goal, end, out.Length)
      requires Standing(from, w.p3, w.z3) && logical == TripleStart(n)
      ensures Ready() && Nests(from, Piece(n.zones[9], 3), []) && Piece(n.zones[9], 3).goal == from.goal
    {
      hide CopyAll, Leaves, Trail, Zones, Standing, Piece, Ready, Nests;
      assert w.z3 + [] == w.z3;
      SubtreeBegins(from, w.p3, n.zones[9], 3, []);
    }

    /** A part of the walk is over: the reader stands before the next one, or the whole walk is over. */
    lemma PartDone(from: Origin, inner: Origin, rest: seq<nat>, r: Step)
      requires Nests(from, inner, rest) && Finished(inner, r) && (r == Go ==> cur < end)
      ensures r != Go ==> Finished(from, r)
      ensures r == Go ==> Standing(from, inner.goal, rest)
    {
      hide Valid, Finished, Nests;
      PieceDone(from, inner, rest, r);
    }

    /** The whole walk is over after its last part. */
    lemma WalkDone(from: Origin, inner: Origin, r: Step)
      requires Nests(from, inner, []) && inner.goal == from.goal && Finished(inner, r)
      ensures Finished(from, r)
    {
      hide Valid, PastEnd, NoPage;
      assert inner.want + [] == inner.want;
    }

    /** The subtree below the single-indirect pointer; a missing one moves the walk on. */
    method SinglePart(z: nat) returns (r: Step)
      requires Ready()
      modifies this`cur, this`written, this`logical, this`chunks, out, block, ind, drive`log, drive.frames.table
      ensures Finished(old(Piece(z, 1)), r) && (r == Go ==> cur < end && logical == old(logical) + PTRS * BLOCK)
    {
      if z != 0 {
        r := WalkSingle(z);
      } else {
        assert cur < end;
        hide Ready, Valid, Finished, Piece;
        MissingPiece(1);
        logical := logical + PTRS * BLOCK;
        r := Go;
      }
    }

    /** The subtree below the double-indirect pointer; a missing one leaves the walk where it is. */
    method DoublePart(z: nat) returns (r: Step)
      requires Ready()
      modifies this`cur, this`written, this`logical, this`chunks, out, block, ind, dind, drive`log, drive.frames.table
      ensures Finished(old(Piece(z, 2)), r)
      ensures r == Go ==> cur < end && logical == old(logical) + (if z == 0 then 0 else PTRS * PTRS * BLOCK)
    {
      if z != 0 {
        r := WalkDouble(z);
      } else {
        assert cur < end;
        hide Ready, Valid, Finished, Piece;
        MissingPiece(2);
        r := Go;
      }
    }

    /** The subtree below the triple-indirect pointer. */
    method TriplePart(z: nat) returns (r: Step)
      requires Ready()
      modifies this`cur, this`written, this`logical, this`chunks, out, block, ind, dind, tind, drive`log
      modifies drive.frames.table
      ensures Finished(old(Piece(z, 3)), r)
    {
      if z != 0 {
        r := WalkTriple(z);
      } else {
        hide Ready, Valid, Finished, Piece;
        MissingPiece(3);
        r := Go;
      }
    }

    /** The whole walk: direct, then single, double and triple indirect. */
    method Walk(n: Inode) returns (r: Step)
      requires Ready() && InodeOk(n) && logical == 0
      modifies this`cur, this`written, this`logical, this`chunks, out, block, ind, dind, tind, drive`log
      modifies drive.frames.table
      ensures Finished(old(Whole(n)), r)
    {
      hide Valid, Finished, Piece, DirectPiece, Whole, Nests, Standing, PartsOf, PartsFit;
      assert |n.zones| == 10 && cur < end;
      hide Ready, InodeOk;
      ghost var from, w := Whole(n), PartsOf(drive.disk, n, More(cur, chunks), end, out.Length);
      DirectBegins(n, w);
      ghost var inner := DirectPiece(n, 0);
      r := WalkDirect(n);
      PartDone(from, inner, w.z1 + (w.z2 + w.z3), r);
      if r != Go {
        return;
      }
      SingleBegins(from, n, w);
      inner := Piece(n.zones[7], 1);
      r := SinglePart(n.zones[7]);
      PartDone(from, inner, w.z2 + w.z3, r);
      if r != Go {
        return;
      }
      DoubleBegins(from, n, w);
      inner := Piece(n.zones[8], 2);
      r := DoublePart(n.zones[8]);
      PartDone(from, inner, w.z3, r);
      if r != Go {
        return;
      }
      TripleBegins(from, n, w);
      inner := Piece(n.zones[9], 3);
      r := TriplePart(n.zones[9]);
      WalkDone(from, inner, r);
    }
  }
}
