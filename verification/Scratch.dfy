/** Page-granular scratch buffers that are returned to the allocator when their scope ends. */
module Scratch {
  import opened PageFrame

  /** Tables after taking one-page runs at `starts`, in order; each was a free window when taken. */
  ghost predicate FreeChain(t: seq<bv8>, starts: seq<nat>)
    decreases |starts|, 0
  {
    starts == [] || (
      && FreeChain(t, starts[..|starts|-1])
      && FreeWindow(TakeAll(t, starts[..|starts|-1]), starts[|starts|-1], 1))
  }

  ghost function TakeAll(t: seq<bv8>, starts: seq<nat>): (u: seq<bv8>)
    requires FreeChain(t, starts)
    ensures |u| == |t|
    decreases |starts|, 1
  {
    if starts == [] then t else MarkRun(TakeAll(t, starts[..|starts|-1]), starts[|starts|-1], 1)
  }

  lemma {:induction false} TakeAllWellFormed(t: seq<bv8>, starts: seq<nat>)
    requires WellFormed(t) && FreeChain(t, starts)
    ensures WellFormed(TakeAll(t, starts))
    decreases starts
  {
    if starts != [] {
      var k := |starts| - 1;
      TakeAllWellFormed(t, starts[..k]);
      MarkRunWellFormed(TakeAll(t, starts[..k]), starts[k], 1);
    }
  }

  /** Releasing the last buffer taken goes back exactly one step. */
  lemma DropLast(t: seq<bv8>, starts: seq<nat>)
    requires WellFormed(t) && starts != [] && FreeChain(t, starts)
    ensures FreeFrom(TakeAll(t, starts), starts[|starts|-1]) == Some(TakeAll(t, starts[..|starts|-1]))
  {
    var k := |starts| - 1;
    TakeAllWellFormed(t, starts[..k]);
    FreeUndoesAllocate(TakeAll(t, starts[..k]), starts[k], 1);
  }

  lemma {:induction false} RoomLeft(t: seq<bv8>, starts: seq<nat>, room: nat)
    requires FreeChain(t, starts) && room <= |t|
    ensures FreeBelow(TakeAll(t, starts), room) >= FreeBelow(t, room) - |starts|
    decreases starts
  {
    if starts != [] {
      var k := |starts| - 1;
      RoomLeft(t, starts[..k], room);
      FreeBelowMark(TakeAll(t, starts[..k]), starts[k], room);
    }
  }

  /** A free page lies past the heap end, where the allocator would refuse it back. */
  ghost predicate FreeBeyond(l: Layout, t: seq<bv8>) {
    exists i: nat :: i < |t| && !IsTaken(t[i]) && l.PageAddr(i) >= l.HeapEnd()
  }

  /** A page free after taking buffers was free before. */
  lemma {:induction false} FreeBefore(t: seq<bv8>, starts: seq<nat>, i: nat)
    requires FreeChain(t, starts) && i < |t| && !IsTaken(TakeAll(t, starts)[i])
    ensures !IsTaken(t[i])
    decreases starts
  {
    if starts != [] {
      var k := |starts| - 1;
      MarkKeeps(TakeAll(t, starts[..k]), starts[k], i);
      FreeBefore(t, starts[..k], i);
    }
  }

  lemma MarkKeeps(t: seq<bv8>, s: nat, i: nat)
    requires s < |t| && i < |t| && !IsTaken(MarkRun(t, s, 1)[i])
    ensures !IsTaken(t[i])
  {
  }

  /** The pages of buffers in hand were free. */
  lemma {:induction false} BuffersWereFree(t: seq<bv8>, starts: seq<nat>, j: nat)
    requires FreeChain(t, starts) && j < |starts|
    ensures starts[j] < |t| && !IsTaken(t[starts[j]])
    decreases starts
  {
    var k := |starts| - 1;
    if j == k {
      FreeBefore(t, starts[..k], starts[k]);
    } else {
      BuffersWereFree(t, starts[..k], j);
    }
  }

  /** Room below the heap end: `k` free pages that can be had and returned. */
  ghost predicate RoomIn(l: Layout, t: seq<bv8>, k: nat) {
    exists room: nat :: HasRoom(l, t, k, room)
  }

  ghost predicate HasRoom(l: Layout, t: seq<bv8>, k: nat, room: nat) {
    room <= |t| && FreeBelow(t, room) >= k && forall i: nat :: i < room ==> l.PageAddr(i) < l.HeapEnd()
  }

  ghost predicate RoomFor(frames: PageFrames, k: nat)
    reads frames.table
  {
    RoomIn(frames.layout, frames.table[..], k)
  }

  lemma FewerWillDo(l: Layout, t: seq<bv8>, k: nat, j: nat)
    requires j <= k
    ensures RoomIn(l, t, k) ==> RoomIn(l, t, j)
  {
    if RoomIn(l, t, k) {
      var room :| HasRoom(l, t, k, room);
      assert HasRoom(l, t, j, room);
    }
  }

  /** Buffers in hand leave the rest of the room. */
  lemma RoomBeside(l: Layout, t: seq<bv8>, starts: seq<nat>, k: nat)
    requires FreeChain(t, starts) && RoomIn(l, t, |starts| + k)
    ensures RoomIn(l, TakeAll(t, starts), k)
  {
    var room :| HasRoom(l, t, |starts| + k, room);
    RoomLeft(t, starts, room);
    assert HasRoom(l, TakeAll(t, starts), k, room);
  }

  /** Pages of a buffer of `bytes` bytes. */
  function PagesFor(bytes: nat): (p: nat)
    ensures p >= 1 && p * PAGE_SIZE >= bytes && (p > 1 ==> (p - 1) * PAGE_SIZE < bytes)
  {
    if bytes <= PAGE_SIZE then 1 else (bytes + (PAGE_SIZE - 1)) / PAGE_SIZE
  }

  /** The scratch buffers of one call, innermost last. */
  class Buffers {
    const frames: PageFrames
    var addrs: seq<nat>
    ghost const entry: seq<bv8>
    ghost var starts: seq<nat>

    ghost predicate Valid()
      reads this, frames, frames.table
    {
      && frames.table.Length == frames.layout.Count()
      && WellFormed(entry) && FreeChain(entry, starts) && frames.table[..] == TakeAll(entry, starts)
      && |addrs| == |starts|
      && forall i :: 0 <= i < |starts| ==> addrs[i] == frames.layout.PageAddr(starts[i])
    }

    constructor (frames: PageFrames)
      requires frames.Valid()
      ensures Valid() && this.frames == frames && addrs == [] && starts == [] && entry == frames.table[..]
    {
      this.frames := frames;
      addrs, starts := [], [];
      entry := frames.table[..];
    }

    /** One more buffer of at most a page. */
    method New() returns (ok: bool)
      requires Valid()
      modifies this`addrs, this`starts, frames.table
      ensures Valid()
      ensures ok ==> |starts| == old(|starts|) + 1 && starts[..|starts|-1] == old(starts)
      ensures !ok ==> starts == old(starts)
      ensures ok ==>
        forall room: nat :: room <= |entry| && FreeBelow(entry, room) > old(|starts|) ==> starts[|starts|-1] < room
      ensures !ok ==> forall room: nat :: room <= |entry| ==> FreeBelow(entry, room) <= |starts|
    {
      TakeAllWellFormed(entry, starts);
      ghost var t := frames.table[..];
      assert frames.Valid();
      var a := frames.Allocate(PagesFor(1024));
      assert PagesFor(1024) == 1;
      forall room: nat | room <= |entry| && FreeBelow(entry, room) > |starts|
        ensures FirstFit(t, 1, 0).Some? && FirstFit(t, 1, 0).value < room
      {
        RoomLeft(entry, starts, room);
        FreeBelowSome(t, room);
      }
      match a
      case None => ok := false;
      case Some(addr) =>
        ok := true;
        ghost var s := FirstFit(t, 1, 0).value;
        ghost var was := starts;
        addrs := addrs + [addr];
        starts := starts + [s];
        assert starts[..|starts|-1] == was;
    }

    /** Return all buffers, last first; false is the allocator's panic. */
    method Drop() returns (ok: bool)
      requires Valid()
      modifies this`addrs, this`starts, frames.table
      ensures ok ==> frames.table[..] == entry && frames.Valid()
      ensures (forall i :: 0 <= i < old(|starts|) ==> old(addrs)[i] < frames.layout.HeapEnd()) ==> ok
      ensures !ok ==> FreeBeyond(frames.layout, entry)
    {
      ghost var was := starts;
      forall i | 0 <= i < |was| && addrs[i] >= frames.layout.HeapEnd() ensures FreeBeyond(frames.layout, entry) {
        BuffersWereFree(entry, was, i);
      }
      while addrs != []
        modifies this`addrs, this`starts, frames.table
        invariant Valid() && |addrs| <= |old(addrs)| && addrs == old(addrs)[..|addrs|]
        decreases |addrs|
      {
        var k := |addrs| - 1;
        var addr := addrs[k];
        DropLast(entry, starts);
        assert addr == frames.layout.PageAddr(starts[k]);
        var freed := frames.Deallocate(addr);
        if !freed {
          return false;
        }
        addrs := addrs[..k];
        starts := starts[..k];
      }
      return true;
    }
  }
}
