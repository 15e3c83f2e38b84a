/** Block reads as the file system sees them: each takes a request page from the allocator and gives it back. */
module Drive {
  import opened PageFrame
  import opened Scratch
  import opened Minix3

  /** A block read ends with the block, without it, or with the allocator refusing the request page back. */
  datatype Fetch = Got | Refused | Lost

  /** There is no page for a request. */
  ghost predicate NoPage(t: seq<bv8>) { FirstFit(t, 1, 0).None? }

  /** The page a request would get lies past the heap end. */
  ghost predicate PastEnd(l: Layout, t: seq<bv8>) {
    FirstFit(t, 1, 0).Some? && l.PageAddr(FirstFit(t, 1, 0).value) >= l.HeapEnd()
  }

  /** One free page below the heap end is enough for a request. */
  lemma RoomForRequest(l: Layout, t: seq<bv8>)
    requires RoomIn(l, t, 1)
    ensures !NoPage(t) && !PastEnd(l, t)
  {
    var room :| HasRoom(l, t, 1, room);
    FreeBelowSome(t, room);
  }

  class BlockDrive {
    const frames: PageFrames
    const disk: Disk
    /** The device and its queue deliver every request. */
    const reliable: bool
    /** The zones asked for so far. */
    ghost var log: seq<nat>

    constructor (frames: PageFrames, disk: Disk, reliable: bool)
      ensures this.frames == frames && this.disk == disk && this.reliable == reliable && log == []
    {
      this.frames, this.disk, this.reliable := frames, disk, reliable;
      log := [];
    }

    /** One synchronous block read. */
    method Read(zone: nat, buf: array<byte>) returns (r: Fetch)
      requires frames.Valid() && buf.Length == BLOCK && (buf as object) != frames.table
      modifies this`log, frames.table, buf
      ensures log == old(log) + [zone]
      ensures r == Lost <==> PastEnd(frames.layout, old(frames.table[..]))
      ensures r != Lost ==> frames.table[..] == old(frames.table[..]) && frames.Valid()
      ensures r == Got ==> buf[..] == disk(zone)
      ensures r == Refused ==> NoPage(old(frames.table[..])) || !reliable
      ensures NoPage(old(frames.table[..])) ==> r == Refused && buf[..] == old(buf[..])
    {
      ghost var t := frames.table[..];
      hide FirstFit, MarkRun, FreeFrom, WellFormed, Runs;
      log := log + [zone];
      var page := frames.Allocate(1);
      if page.None? {
        return Refused;
      }
      ghost var s := FirstFit(t, 1, 0).value;
      FreeUndoesAllocate(t, s, 1);
      assert (page.value - frames.layout.AllocStart()) / PAGE_SIZE == s;
      var ok := *;
      ok := ok || reliable;
      if ok {
        Fill(zone, buf);
      }
      var freed := frames.Deallocate(page.value);
      return if !freed then Lost else if ok then Got else Refused;
    }

    /** The device writes the block into the buffer. */
    method Fill(zone: nat, buf: array<byte>)
      requires buf.Length == BLOCK
      modifies buf
      ensures buf[..] == disk(zone)
    {
      var data := disk(zone);
      for i := 0 to BLOCK
        invariant buf[..i] == data[..i]
      {
        buf[i] := data[i];
      }
      assert buf[..] == buf[..BLOCK] == data[..BLOCK] == data;
    }
  }
}
