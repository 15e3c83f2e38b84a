/** Runs of pages taken from the allocator and zeroed. */
module ZeroedPages {
  import opened PageFrame

  /** The run's address, no run, or a store to pages that are not RAM. */
  datatype Zeroed = Zeroed(addr: nat) | NoMemory | OutsideRam

  class Heap {
    const frames: PageFrames
    /** The words of the described pages that are RAM. */
    const pages: array<seq<nat>>

    ghost predicate Valid()
      reads frames.table
    {
      frames.Valid() && pages.Length <= frames.table.Length && (pages as object) != frames.table
    }

    constructor (frames: PageFrames, pages: array<seq<nat>>)
      requires frames.Valid() && pages.Length <= frames.table.Length && (pages as object) != frames.table
      ensures Valid() && this.frames == frames && this.pages == pages
    {
      this.frames, this.pages := frames, pages;
    }

    /** Take the lowest free window and clear its pages, and no others. */
    method Zallocate(count: nat) returns (r: Zeroed)
      requires Valid() && count > 0
      modifies frames.table, pages
      ensures Valid()
      ensures match FirstFit(old(frames.table[..]), count, 0)
        case None => r == NoMemory && frames.table[..] == old(frames.table[..]) && pages[..] == old(pages[..])
        case Some(s) =>
          && frames.table[..] == MarkRun(old(frames.table[..]), s, count)
          && r == (if s + count <= pages.Length then Zeroed(frames.layout.PageAddr(s)) else OutsideRam)
          && (r.Zeroed? ==> pages[..] == Cleared(old(pages[..]), s, count))
    {
      ghost var t, was := frames.table[..], pages[..];
      hide FirstFit, MarkRun, Runs, WellFormed;
      var a := frames.Allocate(count);
      if a.None? {
        return NoMemory;
      }
      ghost var s := FirstFit(t, count, 0).value;
      var first := (a.value - frames.layout.AllocStart()) / PAGE_SIZE;
      assert first == s;
      if first + count > pages.Length {
        return OutsideRam;
      }
      for i := 0 to count
        modifies pages
        invariant pages[..] == Cleared(was, s, i)
      {
        pages[first + i] := ZeroPage();
      }
      return Zeroed(a.value);
    }
  }

  /** Pages `s` to `s + count` all zero, the others as they were. */
  function Cleared(pages: seq<seq<nat>>, s: nat, count: nat): (r: seq<seq<nat>>)
    requires s + count <= |pages|
    ensures |r| == |pages| && forall i :: 0 <= i < |r| ==> r[i] == if s <= i < s + count then ZeroPage() else pages[i]
  {
    seq(|pages|, i requires 0 <= i < |pages| => if s <= i < s + count then ZeroPage() else pages[i])
  }
}
