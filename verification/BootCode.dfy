/** The loops and calls by which boot installs the identity mapping. */
module BootCode {
  import opened PageFrame
  import opened Sv39
  import opened Sv39Unmap
  import opened Sv39Code
  import opened BootMap

  /** The machine ends as computed: in the new state, or stopped for the same reason. */
  ghost predicate Ends(ram: Ram, o: Outcome<Phys>, r: Outcome<()>)
    reads ram, ram.frames, ram.frames.table
  {
    match o
    case Done(h) => r == Done(()) && ram.State() == h && ram.Valid()
    case OutOfMemory => r == OutOfMemory
    case BadAccess => r == BadAccess
    case Panic => r == Panic
  }

  lemma {:induction false} MapAllConcat(h: Phys, root: nat, a: seq<MapCall>, b: seq<MapCall>)
    ensures MapAll(h, root, a + b)
         == match MapAll(h, root, a) { case Done(h1) => MapAll(h1, root, b) case stop => stop }
    decreases a
  {
    if a == [] {
      assert a + b == b;
    } else {
      var c := a[0];
      assert (a + b)[0] == c && (a + b)[1..] == a[1..] + b;
      hide Map;
      var o := Map(h, root, c.va, c.pa, c.bits, c.level);
      if o.Done? {
        MapAllConcat(o.value, root, a[1..], b);
      }
    }
  }

  lemma RangeStep(h: Phys, root: nat, start: nat, end: nat, bits: nat)
    ensures start >= end ==> MapAll(h, root, IdRange(start, end, bits)) == Done(h)
    ensures start < end ==>
      MapAll(h, root, IdRange(start, end, bits)) ==
        match Map(h, root, start, start, bits, 0)
        case Done(h1) => MapAll(h1, root, IdRange(start + PAGE_SIZE, end, bits))
        case stop => stop
  {
    hide Map;
    if start < end {
      RangeCons(start, end, bits);
    }
  }

  /** Boundaries off a page, or flags that make no leaf for a page that is to be mapped. */
  predicate Refused(start: nat, end: nat, bits: nat) {
    start % PAGE_SIZE != 0 || end % PAGE_SIZE != 0 || (start < end && !LeafFlags(bits))
  }

  /** Identity-map every page of `[start, end)`. */
  method IdMapRange(ram: Ram, root: nat, start: nat, end: nat, bits: nat) returns (r: Outcome<()>)
    requires ram.Valid() && bits < 256
    modifies ram`mem, ram.frames.table
    ensures Refused(start, end, bits) ==> r == Panic && ram.State() == old(ram.State())
    ensures !Refused(start, end, bits) ==> Ends(ram, MapAll(old(ram.State()), root, IdRange(start, end, bits)), r)
  {
    if start % PAGE_SIZE != 0 || end % PAGE_SIZE != 0 {
      return Panic;
    }
    hide Map, MapAll, IdRange, LeafFlags;
    ghost var goal := MapAll(ram.State(), root, IdRange(start, end, bits));
    var addr := start;
    while addr < end
      modifies ram`mem, ram.frames.table
      invariant ram.Valid() && start <= addr && MapAll(ram.State(), root, IdRange(addr, end, bits)) == goal
      invariant start < addr ==> LeafFlags(bits)
      invariant addr == start ==> ram.State() == old(ram.State())
      decreases end - addr
    {
      RangeStep(ram.State(), root, addr, end, bits);
      r := ram.Map(root, addr, addr, bits, 0);
      if !r.Done? {
        return;
      }
      addr := addr + PAGE_SIZE;
    }
    RangeStep(ram.State(), root, addr, end, bits);
    return Done(());
  }

  /** A history that stops has stopped for good. */
  lemma Stopped(h: Phys, root: nat, a: seq<MapCall>, b: seq<MapCall>)
    requires !MapAll(h, root, a).Done?
    ensures MapAll(h, root, a + b) == MapAll(h, root, a)
  {
    MapAllConcat(h, root, a, b);
  }

  /** Round a section outward to whole pages and map it, after the calls in `done`; nothing more happens once boot
      has stopped. */
  method MapSection(ram: Ram, root: nat, before: Outcome<()>, start: nat, end: nat, bits: nat, ghost h: Phys,
                    ghost done: seq<MapCall>)
    returns (r: Outcome<()>)
    requires bits < 256 && Ends(ram, MapAll(h, root, done), before)
    modifies ram`mem, ram.frames.table
    ensures before.Done? && PageDown(start) < PageUp(end) && !LeafFlags(bits) ==>
      r == Panic && ram.State() == old(ram.State())
    ensures !before.Done? || PageDown(start) >= PageUp(end) || LeafFlags(bits) ==>
      Ends(ram, MapAll(h, root, done + SectionCalls(start, end, bits)), r)
  {
    hide Map, MapAll, IdRange, LeafFlags, PageDown, PageUp;
    if !before.Done? {
      Stopped(h, root, done, SectionCalls(start, end, bits));
      return before;
    }
    MapAllConcat(h, root, done, SectionCalls(start, end, bits));
    r := IdMapRange(ram, root, PageDown(start), PageUp(end), bits);
  }

  /** The mapping sequence of boot, over a zeroed root. */
  method MapKernel(ram: Ram, root: nat, s: Sections) returns (r: Outcome<()>)
    requires ram.Valid()
    modifies ram`mem, ram.frames.table
    ensures Ends(ram, MapAll(old(ram.State()), root, BootCalls(s)), r)
  {
    ghost var h := ram.State();
    assert MapAll(h, root, []) == Done(h);
    assert LeafFlags(RX) && LeafFlags(RO) && LeafFlags(RW);
    hide MapAll, SectionCalls, LeafFlags, Ends;
    ghost var c := [] + SectionCalls(s.textStart, s.textEnd, RX);
    assert c == SectionCalls(s.textStart, s.textEnd, RX);
    r := Done(());
    StartEnds(ram, h);
    r := MapSection(ram, root, r, s.textStart, s.textEnd, RX, h, []);
    r := MapSection(ram, root, r, s.rodataStart, s.rodataEnd, RO, h, c);
    c := c + SectionCalls(s.rodataStart, s.rodataEnd, RO);
    r := MapSection(ram, root, r, s.dataStart, s.dataEnd, RW, h, c);
    c := c + SectionCalls(s.dataStart, s.dataEnd, RW);
    r := MapSection(ram, root, r, s.bssStart, s.bssEnd, RW, h, c);
    c := c + SectionCalls(s.bssStart, s.bssEnd, RW);
    r := MapSection(ram, root, r, s.stackStart, s.stackEnd, RW, h, c);
    c := c + SectionCalls(s.stackStart, s.stackEnd, RW);
    r := MapSection(ram, root, r, s.heapStart, s.memoryEnd, RW, h, c);
    c := c + SectionCalls(s.heapStart, s.memoryEnd, RW);
    r := MapSection(ram, root, r, UART, UART + PAGE_SIZE, RW, h, c);
    c := c + SectionCalls(UART, UART + PAGE_SIZE, RW);
    r := MapSection(ram, root, r, VIRTIO_START, VIRTIO_END + VIRTIO_STRIDE, RW, h, c);
  }

  lemma StartEnds(ram: Ram, h: Phys)
    requires ram.Valid() && ram.State() == h
    ensures Ends(ram, Done(h), Done(()))
  {
  }
}
